/** The in-memory line log of a module channel: line assembly from a byte stream, the bounded line buffer and
    polling by sequence number. */
module ModuleLog {

  import opened Bits

  const MAX_MEMORY_LINES := 5000

  const NEWLINE: Byte := 10

  datatype Direction = RX | TX | EVENT

  datatype Line = Line(number: nat, direction: Direction, text: seq<Byte>)

  // ---------------------------------------------------------------------------
  // Lines of a byte stream
  // ---------------------------------------------------------------------------

  /** What follows the last newline. */
  function Rest(s: seq<Byte>): seq<Byte> {
    if s == [] || s[|s| - 1] == NEWLINE then [] else Rest(s[..|s| - 1]) + [s[|s| - 1]]
  }

  /** A line ends with each newline. */
  function Lines(s: seq<Byte>): seq<seq<Byte>> {
    if s == [] then []
    else
      var init := s[..|s| - 1];
      Lines(init) + if s[|s| - 1] == NEWLINE then [Rest(init) + [NEWLINE]] else []
  }

  function Concat(chunks: seq<seq<Byte>>): seq<Byte> {
    if chunks == [] then [] else Concat(chunks[..|chunks| - 1]) + chunks[|chunks| - 1]
  }

  predicate IsLine(line: seq<Byte>) {
    line != [] && line[|line| - 1] == NEWLINE && NEWLINE !in line[..|line| - 1]
  }

  lemma {:induction false} RestIsPlain(s: seq<Byte>)
    ensures NEWLINE !in Rest(s)
  {
    if s != [] && s[|s| - 1] != NEWLINE {
      RestIsPlain(s[..|s| - 1]);
    }
  }

  /** Lines and rest are the stream cut after each newline, and no byte is lost. */
  lemma {:induction false} LinesKeepBytes(s: seq<Byte>)
    ensures Concat(Lines(s)) + Rest(s) == s
    ensures forall k | 0 <= k < |Lines(s)| :: IsLine(Lines(s)[k])
  {
    hide Rest, Lines, IsLine;
    if s == [] {
      PlainIsRest(s);
    } else {
      var init, last := s[..|s| - 1], s[|s| - 1];
      LinesKeepBytes(init);
      RestIsPlain(init);
      LastByte(init, last);
      assert s == init + [last];
      if last == NEWLINE {
        NewLine(Lines(init), Rest(init));
      } else {
        assert Lines(s) == Lines(init);
        assert Concat(Lines(init)) + (Rest(init) + [last]) == s;
      }
    }
  }

  lemma NewLine(lines: seq<seq<Byte>>, rest: seq<Byte>)
    requires NEWLINE !in rest
    ensures IsLine(rest + [NEWLINE])
    ensures Concat(lines + [rest + [NEWLINE]]) == Concat(lines) + rest + [NEWLINE]
  {
    var line := rest + [NEWLINE];
    assert line[..|line| - 1] == rest;
    assert (lines + [line])[..|lines|] == lines;
  }

  lemma LastByte(s: seq<Byte>, b: Byte)
    ensures Rest(s + [b]) == if b == NEWLINE then [] else Rest(s) + [b]
    ensures Lines(s + [b]) == Lines(s) + if b == NEWLINE then [Rest(s) + [NEWLINE]] else []
  {
    assert (s + [b])[..|s|] == s;
  }

  lemma {:induction false} PlainIsRest(s: seq<Byte>)
    requires NEWLINE !in s
    ensures Rest(s) == s && Lines(s) == []
  {
    if s != [] {
      PlainIsRest(s[..|s| - 1]);
    }
  }

  /** Where the stream is cut into chunks does not matter: a chunk goes on from the rest of those before. */
  lemma {:induction false} ChunksDoNotMatter(a: seq<Byte>, b: seq<Byte>)
    ensures Lines(a + b) == Lines(a) + Lines(Rest(a) + b)
    ensures Rest(a + b) == Rest(Rest(a) + b)
  {
    hide Rest, Lines;
    if b == [] {
      assert a + b == a && Rest(a) + b == Rest(a);
      RestIsPlain(a);
      PlainIsRest(Rest(a));
    } else {
      var init, last := b[..|b| - 1], b[|b| - 1];
      ChunksDoNotMatter(a, init);
      assert a + b == (a + init) + [last] && Rest(a) + b == (Rest(a) + init) + [last];
      LastByte(a + init, last);
      LastByte(Rest(a) + init, last);
    }
  }

  /** Taking the first line off the front leaves the other lines. */
  lemma FirstLine(front: seq<Byte>, back: seq<Byte>)
    requires NEWLINE !in front
    ensures Lines(front + [NEWLINE] + back) == [front + [NEWLINE]] + Lines(back)
    ensures Rest(front + [NEWLINE] + back) == Rest(back)
  {
    hide Rest, Lines;
    PlainIsRest(front);
    LastByte(front, NEWLINE);
    ChunksDoNotMatter(front + [NEWLINE], back);
    assert [] + back == back;
    assert Lines(front) + [front + [NEWLINE]] == [front + [NEWLINE]];
  }

  // ---------------------------------------------------------------------------
  // History, retained lines and polling
  // ---------------------------------------------------------------------------

  /** The number of the oldest line in memory after `n` lines. */
  function Oldest(n: nat): nat {
    if n > MAX_MEMORY_LINES then n - MAX_MEMORY_LINES else 0
  }

  ghost predicate Numbered(history: seq<Line>) {
    forall i | 0 <= i < |history| :: history[i].number == i
  }

  /** From which line on a poll answers. */
  function From(n: nat, after: int): (from: nat)
    ensures Oldest(n) <= from <= n
  {
    if after < Oldest(n) then Oldest(n) else if after + 1 < n then after + 1 else n
  }

  lemma FromSplits(n: nat, after: int, k: nat)
    requires Oldest(n) <= k < n
    ensures k >= From(n, after) <==> k > after
  {
  }

  /** The lines from `from` on among the first `k`. */
  function Above(history: seq<Line>, from: nat, k: nat): seq<Line>
    requires k <= |history|
  {
    if k <= from then [] else history[from..k]
  }

  lemma AboveEnds(history: seq<Line>, from: nat, oldest: nat)
    requires oldest <= from <= |history|
    ensures Above(history, from, oldest) == [] && Above(history, from, |history|) == history[from..]
  {
  }

  lemma AboveStep(history: seq<Line>, from: nat, k: nat)
    requires k < |history|
    ensures Above(history, from, k + 1) == Above(history, from, k) + if k >= from then [history[k]] else []
  {
  }

  /** What a poll returns when `history` was logged: lines, and the number to poll with next. */
  function Poll(history: seq<Line>, after: int): (seq<Line>, int) {
    (history[From(|history|, after)..], if history != [] then |history| - 1 else after)
  }

  function Texts(history: seq<Line>, direction: Direction): seq<Byte> {
    if history == [] then []
    else
      var last := history[|history| - 1];
      Texts(history[..|history| - 1], direction) + if last.direction == direction then last.text else []
  }

  function NumberFrom(n: nat, direction: Direction, texts: seq<seq<Byte>>): (lines: seq<Line>)
    ensures |lines| == |texts|
  {
    seq(|texts|, i requires 0 <= i < |texts| => Line(n + i, direction, texts[i]))
  }

  lemma TextsAppend(history: seq<Line>, line: Line, direction: Direction)
    ensures Texts(history + [line], direction) ==
            Texts(history, direction) + if line.direction == direction then line.text else []
  {
    assert (history + [line])[..|history|] == history;
  }

  class Channel {
    var lines: seq<Line>
    var nextSeq: nat
    var rxBuf: seq<Byte>
    var txBuf: seq<Byte>

    /** Everything ever logged, and every byte ever heard in each direction. */
    ghost var history: seq<Line>
    ghost var rxBytes: seq<Byte>
    ghost var txBytes: seq<Byte>

    /** The lines in memory are the last ones logged, numbered without a gap; logged text and buffer together
        are the bytes heard; no complete line waits in a buffer. */
    ghost predicate Valid()
      reads this
    {
      Accounted() && NEWLINE !in rxBuf && NEWLINE !in txBuf
    }

    /** The same while bytes are being taken in, when a buffer may hold complete lines. */
    ghost predicate Accounted()
      reads this
    {
      && Numbered(history) && nextSeq == |history|
      && lines == history[Oldest(|history|)..]
      && Texts(history, RX) + rxBuf == rxBytes
      && Texts(history, TX) + txBuf == txBytes
    }

    constructor ()
      ensures Valid() && history == [] && rxBytes == [] && txBytes == []
    {
      lines, nextSeq, rxBuf, txBuf := [], 0, [], [];
      history, rxBytes, txBytes := [], [], [];
    }

    /** `_append_line` on the line buffer alone. */
    method Push(direction: Direction, text: seq<Byte>)
      requires Numbered(history) && nextSeq == |history| && lines == history[Oldest(|history|)..]
      modifies `lines, `nextSeq, `history
      ensures history == old(history) + [Line(|old(history)|, direction, text)]
      ensures Numbered(history) && nextSeq == |history| && lines == history[Oldest(|history|)..]
    {
      var entry := Line(nextSeq, direction, text);
      nextSeq := nextSeq + 1;
      lines := lines + [entry];
      if |lines| > MAX_MEMORY_LINES {
        lines := lines[|lines| - MAX_MEMORY_LINES..];
      }
      history := history + [entry];
    }

    /** Any line that is not assembled from bytes. */
    method LogEvent(text: seq<Byte>)
      requires Valid()
      modifies `lines, `nextSeq, `history
      ensures Valid() && history == old(history) + [Line(|old(history)|, EVENT, text)]
    {
      TextsAppend(history, Line(nextSeq, EVENT, text), RX);
      TextsAppend(history, Line(nextSeq, EVENT, text), TX);
      hide Texts, Numbered;
      Push(EVENT, text);
    }

    /** The lines in memory with a number above `after`. */
    method Newer(after: int) returns (r: seq<Line>)
      requires Valid() && after >= 0
      ensures r == history[From(|history|, after)..]
    {
      hide Texts, From, Above;
      ghost var from, oldest := From(|history|, after), Oldest(|history|);
      r := [];
      AboveEnds(history, from, oldest);
      for i := 0 to |lines|
        invariant r == Above(history, from, oldest + i)
      {
        assert lines[i] == history[oldest + i] && lines[i].number == oldest + i;
        AboveStep(history, from, oldest + i);
        FromSplits(|history|, after, oldest + i);
        if lines[i].number > after {
          r := r + [lines[i]];
        }
      }
    }

    /** `logs`. */
    method Logs(after: int) returns (r: seq<Line>, last: int)
      requires Valid()
      ensures (r, last) == Poll(history, after)
    {
      hide Texts, Numbered;
      if after < 0 {
        r := lines[Oldest(|lines|)..];
      } else {
        r := Newer(after);
      }
      last := if lines != [] then nextSeq - 1 else after;
    }

    /** The line buffer of a direction. */
    function Buffer(direction: Direction): seq<Byte>
      reads this
    {
      if direction == RX then rxBuf else txBuf
    }

    method SetBuffer(direction: Direction, bytes: seq<Byte>)
      modifies `rxBuf, `txBuf
      ensures Buffer(direction) == bytes
      ensures if direction == RX then txBuf == old(txBuf) else rxBuf == old(rxBuf)
    {
      if direction == RX {
        rxBuf := bytes;
      } else {
        txBuf := bytes;
      }
    }

    /** Bytes come into the buffer of their direction. */
    method Extend(direction: Direction, data: seq<Byte>)
      requires Accounted() && direction != EVENT
      modifies `rxBuf, `txBuf, `rxBytes, `txBytes
      ensures Accounted() && Buffer(direction) == old(Buffer(direction)) + data
      ensures if direction == RX then txBuf == old(txBuf) else rxBuf == old(rxBuf)
      ensures rxBytes == old(rxBytes) + (if direction == RX then data else [])
      ensures txBytes == old(txBytes) + (if direction == TX then data else [])
    {
      hide Texts, Numbered;
      if direction == RX {
        rxBytes := rxBytes + data;
      } else {
        txBytes := txBytes + data;
      }
      SetBuffer(direction, Buffer(direction) + data);
    }

    /** The front of a buffer becomes a line. */
    method TakeLine(direction: Direction, line: seq<Byte>, rest: seq<Byte>)
      requires Accounted() && direction != EVENT && Buffer(direction) == line + rest
      modifies `lines, `nextSeq, `history, `rxBuf, `txBuf
      ensures Accounted() && Buffer(direction) == rest
      ensures if direction == RX then txBuf == old(txBuf) else rxBuf == old(rxBuf)
      ensures history == old(history) + [Line(|old(history)|, direction, line)]
    {
      hide Texts, Numbered;
      TextsAppend(history, Line(nextSeq, direction, line), RX);
      TextsAppend(history, Line(nextSeq, direction, line), TX);
      SetBuffer(direction, rest);
      Push(direction, line);
    }

    /** Every complete line of a buffer is logged. */
    method Drain(direction: Direction)
      requires Accounted() && direction != EVENT
      modifies `lines, `nextSeq, `history, `rxBuf, `txBuf
      ensures Accounted()
      ensures history == old(history) + NumberFrom(|old(history)|, direction, Lines(old(Buffer(direction))))
      ensures Buffer(direction) == Rest(old(Buffer(direction))) && NEWLINE !in Buffer(direction)
      ensures if direction == RX then txBuf == old(txBuf) else rxBuf == old(rxBuf)
    {
      hide Accounted, Rest, Lines, NumberFrom;
      ghost var whole := Buffer(direction);
      ghost var taken: seq<seq<Byte>> := [];
      NumberNone(|history|, direction);
      var i: nat := IndexOfNewline(Buffer(direction));
      while i < |Buffer(direction)|
        invariant Accounted() && i <= |Buffer(direction)| && NEWLINE !in Buffer(direction)[..i]
        invariant i < |Buffer(direction)| ==> Buffer(direction)[i] == NEWLINE
        invariant Lines(whole) == taken + Lines(Buffer(direction)) && Rest(whole) == Rest(Buffer(direction))
        invariant history == old(history) + NumberFrom(|old(history)|, direction, taken)
        invariant if direction == RX then txBuf == old(txBuf) else rxBuf == old(rxBuf)
        decreases |Buffer(direction)|
      {
        var line, back := Buffer(direction)[..i + 1], Buffer(direction)[i + 1..];
        LineInFront(Buffer(direction), i);
        NumberMore(|old(history)|, direction, taken, line);
        taken := taken + [line];
        TakeLine(direction, line, back);
        i := IndexOfNewline(Buffer(direction));
      }
      assert Buffer(direction)[..i] == Buffer(direction);
      PlainIsRest(Buffer(direction));
      assert taken + [] == taken;
    }

    /** `_ingest_char_stream`. */
    method Ingest(direction: Direction, data: seq<Byte>)
      requires Valid() && direction != EVENT
      modifies this
      ensures Valid()
      ensures history == old(history) + NumberFrom(|old(history)|, direction, Lines(old(Buffer(direction)) + data))
      ensures Buffer(direction) == Rest(old(Buffer(direction)) + data)
      ensures if direction == RX then txBuf == old(txBuf) else rxBuf == old(rxBuf)
      ensures rxBytes == old(rxBytes) + (if direction == RX then data else [])
      ensures txBytes == old(txBytes) + (if direction == TX then data else [])
    {
      hide Accounted, Rest, Lines, NumberFrom;
      Extend(direction, data);
      Drain(direction);
    }

    /** `_flush_char_buf`: what is left in a buffer becomes a line of its own. */
    method Flush(direction: Direction)
      requires Valid() && direction != EVENT
      modifies this
      ensures Valid() && Buffer(direction) == []
      ensures if direction == RX then txBuf == old(txBuf) else rxBuf == old(rxBuf)
      ensures rxBytes == old(rxBytes) && txBytes == old(txBytes)
      ensures history == old(history)
              + if old(Buffer(direction)) == [] then []
                else [Line(|old(history)|, direction, old(Buffer(direction)))]
    {
      hide Accounted;
      if Buffer(direction) != [] {
        assert Buffer(direction) == Buffer(direction) + [];
        TakeLine(direction, Buffer(direction), []);
      }
    }

    /** Chunk after chunk gives the lines of the whole stream. */
    method IngestAll(direction: Direction, chunks: seq<seq<Byte>>)
      requires Valid() && direction != EVENT
      modifies this
      ensures Valid()
      ensures history == old(history)
              + NumberFrom(|old(history)|, direction, Lines(old(Buffer(direction)) + Concat(chunks)))
      ensures Buffer(direction) == Rest(old(Buffer(direction)) + Concat(chunks))
    {
      hide Accounted, Rest, Lines, NumberFrom, Concat;
      ghost var start := Buffer(direction);
      PlainIsRest(start);
      NumberNone(|history|, direction);
      assert Concat(chunks[..0]) == [] by { ConcatNone(); }
      assert start + [] == start;
      for k := 0 to |chunks|
        invariant Valid() && Buffer(direction) == Rest(start + Concat(chunks[..k]))
        invariant history == old(history) + NumberFrom(|old(history)|, direction, Lines(start + Concat(chunks[..k])))
      {
        ChunkStep(start, chunks, k);
        NumberConcat(|old(history)|, direction, Lines(start + Concat(chunks[..k])),
                     Lines(Buffer(direction) + chunks[k]));
        Ingest(direction, chunks[k]);
      }
      assert chunks[..|chunks|] == chunks;
    }
  }

  lemma ConcatNone()
    ensures Concat([]) == []
  {
  }

  lemma ChunkStep(start: seq<Byte>, chunks: seq<seq<Byte>>, k: nat)
    requires k < |chunks|
    ensures var before := start + Concat(chunks[..k]);
            && Lines(start + Concat(chunks[..k + 1])) == Lines(before) + Lines(Rest(before) + chunks[k])
            && Rest(start + Concat(chunks[..k + 1])) == Rest(Rest(before) + chunks[k])
  {
    assert chunks[..k + 1][..k] == chunks[..k];
    assert start + Concat(chunks[..k + 1]) == start + Concat(chunks[..k]) + chunks[k];
    hide Lines, Rest, Concat;
    ChunksDoNotMatter(start + Concat(chunks[..k]), chunks[k]);
  }

  lemma CutAt(s: seq<Byte>, i: nat)
    requires i < |s| && s[i] == NEWLINE
    ensures s[..i + 1] == s[..i] + [NEWLINE]
    ensures s[..i] + [NEWLINE] + s[i + 1..] == s
  {
  }

  lemma LineInFront(s: seq<Byte>, i: nat)
    requires i < |s| && s[i] == NEWLINE && NEWLINE !in s[..i]
    ensures s[..i + 1] + s[i + 1..] == s
    ensures Lines(s) == [s[..i + 1]] + Lines(s[i + 1..]) && Rest(s) == Rest(s[i + 1..])
  {
    hide *;
    CutAt(s, i);
    FirstLine(s[..i], s[i + 1..]);
  }

  method IndexOfNewline(s: seq<Byte>) returns (i: nat)
    ensures i <= |s| && NEWLINE !in s[..i] && (i < |s| ==> s[i] == NEWLINE)
  {
    i := 0;
    while i < |s| && s[i] != NEWLINE
      invariant i <= |s| && NEWLINE !in s[..i]
    {
      i := i + 1;
    }
  }

  lemma NumberNone(n: nat, direction: Direction)
    ensures NumberFrom(n, direction, []) == []
  {
  }

  lemma NumberMore(n: nat, direction: Direction, texts: seq<seq<Byte>>, text: seq<Byte>)
    ensures NumberFrom(n, direction, texts + [text]) ==
            NumberFrom(n, direction, texts) + [Line(n + |texts|, direction, text)]
  {
  }

  lemma NumberConcat(n: nat, direction: Direction, a: seq<seq<Byte>>, b: seq<seq<Byte>>)
    ensures NumberFrom(n, direction, a + b) == NumberFrom(n, direction, a) + NumberFrom(n + |a|, direction, b)
  {
  }

  // ---------------------------------------------------------------------------
  // A polling client
  // ---------------------------------------------------------------------------

  /** The lines logged in batches, one before each poll. */
  function Logged(batches: seq<seq<Line>>): seq<Line> {
    if batches == [] then [] else Logged(batches[..|batches| - 1]) + batches[|batches| - 1]
  }

  /** A client that polls after each batch, starting with `after` and going on with the number it was given:
      what it has received, and the number it will poll with. */
  function Polled(batches: seq<seq<Line>>, after: int): (seq<Line>, int) {
    if batches == [] then ([], after)
    else
      var before := Polled(batches[..|batches| - 1], after);
      var answer := Poll(Logged(batches), before.1);
      (before.0 + answer.0, answer.1)
  }

  function Shortfall(batches: seq<seq<Line>>): nat {
    if batches == [] then 0
    else Shortfall(batches[..|batches| - 1]) + Oldest(|batches[|batches| - 1]|)
  }

  /** After each poll the client asks from the last line logged; it gets each batch but for what the memory
      has dropped of it. */
  lemma {:induction false} PollAnswers(batches: seq<seq<Line>>)
    ensures Polled(batches, -1).1 == |Logged(batches)| - 1
    ensures batches != [] ==>
              var last := batches[|batches| - 1];
              Poll(Logged(batches), Polled(batches[..|batches| - 1], -1).1).0 == last[Oldest(|last|)..]
  {
    if batches != [] {
      var init, last := batches[..|batches| - 1], batches[|batches| - 1];
      PollAnswers(init);
      var n, m := |Logged(init)|, |Logged(batches)|;
      assert m == n + |last|;
      assert From(m, n - 1) == n + Oldest(|last|);
      assert Logged(batches)[n + Oldest(|last|)..] == last[Oldest(|last|)..];
    }
  }

  lemma {:induction false} ShortBy(batches: seq<seq<Line>>)
    ensures |Polled(batches, -1).0| + Shortfall(batches) == |Logged(batches)|
  {
    if batches != [] {
      ShortBy(batches[..|batches| - 1]);
      PollAnswers(batches);
    }
  }

  ghost predicate AllFit(batches: seq<seq<Line>>) {
    forall k | 0 <= k < |batches| :: |batches[k]| <= MAX_MEMORY_LINES
  }

  lemma {:induction false} FittingArrive(batches: seq<seq<Line>>)
    ensures AllFit(batches) ==> Polled(batches, -1).0 == Logged(batches)
    ensures AllFit(batches) <==> Shortfall(batches) == 0
  {
    if batches != [] {
      var init, last := batches[..|batches| - 1], batches[|batches| - 1];
      FittingArrive(init);
      PollAnswers(batches);
      assert AllFit(batches) <==> AllFit(init) && |last| <= MAX_MEMORY_LINES;
    }
  }

  /** A client that polls from -1 on receives every line exactly once and in order exactly when no more lines
      come between two polls than the memory holds. */
  lemma PollingIsComplete(batches: seq<seq<Line>>)
    ensures Polled(batches, -1).0 == Logged(batches) <==> AllFit(batches)
  {
    FittingArrive(batches);
    ShortBy(batches);
  }

  /** Nothing comes twice or out of order even when lines are lost. */
  ghost predicate InOrder(received: seq<Line>) {
    forall i, j | 0 <= i < j < |received| :: received[i].number < received[j].number
  }

  lemma OrderAppend(received: seq<Line>, n: nat, more: seq<Line>, from: nat)
    requires InOrder(received) && forall i | 0 <= i < |received| :: received[i].number < n
    requires n <= from && forall i | 0 <= i < |more| :: more[i].number == from + i
    ensures InOrder(received + more)
    ensures forall i | 0 <= i < |received + more| :: (received + more)[i].number < from + |more|
  {
  }

  lemma BatchNumbers(history: seq<Line>, batch: seq<Line>)
    requires Numbered(history + batch)
    ensures Numbered(history)
    ensures var more := batch[Oldest(|batch|)..];
            forall i | 0 <= i < |more| :: more[i].number == |history| + Oldest(|batch|) + i
  {
    var longer := history + batch;
    assert forall i | 0 <= i < |history| :: longer[i] == history[i];
    assert forall i | 0 <= i < |batch| :: batch[i] == longer[|history| + i];
  }

  lemma {:induction false} PollingKeepsOrder(batches: seq<seq<Line>>)
    requires Numbered(Logged(batches))
    ensures InOrder(Polled(batches, -1).0)
    ensures forall i | 0 <= i < |Polled(batches, -1).0| :: Polled(batches, -1).0[i].number < |Logged(batches)|
  {
    if batches != [] {
      var init, last := batches[..|batches| - 1], batches[|batches| - 1];
      PollAnswers(batches);
      assert Polled(batches, -1).0 == Polled(init, -1).0 + last[Oldest(|last|)..];
      assert Logged(batches) == Logged(init) + last;
      hide Polled, Logged, Numbered, InOrder;
      BatchNumbers(Logged(init), last);
      PollingKeepsOrder(init);
      OrderAppend(Polled(init, -1).0, |Logged(init)|, last[Oldest(|last|)..], |Logged(init)| + Oldest(|last|));
    }
  }

  /** Polling with the default number 0 answers as polling with -1 does exactly when the first line is not in
      memory: line 0 is passed over. */
  lemma DefaultSkipsFirst(history: seq<Line>)
    ensures Poll(history, 0).0 == Poll(history, -1).0 <==> |history| == 0 || |history| > MAX_MEMORY_LINES
  {
    assert |Poll(history, 0).0| == |history| - From(|history|, 0);
    assert |Poll(history, -1).0| == |history| - From(|history|, -1);
  }
}
