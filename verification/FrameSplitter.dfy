/** The 7E stream splitter of the serial listener and its chunk-by-chunk use. */
module FrameSplitter {

  import opened Bits

  const ESC: Byte := 0x7D
  const FLAG: Byte := 0x7E

  type Bytes = seq<Byte>

  /** Complete frames, and the bytes of the frame still open ([] when none is). */
  datatype Scan = Scan(frames: seq<Bytes>, open: Bytes)

  // ---------------------------------------------------------------------------
  // Reference definition: tokens drive an open candidate
  // ---------------------------------------------------------------------------

  /** An escape byte followed by a flag or an escape byte is one token. */
  predicate IsPair(data: Bytes) {
    |data| >= 2 && data[0] == ESC && (data[1] == FLAG || data[1] == ESC)
  }

  function TokenLength(data: Bytes): (n: nat)
    requires data != []
    ensures 1 <= n <= |data|
  {
    if IsPair(data) then 2 else 1
  }

  /** What a lone flag does to the open candidate: open one, close it, or restart it when it is too short. */
  function OnFlag(open: Bytes): Scan {
    if open == [] then Scan([], [FLAG])
    else if |open| - 1 >= 2 then Scan([open + [FLAG]], [])
    else Scan([], [FLAG])
  }

  function OnToken(open: Bytes, token: Bytes): Scan {
    if token == [FLAG] then OnFlag(open)
    else Scan([], if open == [] then [] else open + token)
  }

  function Run(open: Bytes, data: Bytes): Scan
    decreases |data|
  {
    if data == [] then Scan([], open)
    else
      var n := TokenLength(data);
      var step := OnToken(open, data[..n]);
      var rest := Run(step.open, data[n..]);
      Scan(step.frames + rest.frames, rest.open)
  }

  /** The kept tail. When nothing is open, a final flag byte is kept unless a frame was found. */
  function Tail(data: Bytes): Bytes {
    var scan := Run([], data);
    if scan.open != [] then scan.open
    else if data != [] && data[|data| - 1] == FLAG && scan.frames == [] then [FLAG]
    else []
  }

  function Frames(data: Bytes): seq<Bytes> {
    Run([], data).frames
  }

  // ---------------------------------------------------------------------------
  // The loop
  // ---------------------------------------------------------------------------

  function Prepend(frames: seq<Bytes>, scan: Scan): Scan {
    Scan(frames + scan.frames, scan.open)
  }

  predicate IsPairAt(data: Bytes, i: nat)
    requires i < |data|
  {
    data[i] == ESC && i + 1 < |data| && (data[i + 1] == FLAG || data[i + 1] == ESC)
  }

  function WidthAt(data: Bytes, i: nat): (n: nat)
    requires i < |data|
    ensures 1 <= n <= 2 && i + n <= |data|
  {
    if IsPairAt(data, i) then 2 else 1
  }

  function TokenAt(data: Bytes, i: nat): Bytes
    requires i < |data|
  {
    data[i..i + WidthAt(data, i)]
  }

  /** The candidate frame that starts at `start`, or [] for -1. */
  function Open(data: Bytes, start: int, i: nat): Bytes
    requires -1 <= start <= i <= |data|
  {
    if start == -1 then [] else data[start..i]
  }

  /** Where the open candidate starts after the token at `i`. */
  function NextStart(data: Bytes, i: nat, start: int): (next: int)
    requires i < |data| && -1 <= start < i as int
    ensures -1 <= next <= i
  {
    if data[i] != FLAG then start
    else if start != -1 && i - start - 1 >= 2 then -1
    else i
  }

  /** The frame the token at `i` closes, if any. */
  function ClosedAt(data: Bytes, i: nat, start: int): seq<Bytes>
    requires i < |data| && -1 <= start < i as int
  {
    if data[i] == FLAG && start != -1 && i - start - 1 >= 2 then [data[start..i + 1]] else []
  }

  lemma TokenEffect(data: Bytes, i: nat, start: int)
    requires i < |data| && -1 <= start < i as int
    ensures OnToken(Open(data, start, i), TokenAt(data, i)) ==
            Scan(ClosedAt(data, i, start), Open(data, NextStart(data, i, start), i + WidthAt(data, i)))
  {
    assert data[i..i + 1] == [data[i]];
    if start != -1 {
      var n := WidthAt(data, i);
      assert data[start..i] + data[i..i + n] == data[start..i + n];
    }
  }

  lemma RunToken(open: Bytes, data: Bytes, i: nat)
    requires i < |data|
    ensures var step := OnToken(open, TokenAt(data, i));
            Run(open, data[i..]) == Prepend(step.frames, Run(step.open, data[i + WidthAt(data, i)..]))
  {
    var rest, n := data[i..], WidthAt(data, i);
    assert TokenLength(rest) == n;
    assert rest[..n] == TokenAt(data, i) && rest[n..] == data[i + n..];
  }

  /** The scan that continues at `i` with the candidate that starts at `start`. */
  ghost function RunFrom(data: Bytes, i: nat, start: int): Scan
    requires -1 <= start <= i <= |data|
  {
    Run(Open(data, start, i), data[i..])
  }

  lemma RunFromStep(data: Bytes, i: nat, start: int)
    requires i < |data| && -1 <= start < i as int
    ensures RunFrom(data, i, start) ==
            Prepend(ClosedAt(data, i, start), RunFrom(data, i + WidthAt(data, i), NextStart(data, i, start)))
  {
    RunToken(Open(data, start, i), data, i);
    TokenEffect(data, i, start);
  }

  lemma PrependNothing(scan: Scan)
    ensures Prepend([], scan) == scan
  {
  }

  lemma PrependTwice(first: seq<Bytes>, second: seq<Bytes>, scan: Scan)
    ensures Prepend(first, Prepend(second, scan)) == Prepend(first + second, scan)
  {
    assert first + (second + scan.frames) == first + second + scan.frames;
  }

  /** What is found so far, followed by what is still to come, stays the whole. */
  lemma ScanStep(data: Bytes, i: nat, start: int, frames: seq<Bytes>)
    requires i < |data| && -1 <= start < i as int
    requires Run([], data) == Prepend(frames, RunFrom(data, i, start))
    ensures Run([], data) == Prepend(frames + ClosedAt(data, i, start),
                                     RunFrom(data, i + WidthAt(data, i), NextStart(data, i, start)))
    ensures ClosedAt(data, i, start) == [] ==> frames + ClosedAt(data, i, start) == frames
  {
    hide Run, RunFrom, Prepend, ClosedAt, NextStart, WidthAt;
    RunFromStep(data, i, start);
    PrependTwice(frames, ClosedAt(data, i, start), RunFrom(data, i + WidthAt(data, i), NextStart(data, i, start)));
  }

  /** `split_7e_frames`: an index scan. */
  method Split7eFrames(data: Bytes) returns (frames: seq<Bytes>, tail: Bytes)
    ensures frames == Frames(data) && tail == Tail(data)
  {
    frames := [];
    var start := -1;
    var i := 0;
    var n := |data|;
    ScanStart(data);
    hide Run, RunFrom, Prepend, Frames, Tail;
    while i < n
      invariant 0 <= i <= n && -1 <= start < i
      invariant Run([], data) == Prepend(frames, RunFrom(data, i, start))
    {
      ScanStep(data, i, start, frames);
      var b := data[i];
      if b == ESC && i + 1 < n && (data[i + 1] == FLAG || data[i + 1] == ESC) {
        i := i + 2;
        continue;
      }
      if b == FLAG {
        if start == -1 {
          start := i;
        } else {
          var payloadLen := i - start - 1;
          if payloadLen >= 2 {
            frames := frames + [data[start..i + 1]];
            start := -1;
          } else {
            start := i;
          }
        }
      }
      i := i + 1;
    }
    ScanEnd(data, start, frames);
    if start != -1 {
      tail := data[start..];
    } else {
      tail := if n > 0 && data[n - 1] == FLAG && frames == [] then [FLAG] else [];
    }
  }

  lemma ScanStart(data: Bytes)
    ensures Run([], data) == Prepend([], RunFrom(data, 0, -1))
  {
    assert data[0..] == data;
    PrependNothing(Run([], data));
  }

  lemma ScanEnd(data: Bytes, start: int, frames: seq<Bytes>)
    requires -1 <= start < |data| && Run([], data) == Prepend(frames, RunFrom(data, |data|, start))
    ensures frames == Frames(data)
    ensures Tail(data) == if start != -1 then data[start..]
                          else if data != [] && data[|data| - 1] == FLAG && frames == [] then [FLAG] else []
  {
    hide Run, RunFrom, Prepend;
    RunFromEnd(data, start);
    PrependEnd(frames, Open(data, start, |data|));
  }

  lemma RunFromEnd(data: Bytes, start: int)
    requires -1 <= start < |data|
    ensures RunFrom(data, |data|, start) == Scan([], Open(data, start, |data|))
  {
    assert data[|data|..] == [];
  }

  lemma PrependEnd(frames: seq<Bytes>, open: Bytes)
    ensures Prepend(frames, Scan([], open)) == Scan(frames, open)
  {
    assert frames + [] == frames;
  }

  /** `SerialCaptureService._on_chunk` and the buffer it keeps between chunks. */
  class SerialCapture {
    var buffer: Bytes
    var ingested: seq<Bytes>

    constructor ()
      ensures buffer == [] && ingested == []
    {
      buffer, ingested := [], [];
    }

    method OnChunk(chunk: Bytes)
      modifies this
      ensures ingested == old(ingested) + Frames(old(buffer) + chunk)
      ensures buffer == Tail(old(buffer) + chunk)
    {
      buffer := buffer + chunk;
      var frames, tail := Split7eFrames(buffer);
      buffer := tail;
      ingested := ingested + frames;
    }

    /** The read loop: one call per chunk that arrives. */
    method OnChunks(chunks: seq<Bytes>)
      modifies this
      ensures ingested == old(ingested) + Feed(old(buffer), chunks).0
      ensures buffer == Feed(old(buffer), chunks).1
    {
      ghost var before, found := ingested, [];
      FeedStart(buffer, chunks);
      for i := 0 to |chunks|
        invariant ingested == before + found
        invariant FeedsOn(old(buffer), chunks, found, buffer, i)
      {
        hide FeedsOn, Feed, Frames, Tail;
        FeedStep(old(buffer), chunks, found, buffer, i);
        found := found + Frames(buffer + chunks[i]);
        OnChunk(chunks[i]);
      }
    }
  }

  /** After `i` chunks: what was found, followed by what the rest yields, is the whole. */
  ghost predicate FeedsOn(start: Bytes, chunks: seq<Bytes>, found: seq<Bytes>, buffer: Bytes, i: nat)
    requires i <= |chunks|
  {
    var (frames, rest) := Feed(buffer, chunks[i..]);
    Feed(start, chunks) == (found + frames, rest)
  }

  lemma FeedStart(buffer: Bytes, chunks: seq<Bytes>)
    ensures FeedsOn(buffer, chunks, [], buffer, 0)
  {
    assert chunks[0..] == chunks;
    assert [] + Feed(buffer, chunks).0 == Feed(buffer, chunks).0;
  }

  lemma FeedStep(start: Bytes, chunks: seq<Bytes>, found: seq<Bytes>, buffer: Bytes, i: nat)
    requires i < |chunks| && FeedsOn(start, chunks, found, buffer, i)
    ensures FeedsOn(start, chunks, found + Frames(buffer + chunks[i]), Tail(buffer + chunks[i]), i + 1)
  {
    var data := buffer + chunks[i];
    assert chunks[i..][1..] == chunks[i + 1..];
    var frames := Feed(Tail(data), chunks[i + 1..]).0;
    assert found + (Frames(data) + frames) == found + Frames(data) + frames;
  }

  /** The frames a sequence of chunks yields, and the buffer left. */
  function Feed(buffer: Bytes, chunks: seq<Bytes>): (seq<Bytes>, Bytes)
    decreases |chunks|
  {
    if chunks == [] then ([], buffer)
    else
      var data := buffer + chunks[0];
      var (frames, rest) := Feed(Tail(data), chunks[1..]);
      (Frames(data) + frames, rest)
  }

  // ---------------------------------------------------------------------------
  // Scanning a concatenation
  // ---------------------------------------------------------------------------

  /** The last token is a lone escape byte. */
  predicate Dangles(data: Bytes)
    decreases |data|
  {
    data != [] && if data[TokenLength(data)..] == [] then data == [ESC] else Dangles(data[TokenLength(data)..])
  }

  /** A cut between `a` and `b` falls inside an escape pair. */
  predicate Joins(a: Bytes, b: Bytes) {
    Dangles(a) && b != [] && (b[0] == FLAG || b[0] == ESC)
  }

  lemma TokenOfConcat(a: Bytes, b: Bytes)
    requires a != [] && !Joins(a, b)
    ensures var n := TokenLength(a);
            && TokenLength(a + b) == n && (a + b)[..n] == a[..n] && (a + b)[n..] == a[n..] + b
            && !Joins(a[n..], b)
  {
    var n := TokenLength(a);
    if |a| == 1 && b != [] {
      assert (a + b)[1] == b[0];
    }
    assert |a| >= 2 ==> IsPair(a + b) == IsPair(a);
    assert a[n..] == [] ==> !Dangles(a[n..]);
  }

  lemma {:induction false} RunConcat(open: Bytes, a: Bytes, b: Bytes)
    requires !Joins(a, b)
    ensures Run(open, a + b) == Prepend(Run(open, a).frames, Run(Run(open, a).open, b))
    decreases |a|
  {
    if a == [] {
      assert a + b == b;
    } else {
      var n := TokenLength(a);
      TokenOfConcat(a, b);
      var step := OnToken(open, a[..n]);
      RunConcat(step.open, a[n..], b);
      var first, second := Run(step.open, a[n..]), Run(Run(step.open, a[n..]).open, b);
      assert step.frames + (first.frames + second.frames) == step.frames + first.frames + second.frames;
    }
  }

  lemma {:induction false} DanglesConcat(a: Bytes, b: Bytes)
    requires !Joins(a, b) && b != []
    ensures Dangles(a + b) == Dangles(b)
    decreases |a|
  {
    if a == [] {
      assert a + b == b;
    } else {
      TokenOfConcat(a, b);
      DanglesConcat(a[TokenLength(a)..], b);
    }
  }

  /** A candidate that a fresh scan keeps open, unchanged. */
  predicate Settled(open: Bytes) {
    open != [] && Run([], open) == Scan([], open)
  }

  lemma RunOneToken(open: Bytes, token: Bytes)
    requires token != [] && TokenLength(token) == |token|
    ensures Run(open, token) == OnToken(open, token)
    ensures Dangles(token) == (token == [ESC])
  {
    assert token[..|token|] == token && token[|token|..] == [];
    assert Run(OnToken(open, token).open, []) == Scan([], OnToken(open, token).open);
  }

  lemma ExtendSettled(open: Bytes, token: Bytes)
    requires Settled(open) && token != [] && TokenLength(token) == |token| && token != [FLAG]
    requires !Joins(open, token)
    ensures Settled(open + token) && Dangles(open + token) == (token == [ESC])
  {
    RunConcat([], open, token);
    RunOneToken(open, token);
    DanglesConcat(open, token);
  }

  /** What a scan leaves open a fresh scan of it leaves open again. */
  lemma {:induction false} RunSettles(open: Bytes, data: Bytes)
    requires open == [] || (Settled(open) && !Joins(open, data))
    ensures var r := Run(open, data).open;
            && (r == [] || Settled(r))
            && (r != [] && data != [] ==> Dangles(r) == Dangles(data))
    decreases |data|
  {
    if data != [] {
      var n := TokenLength(data);
      var token, rest := data[..n], data[n..];
      var s := OnToken(open, token).open;
      RunOneToken(open, token);
      if s != [] && s != [FLAG] {
        ExtendSettled(open, token);
      } else if s == [FLAG] {
        RunOneToken([], [FLAG]);
      }
      if rest != [] {
        assert data[0] == token[0] && (n == 1 ==> data[1] == rest[0]);
        RunSettles(s, rest);
      }
    }
  }

  // ---------------------------------------------------------------------------
  // Cutting a stream
  // ---------------------------------------------------------------------------

  lemma DropDangling(data: Bytes)
    requires Dangles(data)
    ensures var init := data[..|data| - 1]; data == init + [ESC] && !Dangles(init)
    decreases |data|
  {
    var n := TokenLength(data);
    if data[n..] == [] {
      assert data[..0] == [];
    } else {
      var token, rest := data[..n], data[n..];
      DropDangling(rest);
      var init := rest[..|rest| - 1];
      PrependToken(data, token, init);
    }
  }

  lemma PrependToken(data: Bytes, token: Bytes, init: Bytes)
    requires data == token + init + [ESC] && token != [] && TokenLength(data) == |token| && !Dangles(init)
    ensures data[..|data| - 1] == token + init && !Dangles(token + init)
  {
    RunOneToken([], token);
    if init == [] {
      assert token + init == token;
      assert data[1..] == [ESC] || |token| == 2;
    } else {
      assert |token| == 1 ==> data[1] == init[0];
      DanglesConcat(token, init);
    }
  }

  /** A candidate disappears only by closing. */
  lemma {:induction false} OpenPersists(open: Bytes, data: Bytes)
    requires open != []
    ensures Run(open, data).open != [] || Run(open, data).frames != []
    decreases |data|
  {
    if data != [] {
      var step := OnToken(open, data[..TokenLength(data)]);
      if step.frames == [] {
        OpenPersists(step.open, data[TokenLength(data)..]);
      }
    }
  }

  /** The listener keeps, of `a`, all that a continuation needs. */
  lemma ResumeInFrame(a: Bytes, b: Bytes)
    requires Run([], a).open != []
    ensures var scan := Run([], a); var resumed := Run([], scan.open + b);
            && Run([], a + b) == Prepend(scan.frames, resumed)
            && (resumed.open != [] || resumed.frames != [])
  {
    if Joins(a, b) {
      ResumeInEscape(a, b);
    } else {
      ResumeAtToken(a, b);
    }
  }

  lemma ResumeAtToken(a: Bytes, b: Bytes)
    requires Run([], a).open != [] && !Joins(a, b)
    ensures var scan := Run([], a); var resumed := Run([], scan.open + b);
            && Run([], a + b) == Prepend(scan.frames, resumed)
            && (resumed.open != [] || resumed.frames != [])
  {
    var scan := Run([], a);
    RunSettles([], a);
    RunConcat([], a, b);
    assert !Joins(scan.open, b) by { assert a != []; }
    RunConcat([], scan.open, b);
    OpenPersists(scan.open, b);
    PrependNothing(Run(scan.open, b));
  }

  /** The case in which the cut falls inside an escape pair. */
  lemma ResumeInEscape(a: Bytes, b: Bytes)
    requires Run([], a).open != [] && Dangles(a)
    ensures var scan := Run([], a); var resumed := Run([], scan.open + b);
            && Run([], a + b) == Prepend(scan.frames, resumed)
            && (resumed.open != [] || resumed.frames != [])
  {
    DropDangling(a);
    var init := a[..|a| - 1];
    BeforeEscape(init);
    RunSettles([], init);
    var scan, before, rest := Run([], a), Run([], init), [ESC] + b;
    assert a + b == init + rest && scan.open + b == before.open + rest;
    assert init != [];
    assert !Joins(init, rest) && !Joins(before.open, rest);
    assert scan.frames == before.frames;
    RunConcat([], init, rest);
    RunConcat([], before.open, rest);
    assert Run([], before.open) == Scan([], before.open);
    hide *;
    OpenPersists(before.open, rest);
    PrependNothing(Run(before.open, rest));
  }

  lemma BeforeEscape(init: Bytes)
    requires !Dangles(init)
    ensures var before := Run([], init);
            Run([], init + [ESC]) == Scan(before.frames, if before.open == [] then [] else before.open + [ESC])
  {
    RunConcat([], init, [ESC]);
    RunOneToken(Run([], init).open, [ESC]);
  }

  /** Nothing is open after `a`, and its last byte would be read differently on its own. */
  predicate LosesState(a: Bytes) {
    var scan := Run([], a);
    scan.open == [] && (Dangles(a) || (a != [] && a[|a| - 1] == FLAG && scan.frames == []))
  }

  lemma ResumeOutside(a: Bytes, b: Bytes)
    requires Run([], a).open == [] && !Joins(a, b)
    ensures Run([], a + b) == Prepend(Run([], a).frames, Run([], b))
  {
    RunConcat([], a, b);
  }

  /** One cut of a stream that started with nothing kept: it is harmless for every continuation exactly when
      the part `a` before it does not end, outside a frame, in a lone escape byte or (no frame yet found) in
      an escaped flag. */
  lemma CutIsSafe(a: Bytes)
    ensures (forall b: Bytes :: Frames(a + b) == Frames(a) + Frames(Tail(a) + b)) <==> !LosesState(a)
  {
    if !LosesState(a) {
      forall b: Bytes ensures Frames(a + b) == Frames(a) + Frames(Tail(a) + b) {
        if Run([], a).open != [] {
          ResumeInFrame(a, b);
        } else {
          ResumeOutside(a, b);
          assert [] + b == b;
        }
      }
    } else {
      UnsafeCut(a);
    }
  }

  /** After a state-losing cut some continuation yields a frame in pieces that it does not yield at once. */
  lemma UnsafeCut(a: Bytes)
    requires LosesState(a)
    ensures var b := if Dangles(a) then [FLAG, 0, 0, FLAG] else [0, 0, FLAG];
            Frames(a + b) != Frames(a) + Frames(Tail(a) + b)
  {
    if Dangles(a) {
      UnsafeEscape(a);
    } else {
      UnsafeFlag(a);
    }
  }

  lemma UnsafeFlag(a: Bytes)
    requires Run([], a).open == [] && !Dangles(a) && Tail(a) == [FLAG]
    ensures Frames(a + [0, 0, FLAG]) != Frames(a) + Frames(Tail(a) + [0, 0, FLAG])
  {
    var b: Bytes := [0, 0, FLAG];
    ResumeOutside(a, b);
    assert Tail(a) + b == [FLAG, 0, 0, FLAG];
    hide *;
    OneFrame();
    FramesOf(a);
    FramesOf(a + b);
    FramesOf([FLAG, 0, 0, FLAG]);
    FramesOfPrepend(Run([], a).frames, Run([], b));
  }

  lemma UnsafeEscape(a: Bytes)
    requires Run([], a).open == [] && Dangles(a)
    ensures Frames(a + [FLAG, 0, 0, FLAG]) != Frames(a) + Frames(Tail(a) + [FLAG, 0, 0, FLAG])
  {
    var b: Bytes := [FLAG, 0, 0, FLAG];
    DropDangling(a);
    var init := a[..|a| - 1];
    BeforeEscape(init);
    assert a + b == init + ([ESC] + b);
    assert a[|a| - 1] == ESC && Tail(a) == [] && [] + b == b;
    assert Run([], init).open == [] && Run([], a).frames == Run([], init).frames;
    hide *;
    RunConcat([], init, [ESC] + b);
    OneFrame();
    FramesOf(a);
    FramesOf(b);
    FramesOf(a + b);
    FramesOfPrepend(Run([], init).frames, Run([], [ESC] + b));
  }

  lemma FramesOf(data: Bytes)
    ensures Frames(data) == Run([], data).frames
  {
  }

  lemma FramesOfPrepend(frames: seq<Bytes>, scan: Scan)
    ensures Prepend(frames, scan).frames == frames + scan.frames
  {
  }

  lemma OneFrame()
    ensures Run([], [FLAG, 0, 0, FLAG]) == Scan([[FLAG, 0, 0, FLAG]], [])
    ensures Run([], [0, 0, FLAG]) == Scan([], [FLAG])
    ensures Run([], [ESC] + [FLAG, 0, 0, FLAG]) == Scan([], [FLAG])
  {
    hide *;
    FrameAfter([]);
    FrameAfter([FLAG]);
    var rest: Bytes := [0, 0, FLAG];
    OpeningFlag(rest);
    EscapedFlag(rest);
    assert [FLAG] + rest == [FLAG, 0, 0, FLAG];
    assert [ESC, FLAG] + rest == [ESC] + [FLAG, 0, 0, FLAG];
  }

  lemma FrameAfter(open: Bytes)
    requires open == [] || open == [FLAG]
    ensures Run(open, [0, 0, FLAG]) == if open == [] then Scan([], [FLAG]) else Scan([[FLAG, 0, 0, FLAG]], [])
  {
    var one: Bytes := if open == [] then [] else [FLAG, 0];
    var two: Bytes := if open == [] then [] else [FLAG, 0, 0];
    var three: Bytes := [FLAG, 0, 0, FLAG];
    assert open != [] ==> open + [0] == one && one + [0] == two && two + [FLAG] == three;
    assert [0] + [0, FLAG] == [0, 0, FLAG] && [0] + [FLAG] == [0, FLAG];
    hide *;
    ZeroStep(open, [0, FLAG]);
    ZeroStep(one, [FLAG]);
    LoneFlag(two);
  }

  lemma EscapedFlag(rest: Bytes)
    ensures Run([], [ESC, FLAG] + rest) == Run([], rest)
  {
    var d: Bytes := [ESC, FLAG] + rest;
    assert d[..2] == [ESC, FLAG] && d[2..] == rest;
    PrependNothing(Run([], rest));
  }

  lemma LoneFlag(open: Bytes)
    ensures Run(open, [FLAG]) == if |open| >= 3 then Scan([open + [FLAG]], []) else Scan([], [FLAG])
  {
    RunOneToken(open, [FLAG]);
  }

  lemma OpeningFlag(rest: Bytes)
    ensures Run([], [FLAG] + rest) == Run([FLAG], rest)
  {
    RunStep([], FLAG, rest);
  }

  lemma ZeroStep(open: Bytes, rest: Bytes)
    ensures Run(open, [0] + rest) == Run(if open == [] then [] else open + [0], rest)
  {
    RunStep(open, 0, rest);
  }

  lemma RunStep(open: Bytes, b: Byte, rest: Bytes)
    requires !IsPair([b] + rest)
    ensures Run(open, [b] + rest) == Prepend(OnToken(open, [b]).frames, Run(OnToken(open, [b]).open, rest))
  {
    assert ([b] + rest)[..1] == [b] && ([b] + rest)[1..] == rest;
  }

  // ---------------------------------------------------------------------------
  // Whole streams in any chunks
  // ---------------------------------------------------------------------------

  /** No escape pair is met while no frame is open. */
  predicate NoStrayPair(open: Bytes, data: Bytes)
    decreases |data|
  {
    data != [] ==>
      && (open == [] ==> !IsPair(data))
      && NoStrayPair(OnToken(open, data[..TokenLength(data)]).open, data[TokenLength(data)..])
  }

  lemma {:induction false} StrayConcat(open: Bytes, a: Bytes, b: Bytes)
    requires !Joins(a, b)
    ensures NoStrayPair(open, a + b) == (NoStrayPair(open, a) && NoStrayPair(Run(open, a).open, b))
    decreases |a|
  {
    if a == [] {
      assert a + b == b;
    } else {
      TokenOfConcat(a, b);
      var n := TokenLength(a);
      StrayConcat(OnToken(open, a[..n]).open, a[n..], b);
      assert IsPair(a + b) == IsPair(a);
    }
  }

  lemma StrayPrefix(a: Bytes, b: Bytes)
    requires NoStrayPair([], a + b)
    ensures NoStrayPair([], a)
    ensures Joins(a, b) ==> Run([], a).open != []
  {
    if !Joins(a, b) {
      StrayConcat([], a, b);
    } else {
      DropDangling(a);
      var init := a[..|a| - 1];
      var open := Run([], init).open;
      assert a + b == init + ([ESC] + b);
      StrayConcat([], init, [ESC] + b);
      StrayConcat([], init, [ESC]);
      assert IsPair([ESC] + b);
      RunConcat([], init, [ESC]);
      RunOneToken(open, [ESC]);
    }
  }

  /** Without stray pairs a final flag byte outside a frame closed one. */
  lemma {:induction false} FlagClosed(open: Bytes, data: Bytes)
    requires NoStrayPair(open, data) && data != [] && data[|data| - 1] == FLAG
    ensures Run(open, data).open != [] || Run(open, data).frames != []
    decreases |data|
  {
    var n := TokenLength(data);
    if data[n..] != [] {
      FlagClosed(OnToken(open, data[..n]).open, data[n..]);
    } else {
      RunOneToken(open, data);
    }
  }

  lemma NextChunk(a: Bytes, x: Bytes)
    requires NoStrayPair([], a + x)
    ensures Frames(a + x) == Frames(a) + Frames(Tail(a) + x)
    ensures Tail(a + x) == Tail(Tail(a) + x)
  {
    StrayPrefix(a, x);
    KeptIsOpen(a);
    KeptIsOpen(a + x);
    var scan := Run([], a);
    if scan.open != [] {
      ResumeInFrame(a, x);
    } else {
      assert [] + x == x;
      ResumeOutside(a, x);
      StrayConcat([], a, x);
      KeptIsOpen(x);
    }
  }

  lemma KeptIsOpen(data: Bytes)
    requires NoStrayPair([], data)
    ensures Tail(data) == Run([], data).open
  {
    if data != [] && data[|data| - 1] == FLAG {
      FlagClosed([], data);
    }
  }

  function Concat(chunks: seq<Bytes>): Bytes
    decreases |chunks|
  {
    if chunks == [] then [] else chunks[0] + Concat(chunks[1..])
  }

  lemma {:induction false} FeedAfter(a: Bytes, chunks: seq<Bytes>)
    requires NoStrayPair([], a + Concat(chunks))
    ensures var (frames, rest) := Feed(Tail(a), chunks);
            && Frames(a + Concat(chunks)) == Frames(a) + frames
            && Tail(a + Concat(chunks)) == rest
    decreases |chunks|
  {
    if chunks == [] {
      assert a + Concat(chunks) == a;
    } else {
      var x, rest := chunks[0], chunks[1..];
      assert a + Concat(chunks) == (a + x) + Concat(rest);
      StrayPrefix(a + x, Concat(rest));
      NextChunk(a, x);
      FeedAfter(a + x, rest);
      var later := Feed(Tail(a + x), rest).0;
      assert Frames(a) + Frames(Tail(a) + x) + later == Frames(a) + (Frames(Tail(a) + x) + later);
    }
  }

  /** Chunking does not matter: a stream that meets no escape pair outside a frame gives the same
      frames, in the same order, and the same buffer in any pieces as in one. */
  lemma ChunkIndependence(chunks: seq<Bytes>)
    requires NoStrayPair([], Concat(chunks))
    ensures Feed([], chunks) == (Frames(Concat(chunks)), Tail(Concat(chunks)))
  {
    var none: Bytes := [];
    assert none + Concat(chunks) == Concat(chunks);
    assert Frames(none) == [] && Tail(none) == [];
    hide *;
    FeedAfter(none, chunks);
    assert [] + Feed(none, chunks).0 == Feed(none, chunks).0;
  }

  // ---------------------------------------------------------------------------
  // What is sent comes out
  // ---------------------------------------------------------------------------

  /** The bytes that stand for one byte between the flags. */
  function Escaped(b: Byte): (token: Bytes)
    ensures token != []
  {
    if b == FLAG || b == ESC then [ESC, b] else [b]
  }

  function Escape(payload: Bytes): Bytes {
    if payload == [] then [] else Escaped(payload[0]) + Escape(payload[1..])
  }

  /** A payload between its flags. */
  function Framed(payload: Bytes): Bytes {
    [FLAG] + Escape(payload) + [FLAG]
  }

  function AllFramed(payloads: seq<Bytes>): (frames: seq<Bytes>)
    ensures |frames| == |payloads| && forall i | 0 <= i < |payloads| :: frames[i] == Framed(payloads[i])
  {
    seq(|payloads|, i requires 0 <= i < |payloads| => Framed(payloads[i]))
  }

  /** A scan of `data` from `open` that meets no stray pair and does not end inside a pair. */
  ghost predicate Scans(open: Bytes, data: Bytes, scan: Scan) {
    Run(open, data) == scan && !Dangles(data) && NoStrayPair(open, data)
  }

  lemma ScansConcat(open: Bytes, a: Bytes, b: Bytes, first: Scan, second: Scan)
    requires Scans(open, a, first) && Scans(first.open, b, second)
    ensures Scans(open, a + b, Scan(first.frames + second.frames, second.open))
  {
    RunConcat(open, a, b);
    StrayConcat(open, a, b);
    if b != [] {
      DanglesConcat(a, b);
    } else {
      assert a + b == a;
    }
  }

  lemma ScansNothing(open: Bytes)
    ensures Scans(open, [], Scan([], open))
  {
  }

  lemma ScansEscaped(open: Bytes, b: Byte)
    requires open != []
    ensures Scans(open, Escaped(b), Scan([], open + Escaped(b)))
  {
    var token := Escaped(b);
    assert TokenLength(token) == |token|;
    RunOneToken(open, token);
    assert token[..|token|] == token && token[|token|..] == [];
  }

  lemma ScansFlag(open: Bytes)
    ensures Scans(open, [FLAG], OnFlag(open))
  {
    RunOneToken(open, [FLAG]);
    assert [FLAG][1..] == [];
  }

  lemma EscapeNext(payload: Bytes)
    requires payload != []
    ensures Escape(payload) == Escaped(payload[0]) + Escape(payload[1..])
  {
  }

  lemma EscapeNothing(open: Bytes)
    ensures Escape([]) == [] && open + [] == open
  {
  }

  lemma {:induction false} ScansEscape(open: Bytes, payload: Bytes)
    requires open != []
    ensures Scans(open, Escape(payload), Scan([], open + Escape(payload)))
    decreases |payload|
  {
    hide *;
    if payload == [] {
      EscapeNothing(open);
      ScansNothing(open);
    } else {
      var token, rest := Escaped(payload[0]), Escape(payload[1..]);
      EscapeNext(payload);
      ScansEscaped(open, payload[0]);
      ScansEscape(open + token, payload[1..]);
      ScansConcat(open, token, rest, Scan([], open + token), Scan([], (open + token) + rest));
      assert (open + token) + rest == open + (token + rest);
      var none: seq<Bytes> := [];
      assert none + none == none;
    }
  }

  lemma ScansFramed(payload: Bytes)
    requires |Escape(payload)| >= 2
    ensures Scans([], Framed(payload), Scan([Framed(payload)], []))
  {
    hide Scans, Escape;
    var body := Escape(payload);
    ScansFlag([]);
    ScansEscape([FLAG], payload);
    ScansConcat([], [FLAG], body, Scan([], [FLAG]), Scan([], [FLAG] + body));
    ScansFlag([FLAG] + body);
    var whole: seq<Bytes> := [] + [[FLAG] + body + [FLAG]];
    assert whole == [Framed(payload)];
    ScansConcat([], [FLAG] + body, [FLAG], Scan([], [FLAG] + body), OnFlag([FLAG] + body));
  }

  lemma {:induction false} ScansAllFramed(payloads: seq<Bytes>)
    requires forall i | 0 <= i < |payloads| :: |Escape(payloads[i])| >= 2
    ensures Scans([], Concat(AllFramed(payloads)), Scan(AllFramed(payloads), []))
  {
    hide Scans, Escape, Framed;
    if payloads == [] {
      ScansNothing([]);
    } else {
      var rest := AllFramed(payloads[1..]);
      assert AllFramed(payloads) == [Framed(payloads[0])] + rest;
      ScansFramed(payloads[0]);
      ScansAllFramed(payloads[1..]);
      ScansConcat([], Framed(payloads[0]), Concat(rest), Scan([Framed(payloads[0])], []), Scan(rest, []));
    }
  }

  lemma ScansMean(data: Bytes, frames: seq<Bytes>)
    requires Scans([], data, Scan(frames, []))
    ensures NoStrayPair([], data) && Frames(data) == frames && Tail(data) == []
  {
    KeptIsOpen(data);
  }

  /** Payloads sent between flags, with flags and escape bytes inside them escaped, come out as they were sent, one
      frame each and in order, in whatever chunks they arrive, and nothing is kept. */
  lemma SentComesOut(payloads: seq<Bytes>, chunks: seq<Bytes>)
    requires (forall i | 0 <= i < |payloads| :: |Escape(payloads[i])| >= 2)
    requires Concat(chunks) == Concat(AllFramed(payloads))
    ensures Feed([], chunks) == (AllFramed(payloads), [])
  {
    ScansAllFramed(payloads);
    hide *;
    ScansMean(Concat(chunks), AllFramed(payloads));
    ChunkIndependence(chunks);
  }

  // ---------------------------------------------------------------------------
  // Which chunks are harmless
  // ---------------------------------------------------------------------------

  /** What the splitter is handed, chunk after chunk, never loses state. */
  predicate NothingLost(buffer: Bytes, chunks: seq<Bytes>)
    decreases |chunks|
  {
    chunks != [] ==> !LosesState(buffer + chunks[0]) && NothingLost(Tail(buffer + chunks[0]), chunks[1..])
  }

  /** The frames of the chunks so far, and then those of the buffer and `more`. */
  function InPieces(buffer: Bytes, chunks: seq<Bytes>, more: Bytes): seq<Bytes> {
    Feed(buffer, chunks).0 + Frames(Feed(buffer, chunks).1 + more)
  }

  function AtOnce(buffer: Bytes, chunks: seq<Bytes>, more: Bytes): seq<Bytes> {
    Frames(buffer + Concat(chunks) + more)
  }

  /** The chunks make no difference to any continuation. */
  ghost predicate Harmless(buffer: Bytes, chunks: seq<Bytes>) {
    forall more: Bytes :: InPieces(buffer, chunks, more) == AtOnce(buffer, chunks, more)
  }

  lemma FirstPiece(buffer: Bytes, chunks: seq<Bytes>, more: Bytes)
    requires chunks != []
    ensures var data := buffer + chunks[0];
            && InPieces(buffer, chunks, more) == Frames(data) + InPieces(Tail(data), chunks[1..], more)
            && AtOnce(buffer, chunks, more) == Frames(data + (Concat(chunks[1..]) + more))
  {
    var data, rest := buffer + chunks[0], chunks[1..];
    assert buffer + Concat(chunks) + more == data + (Concat(rest) + more);
    hide Frames, Tail;
    var later := Feed(Tail(data), rest);
    assert Frames(data) + later.0 + Frames(later.1 + more) == Frames(data) + (later.0 + Frames(later.1 + more));
  }

  lemma NoPiece(buffer: Bytes, more: Bytes)
    ensures InPieces(buffer, [], more) == AtOnce(buffer, [], more)
  {
    assert buffer + Concat([]) + more == buffer + more;
    hide Frames;
    assert [] + Frames(buffer + more) == Frames(buffer + more);
  }

  lemma SafeCut(a: Bytes, b: Bytes)
    requires !LosesState(a)
    ensures Frames(a + b) == Frames(a) + Frames(Tail(a) + b)
  {
    CutIsSafe(a);
  }

  lemma {:induction false} PiecesAgree(buffer: Bytes, chunks: seq<Bytes>, more: Bytes)
    requires NothingLost(buffer, chunks)
    ensures InPieces(buffer, chunks, more) == AtOnce(buffer, chunks, more)
    decreases |chunks|
  {
    if chunks == [] {
      NoPiece(buffer, more);
    } else {
      var data, rest := buffer + chunks[0], chunks[1..];
      hide InPieces, AtOnce, LosesState, Frames, Tail, Concat;
      PiecesAgree(Tail(data), rest, more);
      FirstPiece(buffer, chunks, more);
      SafeCut(data, Concat(rest) + more);
      RestAtOnce(Tail(data), rest, more);
    }
  }

  lemma RestAtOnce(buffer: Bytes, chunks: seq<Bytes>, more: Bytes)
    ensures AtOnce(buffer, chunks, more) == Frames(buffer + (Concat(chunks) + more))
  {
    assert buffer + Concat(chunks) + more == buffer + (Concat(chunks) + more);
  }

  /** At the first chunk that loses state some continuation makes a difference. */
  lemma LostStep(buffer: Bytes, chunks: seq<Bytes>)
    requires !NothingLost(buffer, chunks)
    ensures chunks != []
    ensures LosesState(buffer + chunks[0]) || !NothingLost(Tail(buffer + chunks[0]), chunks[1..])
  {
    hide LosesState, Tail;
  }

  lemma {:induction false} PiecesDiffer(buffer: Bytes, chunks: seq<Bytes>) returns (j: nat, more: Bytes)
    requires !NothingLost(buffer, chunks)
    ensures j <= |chunks| && InPieces(buffer, chunks[..j], more) != AtOnce(buffer, chunks[..j], more)
    decreases |chunks|
  {
    LostStep(buffer, chunks);
    hide *;
    var data, rest := buffer + chunks[0], chunks[1..];
    if LosesState(data) {
      j := 1;
      more := DifferHere(buffer, chunks[0]);
      FirstAndMore(chunks, 0);
    } else {
      var k: nat;
      k, more := PiecesDiffer(Tail(data), rest);
      DifferLater(buffer, chunks[0], rest[..k], more);
      FirstAndMore(chunks, k);
      j := k + 1;
    }
  }

  lemma FirstAndMore(chunks: seq<Bytes>, k: nat)
    requires k < |chunks|
    ensures chunks[..1] == [chunks[0]] && chunks[..k + 1] == [chunks[0]] + chunks[1..][..k]
  {
  }

  lemma DifferHere(buffer: Bytes, chunk: Bytes) returns (more: Bytes)
    requires LosesState(buffer + chunk)
    ensures InPieces(buffer, [chunk], more) != AtOnce(buffer, [chunk], more)
  {
    hide InPieces, AtOnce, LosesState, Frames, Tail, Dangles;
    more := if Dangles(buffer + chunk) then [FLAG, 0, 0, FLAG] else [0, 0, FLAG];
    UnsafeCut(buffer + chunk);
    OnePiece(buffer, chunk, more);
  }

  lemma DifferLater(buffer: Bytes, chunk: Bytes, rest: seq<Bytes>, more: Bytes)
    requires var kept := Tail(buffer + chunk); InPieces(kept, rest, more) != AtOnce(kept, rest, more)
    requires !LosesState(buffer + chunk)
    ensures InPieces(buffer, [chunk] + rest, more) != AtOnce(buffer, [chunk] + rest, more)
  {
    hide InPieces, AtOnce, LosesState, Frames, Tail, Concat;
    var data := buffer + chunk;
    FirstPiece(buffer, [chunk] + rest, more);
    assert ([chunk] + rest)[1..] == rest;
    SafeCut(data, Concat(rest) + more);
    RestAtOnce(Tail(data), rest, more);
    SamePrefix(Frames(data), InPieces(Tail(data), rest, more), AtOnce(Tail(data), rest, more));
  }

  lemma SamePrefix<T>(x: seq<T>, a: seq<T>, b: seq<T>)
    ensures x + a == x + b ==> a == b
  {
    if x + a == x + b {
      assert a == (x + a)[|x|..] && b == (x + b)[|x|..];
    }
  }

  lemma OnePiece(buffer: Bytes, chunk: Bytes, more: Bytes)
    ensures var data := buffer + chunk;
            && InPieces(buffer, [chunk], more) == Frames(data) + Frames(Tail(data) + more)
            && AtOnce(buffer, [chunk], more) == Frames(data + more)
  {
    hide Frames, Tail;
    var data := buffer + chunk;
    assert Concat([chunk]) == chunk;
    assert Feed(buffer, [chunk]) == (Frames(data) + [], Tail(data));
    assert Frames(data) + [] == Frames(data);
  }

  lemma {:induction false} NothingLostSoFar(buffer: Bytes, chunks: seq<Bytes>, j: nat)
    requires NothingLost(buffer, chunks) && j <= |chunks|
    ensures NothingLost(buffer, chunks[..j])
    decreases |chunks|
  {
    hide LosesState, Tail;
    if j > 0 {
      assert chunks[..j][1..] == chunks[1..][..j - 1] && chunks[..j][0] == chunks[0];
      NothingLostSoFar(Tail(buffer + chunks[0]), chunks[1..], j - 1);
    }
  }

  /** Chunks are harmless at every point, for every continuation, if and only if nothing that the splitter is
      handed, buffer and chunk together, loses state. */
  lemma ChunksAreHarmless(buffer: Bytes, chunks: seq<Bytes>)
    ensures (forall j | 0 <= j <= |chunks| :: Harmless(buffer, chunks[..j])) <==> NothingLost(buffer, chunks)
  {
    hide InPieces, AtOnce;
    if NothingLost(buffer, chunks) {
      forall j | 0 <= j <= |chunks| ensures Harmless(buffer, chunks[..j]) {
        NothingLostSoFar(buffer, chunks, j);
        forall more: Bytes ensures InPieces(buffer, chunks[..j], more) == AtOnce(buffer, chunks[..j], more) {
          PiecesAgree(buffer, chunks[..j], more);
        }
      }
    } else {
      var j, more := PiecesDiffer(buffer, chunks);
      assert !Harmless(buffer, chunks[..j]);
    }
  }

  /** What was split before a chunk does not save it: after a frame, an escaped flag that comes in a chunk of
      its own is kept as an opening flag, although the stream up to it loses no state. */
  lemma LaterCut()
    ensures var frame: Bytes := [FLAG, 0, 0, FLAG];
            var chunks: seq<Bytes> := [frame, [ESC, FLAG], [0, 0, FLAG]];
            && !LosesState(frame) && !LosesState(frame + [ESC, FLAG])
            && Frames(Concat(chunks)) == [frame] && Feed([], chunks).0 == [frame, frame]
  {
    var frame: Bytes := [FLAG, 0, 0, FLAG];
    var pair: Bytes := [ESC, FLAG];
    var last: Bytes := [0, 0, FLAG];
    FrameAndPair(frame, pair, last);
    hide Run, Dangles;
    assert frame[..3] + [FLAG] == frame && (frame + [ESC]) + [FLAG] == frame + pair;
    NoEscapeAtEnd(frame[..3]);
    NoEscapeAtEnd(frame + [ESC]);
    ConcatThree(frame, pair, last);
    FeedThree(frame, pair, last);
  }

  lemma FrameAndPair(frame: Bytes, pair: Bytes, last: Bytes)
    requires frame == [FLAG, 0, 0, FLAG] && pair == [ESC, FLAG] && last == [0, 0, FLAG]
    ensures Run([], frame) == Scan([frame], []) && Run([], pair) == Scan([], [])
    ensures Run([], frame + pair) == Scan([frame], [])
    ensures Run([], frame + (pair + last)) == Scan([frame], [FLAG])
  {
    hide Run, Dangles, IsPair, TokenLength;
    OneFrame();
    PairAlone(pair);
    EscapedFlag(last);
    assert frame[..3] + [FLAG] == frame;
    NoEscapeAtEnd(frame[..3]);
    AfterFrame(frame, pair);
    AfterFrame(frame, pair + last);
  }

  lemma PairAlone(pair: Bytes)
    requires pair == [ESC, FLAG]
    ensures Run([], pair) == Scan([], [])
  {
    var nothing: Bytes := [];
    EscapedFlag(nothing);
    assert [ESC, FLAG] + nothing == pair;
  }

  lemma AfterFrame(frame: Bytes, x: Bytes)
    requires Run([], frame) == Scan([frame], []) && !Dangles(frame)
    ensures Run([], frame + x) == Scan([frame] + Run([], x).frames, Run([], x).open)
  {
    hide Run, Dangles;
    RunConcat([], frame, x);
  }

  lemma NoEscapeAtEnd(a: Bytes)
    ensures !Dangles(a + [FLAG])
  {
    var data := a + [FLAG];
    assert data[|data| - 1] == FLAG;
    DanglingEndsInEscape(data);
  }

  lemma {:induction false} DanglingEndsInEscape(data: Bytes)
    ensures Dangles(data) ==> data != [] && data[|data| - 1] == ESC
    decreases |data|
  {
    if data != [] {
      DanglingEndsInEscape(data[TokenLength(data)..]);
    }
  }

  lemma ConcatThree(a: Bytes, b: Bytes, c: Bytes)
    ensures Concat([a, b, c]) == a + (b + c)
  {
    assert [a, b, c][1..] == [b, c] && [b, c][1..] == [c] && [c][1..] == [];
    assert Concat([c]) == c && Concat([b, c]) == b + c;
  }

  lemma FeedThree(frame: Bytes, pair: Bytes, last: Bytes)
    requires frame == [FLAG, 0, 0, FLAG] && pair == [ESC, FLAG] && last == [0, 0, FLAG]
    requires Run([], frame) == Scan([frame], []) && Run([], pair) == Scan([], [])
    ensures Feed([], [frame, pair, last]).0 == [frame, frame]
  {
    hide Run;
    assert [] + frame == frame && [] + pair == pair && [FLAG] + last == frame;
    assert Tail(frame) == [] && Tail(pair) == [FLAG];
    assert [frame, pair, last][1..] == [pair, last] && [pair, last][1..] == [last] && [last][1..] == [];
    assert Feed([FLAG], [last]).0 == [frame] + [];
    assert Feed([], [pair, last]).0 == [] + [frame];
  }

  /** Splitting a kept tail gives no frame and the same tail. */
  lemma TailIsSettled(data: Bytes)
    ensures Frames(Tail(data)) == [] && Tail(Tail(data)) == Tail(data)
  {
    RunSettles([], data);
    LoneFlag([]);
  }

  /** Where the frames of a scan lie in the stream. */
  ghost predicate Slices(data: Bytes, from: int, frames: seq<Bytes>, starts: seq<nat>, ends: seq<nat>) {
    && |frames| == |starts| == |ends|
    && (forall k | 0 <= k < |frames| :: from <= starts[k] < ends[k] <= |data| && frames[k] == data[starts[k]..ends[k]])
    && (forall j, k | 0 <= j < k < |frames| :: ends[j] <= starts[k])
  }

  /** A flag at both ends, at least two bytes between, and no frame boundary inside. */
  ghost predicate WellFormed(frame: Bytes) {
    && |frame| >= 4 && frame[0] == FLAG && frame[|frame| - 1] == FLAG
    && Frames(frame) == [frame] && Settled(frame[..|frame| - 1])
  }

  /** A scan at `i` whose open candidate, if any, starts at `start`. */
  ghost predicate ScanningAt(data: Bytes, i: nat, start: int) {
    && -1 <= start <= i <= |data|
    && (start != -1 ==>
          start < i && data[start] == FLAG && Settled(data[start..i]) && !Joins(data[start..i], data[i..]))
  }

  lemma ScanOn(data: Bytes, i: nat, start: int)
    requires i < |data| && ScanningAt(data, i, start) && -1 <= start < i as int
    ensures ScanningAt(data, i + WidthAt(data, i), NextStart(data, i, start))
  {
    if data[i] == FLAG {
      LoneFlag([]);
      assert data[i..i + 1] == [FLAG];
    } else if start != -1 {
      ScanInside(data, i, start);
    }
  }

  /** The token at `i` that is not a flag; a lone escape byte is not followed by a flag or an escape byte. */
  lemma TokenInside(data: Bytes, i: nat)
    requires i < |data| && data[i] != FLAG
    ensures var token, n := TokenAt(data, i), WidthAt(data, i);
            && token != [] && token[0] == data[i] && |token| == n && TokenLength(token) == n && token != [FLAG]
            && (token == [ESC] && i + n < |data| ==> data[i + n] != FLAG && data[i + n] != ESC)
  {
  }

  /** The candidate with the token at `i` goes on. */
  lemma ScanGrows(data: Bytes, i: nat, start: nat, n: nat)
    requires start < i < i + n <= |data| && data[start] == FLAG
    requires Settled(data[start..i] + data[i..i + n])
    requires Dangles(data[start..i] + data[i..i + n]) && i + n < |data| ==> data[i + n] != FLAG && data[i + n] != ESC
    ensures ScanningAt(data, i + n, start)
  {
    hide Settled, Dangles;
    assert data[start..i] + data[i..i + n] == data[start..i + n];
    assert i + n < |data| ==> data[i + n..][0] == data[i + n];
  }

  lemma JoinsFirst(open: Bytes, data: Bytes, token: Bytes)
    requires !Joins(open, data) && data != [] && token != [] && token[0] == data[0]
    ensures !Joins(open, token)
  {
    hide Dangles;
  }

  lemma ScanningIs(data: Bytes, i: nat, start: nat)
    requires i < |data| && ScanningAt(data, i, start)
    ensures start < i && data[start] == FLAG && Settled(data[start..i]) && !Joins(data[start..i], data[i..])
    ensures data[i..] != [] && data[i..][0] == data[i]
  {
    hide Settled, Dangles;
  }

  lemma ScanInside(data: Bytes, i: nat, start: int)
    requires i < |data| && ScanningAt(data, i, start) && -1 < start < i && data[i] != FLAG
    ensures ScanningAt(data, i + WidthAt(data, i), start)
  {
    TokenInside(data, i);
    ScanningIs(data, i, start);
    var n, token := WidthAt(data, i), TokenAt(data, i);
    assert token == data[i..i + n];
    hide *;
    JoinsFirst(data[start..i], data[i..], token);
    ExtendSettled(data[start..i], token);
    ScanGrows(data, i, start, n);
  }

  lemma ClosedIsWellFormed(data: Bytes, i: nat, start: int)
    requires i < |data| && ScanningAt(data, i, start) && -1 < start < i && data[i] == FLAG && i - start - 1 >= 2
    ensures WellFormed(data[start..i + 1])
  {
    var open := data[start..i];
    assert open[0] == FLAG && data[i..][0] == FLAG;
    assert open + [FLAG] == data[start..i + 1];
    assert data[start..i + 1][..i - start] == open;
    RunConcat([], open, [FLAG]);
    LoneFlag(open);
  }

  /** `starts` and `ends` place the frames that the scan still finds; all are well formed. */
  ghost predicate Placed(data: Bytes, from: int, frames: seq<Bytes>, starts: seq<nat>, ends: seq<nat>) {
    && Slices(data, from, frames, starts, ends)
    && forall k | 0 <= k < |frames| :: WellFormed(frames[k])
  }

  lemma PlacedFrom(data: Bytes, from: int, lower: int, frames: seq<Bytes>, starts: seq<nat>, ends: seq<nat>)
    requires lower <= from && Placed(data, from, frames, starts, ends)
    ensures Placed(data, lower, frames, starts, ends)
  {
  }

  lemma PlacedCons(data: Bytes, start: nat, end: nat, frames: seq<Bytes>, starts: seq<nat>, ends: seq<nat>)
    requires start < end <= |data| && WellFormed(data[start..end]) && Placed(data, end, frames, starts, ends)
    ensures Placed(data, start, [data[start..end]] + frames, [start] + starts, [end] + ends)
  {
    hide WellFormed;
  }

  /** The first byte that a frame found from here on can have. */
  function FirstByte(i: nat, start: int): int {
    if start == -1 then i else start
  }

  lemma PlacedSkip(data: Bytes, i: nat, start: int, later: seq<Bytes>, starts: seq<nat>, ends: seq<nat>)
    requires i < |data| && -1 <= start < i as int && ClosedAt(data, i, start) == []
    requires later == RunFrom(data, i + WidthAt(data, i), NextStart(data, i, start)).frames
    requires Placed(data, FirstByte(i + WidthAt(data, i), NextStart(data, i, start)), later, starts, ends)
    ensures Placed(data, FirstByte(i, start), RunFrom(data, i, start).frames, starts, ends)
  {
    RunFromStep(data, i, start);
    hide RunFrom, Placed;
    assert [] + later == later;
    PlacedFrom(data, FirstByte(i + WidthAt(data, i), NextStart(data, i, start)), FirstByte(i, start),
               later, starts, ends);
  }

  lemma CloseAt(data: Bytes, i: nat, start: int)
    requires i < |data| && -1 < start < i && data[i] == FLAG && i - start - 1 >= 2
    ensures ClosedAt(data, i, start) == [data[start..i + 1]] && NextStart(data, i, start) == -1 && WidthAt(data, i) == 1
  {
  }

  lemma PlacedClose(data: Bytes, i: nat, start: int, later: seq<Bytes>, starts: seq<nat>, ends: seq<nat>)
    requires i < |data| && -1 < start < i && ScanningAt(data, i, start) && data[i] == FLAG && i - start - 1 >= 2
    requires later == RunFrom(data, i + 1, -1).frames && Placed(data, i + 1, later, starts, ends)
    ensures Placed(data, start, RunFrom(data, i, start).frames, [start] + starts, [i + 1] + ends)
  {
    hide *;
    CloseAt(data, i, start);
    RunFromStep(data, i, start);
    FramesOfPrepend(ClosedAt(data, i, start), RunFrom(data, i + 1, -1));
    ClosedIsWellFormed(data, i, start);
    PlacedCons(data, start, i + 1, later, starts, ends);
  }

  lemma PlacedStep(data: Bytes, i: nat, start: int, starts: seq<nat>, ends: seq<nat>)
    returns (starts': seq<nat>, ends': seq<nat>)
    requires i < |data| && -1 <= start < i as int && ScanningAt(data, i, start)
    requires var n, next := WidthAt(data, i), NextStart(data, i, start);
             Placed(data, FirstByte(i + n, next), RunFrom(data, i + n, next).frames, starts, ends)
    ensures Placed(data, FirstByte(i, start), RunFrom(data, i, start).frames, starts', ends')
  {
    hide RunFrom, Placed, ScanningAt;
    var later := RunFrom(data, i + WidthAt(data, i), NextStart(data, i, start)).frames;
    if ClosedAt(data, i, start) == [] {
      PlacedSkip(data, i, start, later, starts, ends);
      starts', ends' := starts, ends;
    } else {
      PlacedClose(data, i, start, later, starts, ends);
      starts', ends' := [start] + starts, [i + 1] + ends;
    }
  }

  lemma {:induction false} FramesFrom(data: Bytes, i: nat, start: int) returns (starts: seq<nat>, ends: seq<nat>)
    requires -1 <= start <= i <= |data| && ScanningAt(data, i, start) && (start == -1 || start < i)
    ensures Placed(data, FirstByte(i, start), RunFrom(data, i, start).frames, starts, ends)
    decreases |data| - i
  {
    starts, ends := [], [];
    if i < |data| {
      hide RunFrom, Placed, ScanningAt, NextStart, WidthAt;
      ScanOn(data, i, start);
      starts, ends := FramesFrom(data, i + WidthAt(data, i), NextStart(data, i, start));
      starts, ends := PlacedStep(data, i, start, starts, ends);
    }
  }

  /** The frames are disjoint slices of the stream, in order, each well formed. */
  lemma FramesAreSlices(data: Bytes) returns (starts: seq<nat>, ends: seq<nat>)
    ensures Slices(data, 0, Frames(data), starts, ends)
    ensures forall frame | frame in Frames(data) :: WellFormed(frame)
  {
    assert data[0..] == data;
    starts, ends := FramesFrom(data, 0, -1);
  }
}
