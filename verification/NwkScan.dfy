/** The incremental scan of logged frames into the network event table and its counters. */
module NwkScan {

  import opened Counting
  import opened Wrappers

  const MAX_SCAN_PER_CALL := 20000

  /** What the frame decoder makes of a frame; there is a message type only under a MAC header. */
  datatype Decoded =
    | Undecodable
    | Parsed(delimiter: int, hasBeacon: bool, receiptFailed: bool, msduType: Option<int>, icvBad: bool,
             truncated: bool, events: seq<string>)

  datatype Frame = Frame(id: int, decoded: Decoded)

  datatype Counters = Counters(frames: nat, mgmt: nat, app: nat, beacon: nat, sack: nat, sackFail: nat, coord: nat,
                               icvFail: nat, truncated: nat, decodeFail: nat)

  const ZERO := Counters(0, 0, 0, 0, 0, 0, 0, 0, 0, 0)

  function Add(a: Counters, b: Counters): Counters {
    Counters(a.frames + b.frames, a.mgmt + b.mgmt, a.app + b.app, a.beacon + b.beacon, a.sack + b.sack,
             a.sackFail + b.sackFail, a.coord + b.coord, a.icvFail + b.icvFail, a.truncated + b.truncated,
             a.decodeFail + b.decodeFail)
  }

  // ---------------------------------------------------------------------------
  // One-shot reference: every counter is a number of frames, the table holds a row per event frame
  // ---------------------------------------------------------------------------

  datatype Kind = Any | Mgmt | App | Beacon | Sack | SackFail | Coord | IcvFail | Truncated | DecodeFail

  /** Frames of selective acknowledgements count for quality only. */
  predicate IsSack(f: Frame) {
    f.decoded.Parsed? && f.decoded.delimiter == 2
  }

  predicate IsPlain(f: Frame) {
    f.decoded.Parsed? && f.decoded.delimiter != 2
  }

  predicate Is(f: Frame, kind: Kind) {
    match kind
    case Any => true
    case DecodeFail => f.decoded.Undecodable?
    case Sack => IsSack(f)
    case SackFail => IsSack(f) && f.decoded.receiptFailed
    case Beacon => IsPlain(f) && f.decoded.delimiter == 0 && f.decoded.hasBeacon
    case Coord => IsPlain(f) && f.decoded.delimiter == 3
    case Mgmt => IsPlain(f) && f.decoded.msduType == Some(0)
    case App => IsPlain(f) && f.decoded.msduType == Some(48)
    case IcvFail => IsPlain(f) && f.decoded.icvBad
    case Truncated => IsPlain(f) && f.decoded.truncated
  }

  function Number(frames: seq<Frame>, kind: Kind): nat {
    if frames == [] then 0
    else Number(frames[..|frames| - 1], kind) + if Is(frames[|frames| - 1], kind) then 1 else 0
  }

  function Totals(frames: seq<Frame>): Counters {
    Counters(Number(frames, Any), Number(frames, Mgmt), Number(frames, App), Number(frames, Beacon),
             Number(frames, Sack), Number(frames, SackFail), Number(frames, Coord), Number(frames, IcvFail),
             Number(frames, Truncated), Number(frames, DecodeFail))
  }

  function AsKind(kind: Kind): Frame -> bool {
    (f: Frame) => Is(f, kind)
  }

  lemma {:induction false} NumberIs(frames: seq<Frame>, kind: Kind)
    ensures Number(frames, kind) == NumberOf(frames, AsKind(kind))
  {
    hide Is;
    if frames != [] {
      NumberIs(frames[..|frames| - 1], kind);
    }
  }

  /** The frames of a delimiter that the decoder could read. */
  predicate Has(f: Frame, delimiter: int) {
    f.decoded.Parsed? && f.decoded.delimiter == delimiter
  }

  /** Frames that are read for their contents: all but acknowledgements. */
  predicate IsRead(f: Frame) {
    f.decoded.Parsed? && f.decoded.delimiter != 2
  }

  /** What the counters of frames that cannot be read for their contents count, and those of damage. */
  ghost predicate AreQuality(frames: seq<Frame>, totals: Counters) {
    && totals.decodeFail == NumberOf(frames, (f: Frame) => f.decoded.Undecodable?)
    && totals.sack == NumberOf(frames, (f: Frame) => Has(f, 2))
    && totals.sackFail == NumberOf(frames, (f: Frame) => Has(f, 2) && f.decoded.receiptFailed)
    && totals.icvFail == NumberOf(frames, (f: Frame) => IsRead(f) && f.decoded.icvBad)
    && totals.truncated == NumberOf(frames, (f: Frame) => IsRead(f) && f.decoded.truncated)
  }

  /** What the counters of the other kinds count. */
  ghost predicate AreKinds(frames: seq<Frame>, totals: Counters) {
    && totals.beacon == NumberOf(frames, (f: Frame) => Has(f, 0) && f.decoded.hasBeacon)
    && totals.coord == NumberOf(frames, (f: Frame) => Has(f, 3))
    && totals.mgmt == NumberOf(frames, (f: Frame) => IsRead(f) && f.decoded.msduType == Some(0))
    && totals.app == NumberOf(frames, (f: Frame) => IsRead(f) && f.decoded.msduType == Some(48))
  }

  lemma NumberMeans(frames: seq<Frame>, kind: Kind, p: Frame -> bool)
    requires forall f: Frame :: Is(f, kind) == p(f)
    ensures Number(frames, kind) == NumberOf(frames, p)
  {
    NumberIs(frames, kind);
    hide Number, NumberOf, Is;
    SameNumber(frames, AsKind(kind), p);
  }

  lemma QualityMeans(frames: seq<Frame>)
    ensures AreQuality(frames, Totals(frames))
  {
    hide Number, NumberOf;
    NumberMeans(frames, DecodeFail, (f: Frame) => f.decoded.Undecodable?);
    NumberMeans(frames, Sack, (f: Frame) => Has(f, 2));
    NumberMeans(frames, SackFail, (f: Frame) => Has(f, 2) && f.decoded.receiptFailed);
    NumberMeans(frames, IcvFail, (f: Frame) => IsRead(f) && f.decoded.icvBad);
    NumberMeans(frames, Truncated, (f: Frame) => IsRead(f) && f.decoded.truncated);
  }

  lemma KindsMean(frames: seq<Frame>)
    ensures AreKinds(frames, Totals(frames))
  {
    hide Number, NumberOf;
    NumberMeans(frames, Beacon, (f: Frame) => Has(f, 0) && f.decoded.hasBeacon);
    NumberMeans(frames, Coord, (f: Frame) => Has(f, 3));
    NumberMeans(frames, Mgmt, (f: Frame) => IsRead(f) && f.decoded.msduType == Some(0));
    NumberMeans(frames, App, (f: Frame) => IsRead(f) && f.decoded.msduType == Some(48));
  }

  /** Every counter is the number of frames that it is named for. */
  lemma TotalsMean(frames: seq<Frame>)
    ensures Totals(frames).frames == |frames|
    ensures AreQuality(frames, Totals(frames)) && AreKinds(frames, Totals(frames))
  {
    NumberOfAll(frames);
    QualityMeans(frames);
    KindsMean(frames);
    hide AreQuality, AreKinds, Number;
  }

  lemma {:induction false} NumberOfAll(frames: seq<Frame>)
    ensures Number(frames, Any) == |frames|
  {
    if frames != [] {
      NumberOfAll(frames[..|frames| - 1]);
    }
  }

  predicate HasRow(f: Frame) {
    IsPlain(f) && f.decoded.events != []
  }

  /** A later event of a frame replaces an earlier one: the row key is the frame. */
  function RowOf(f: Frame): string
    requires HasRow(f)
  {
    f.decoded.events[|f.decoded.events| - 1]
  }

  ghost predicate IsTable(frames: seq<Frame>, table: map<int, string>) {
    && (forall f | f in frames && HasRow(f) :: f.id in table && table[f.id] == RowOf(f))
    && (forall id | id in table :: exists i :: 0 <= i < |frames| && frames[i].id == id && HasRow(frames[i]))
  }

  ghost predicate Ascending(frames: seq<Frame>) {
    && (forall i | 0 <= i < |frames| :: frames[i].id > 0)
    && (forall i, j | 0 <= i < j < |frames| :: frames[i].id < frames[j].id)
  }

  lemma NumberAppend(frames: seq<Frame>, f: Frame, kind: Kind)
    ensures Number(frames + [f], kind) == Number(frames, kind) + if Is(f, kind) then 1 else 0
  {
    assert (frames + [f])[..|frames|] == frames;
  }

  function One(f: Frame, kind: Kind): nat {
    if Is(f, kind) then 1 else 0
  }

  /** What one frame adds to the counters. */
  function Share(f: Frame): Counters {
    Counters(One(f, Any), One(f, Mgmt), One(f, App), One(f, Beacon), One(f, Sack), One(f, SackFail), One(f, Coord),
             One(f, IcvFail), One(f, Truncated), One(f, DecodeFail))
  }

  lemma TotalsAppend(frames: seq<Frame>, f: Frame)
    ensures Totals(frames + [f]) == Add(Totals(frames), Share(f))
  {
    hide Is, Number;
    NumberAppend(frames, f, Any);
    NumberAppend(frames, f, Mgmt);
    NumberAppend(frames, f, App);
    NumberAppend(frames, f, Beacon);
    NumberAppend(frames, f, Sack);
    NumberAppend(frames, f, SackFail);
    NumberAppend(frames, f, Coord);
    NumberAppend(frames, f, IcvFail);
    NumberAppend(frames, f, Truncated);
    NumberAppend(frames, f, DecodeFail);
  }

  lemma AddAssociates(a: Counters, b: Counters, c: Counters)
    ensures Add(a, Add(b, c)) == Add(Add(a, b), c)
  {
  }

  // ---------------------------------------------------------------------------
  // The scanner
  // ---------------------------------------------------------------------------

  /** The counters of a frame that is not an acknowledgement. */
  method CountPlain(f: Frame, counters: Counters) returns (r: Counters)
    requires IsPlain(f)
    ensures r == Add(counters, Share(f).(frames := 0))
  {
    r := counters;
    if f.decoded.delimiter == 0 && f.decoded.hasBeacon {
      r := r.(beacon := r.beacon + 1);
    } else if f.decoded.delimiter == 3 {
      r := r.(coord := r.coord + 1);
    }
    if f.decoded.msduType == Some(0) {
      r := r.(mgmt := r.mgmt + 1);
    } else if f.decoded.msduType == Some(48) {
      r := r.(app := r.app + 1);
    }
    if f.decoded.icvBad {
      r := r.(icvFail := r.icvFail + 1);
    }
    if f.decoded.truncated {
      r := r.(truncated := r.truncated + 1);
    }
  }

  method CountFrame(f: Frame, counters: Counters) returns (r: Counters, skip: bool)
    ensures r == Add(counters, Share(f)) && skip == !IsPlain(f)
  {
    r := counters.(frames := counters.frames + 1);
    if f.decoded.Undecodable? {
      return r.(decodeFail := r.decodeFail + 1), true;
    }
    if f.decoded.delimiter == 2 {
      r := r.(sack := r.sack + 1);
      if f.decoded.receiptFailed {
        r := r.(sackFail := r.sackFail + 1);
      }
      return r, true;
    }
    r := CountPlain(f, r);
    skip := false;
  }

  class Scanner {
    var lastId: int
    var table: map<int, string>
    var totals: Counters

    /** The first `n` frames have been scanned: all is as one scan of them would leave it. */
    ghost predicate ScannedTo(frames: seq<Frame>, n: nat)
      reads this
    {
      && n <= |frames|
      && lastId == (if n == 0 then 0 else frames[n - 1].id)
      && IsTable(frames[..n], table)
      && totals == Totals(frames[..n])
    }

    constructor ()
      ensures forall frames | Ascending(frames) :: ScannedTo(frames, 0)
    {
      lastId, table, totals := 0, map[], ZERO;
    }

    /** `_consume`: counts the frame and writes its events. */
    method Consume(ghost done: seq<Frame>, f: Frame, counters: Counters) returns (r: Counters)
      requires IsTable(done, table) && forall g | g in done :: g.id != f.id
      modifies `table
      ensures IsTable(done + [f], table)
      ensures r == Add(counters, Share(f))
    {
      var skip;
      r, skip := CountFrame(f, counters);
      ghost var before := table;
      if !skip {
        for k := 0 to |f.decoded.events|
          invariant table == if k == 0 then before else before[f.id := f.decoded.events[k - 1]]
        {
          table := table[f.id := f.decoded.events[k]];
        }
      }
      TableAppend(done, before, f);
    }

    /** The first frame past the last one scanned. */
    method Start(frames: seq<Frame>, ghost n: nat) returns (i: nat)
      requires Ascending(frames) && ScannedTo(frames, n)
      ensures i == n
    {
      hide IsTable, Totals;
      i := 0;
      while i < |frames| && frames[i].id <= lastId
        invariant i <= n
      {
        i := i + 1;
      }
    }

    /** The frames `n` up to `i` have been read and are in the table and in `counters`, not yet in the state. */
    ghost predicate ReadTo(frames: seq<Frame>, i: nat, counters: Counters)
      reads this
    {
      i <= |frames| && IsTable(frames[..i], table) && Add(totals, counters) == Totals(frames[..i])
    }

    method ReadOne(frames: seq<Frame>, i: nat, counters: Counters) returns (r: Counters)
      requires Ascending(frames) && i < |frames| && ReadTo(frames, i, counters)
      modifies `table
      ensures ReadTo(frames, i + 1, r)
    {
      hide IsTable, Totals, Add, Share;
      assert frames[..i + 1] == frames[..i] + [frames[i]];
      TotalsAppend(frames[..i], frames[i]);
      AddAssociates(totals, counters, Share(frames[i]));
      r := Consume(frames[..i], frames[i], counters);
    }

    /** `refresh`: scans at most `budget` frames past the last one scanned, or the default number for a
        budget of zero. */
    method Refresh(frames: seq<Frame>, budget: nat, ghost n: nat) returns (scanned: nat, pending: bool)
      requires Ascending(frames) && ScannedTo(frames, n)
      modifies this
      ensures ScannedTo(frames, n + scanned)
      ensures var allowed := if budget == 0 then MAX_SCAN_PER_CALL else budget;
              scanned == if |frames| - n < allowed then |frames| - n else allowed
      ensures pending <==> exists f :: f in frames && f.id > lastId
    {
      hide IsTable, Totals, Add;
      var allowed := if budget == 0 then MAX_SCAN_PER_CALL else budget;
      var i := Start(frames, n);
      var counters := ZERO;
      var last := lastId;
      scanned := 0;
      AddNothing(totals);
      while i < |frames| && scanned < allowed
        invariant i == n + scanned <= |frames| && scanned <= allowed
        invariant last == (if i == 0 then 0 else frames[i - 1].id)
        invariant ReadTo(frames, i, counters)
      {
        hide ReadTo;
        last := frames[i].id;
        counters := ReadOne(frames, i, counters);
        scanned, i := scanned + 1, i + 1;
      }
      lastId := last;
      totals := Add(totals, counters);
      pending := |frames| > 0 && last < frames[|frames| - 1].id;
      LastIsLargest(frames, last);
    }

    /** Frames logged later, with larger ids, do not disturb what was scanned. */
    lemma MoreFrames(frames: seq<Frame>, more: seq<Frame>, n: nat)
      requires ScannedTo(frames, n)
      ensures ScannedTo(frames + more, n)
    {
      assert n <= |frames| ==> (frames + more)[..n] == frames[..n];
    }
  }

  lemma AddNothing(a: Counters)
    ensures Add(a, ZERO) == a
  {
  }

  lemma LastIsLargest(frames: seq<Frame>, last: int)
    requires Ascending(frames)
    ensures |frames| > 0 && last < frames[|frames| - 1].id <==> exists f :: f in frames && f.id > last
  {
    if f :| f in frames && f.id > last {
      var i :| 0 <= i < |frames| && frames[i] == f;
      assert i < |frames| - 1 ==> frames[i].id < frames[|frames| - 1].id;
    }
    if |frames| > 0 && last < frames[|frames| - 1].id {
      assert frames[|frames| - 1] in frames;
    }
  }

  lemma TableAppend(done: seq<Frame>, table: map<int, string>, f: Frame)
    requires IsTable(done, table) && forall g | g in done :: g.id != f.id
    ensures IsTable(done + [f], if HasRow(f) then table[f.id := RowOf(f)] else table)
  {
    var r := if HasRow(f) then table[f.id := RowOf(f)] else table;
    var longer := done + [f];
    forall id | id in r ensures exists i :: 0 <= i < |longer| && longer[i].id == id && HasRow(longer[i]) {
      if id in table {
        var i :| 0 <= i < |done| && done[i].id == id && HasRow(done[i]);
        assert longer[i] == done[i];
      } else {
        assert longer[|done|] == f;
      }
    }
  }

  // ---------------------------------------------------------------------------
  // Whole runs
  // ---------------------------------------------------------------------------

  /** Frames are logged between scans. */
  datatype Step = Log(frames: seq<Frame>) | Scan(budget: nat)

  function Logged(script: seq<Step>): seq<Frame> {
    if script == [] then []
    else
      var last := script[|script| - 1];
      Logged(script[..|script| - 1]) + if last.Log? then last.frames else []
  }

  function Allowed(budget: nat): nat {
    if budget == 0 then MAX_SCAN_PER_CALL else budget
  }

  /** How many of the frames a run has scanned. */
  function ScannedBy(script: seq<Step>): (n: nat)
    ensures n <= |Logged(script)|
  {
    if script == [] then 0
    else
      var n, last := ScannedBy(script[..|script| - 1]), script[|script| - 1];
      if last.Log? then n
      else if |Logged(script)| - n < Allowed(last.budget) then |Logged(script)|
      else n + Allowed(last.budget)
  }

  lemma AscendingPrefix(frames: seq<Frame>, more: seq<Frame>)
    requires Ascending(frames + more)
    ensures Ascending(frames)
  {
    assert forall i | 0 <= i < |frames| :: (frames + more)[i] == frames[i];
  }

  lemma {:induction false} LoggedPrefix(script: seq<Step>, i: nat) returns (more: seq<Frame>)
    requires i <= |script|
    ensures Logged(script) == Logged(script[..i]) + more
  {
    if i == |script| {
      more := [];
      assert script[..i] == script;
    } else {
      more := LoggedPrefix(script[..|script| - 1], i);
      assert script[..|script| - 1][..i] == script[..i];
      more := more + if script[|script| - 1].Log? then script[|script| - 1].frames else [];
    }
  }

  lemma ScriptStep(script: seq<Step>, step: Step)
    ensures Logged(script + [step]) == Logged(script) + if step.Log? then step.frames else []
    ensures ScannedBy(script + [step]) ==
            if step.Log? then ScannedBy(script)
            else if |Logged(script)| - ScannedBy(script) < Allowed(step.budget) then |Logged(script)|
            else ScannedBy(script) + Allowed(step.budget)
  {
    assert (script + [step])[..|script|] == script;
    assert Logged(script) + [] == Logged(script);
  }

  method RunStep(scanner: Scanner, script: seq<Step>, step: Step)
    requires Ascending(Logged(script + [step])) && scanner.ScannedTo(Logged(script), ScannedBy(script))
    modifies scanner
    ensures scanner.ScannedTo(Logged(script + [step]), ScannedBy(script + [step]))
  {
    hide IsTable, Totals, Ascending, Logged, ScannedBy;
    ScriptStep(script, step);
    if step.Log? {
      scanner.MoreFrames(Logged(script), step.frames, ScannedBy(script));
    } else {
      assert Logged(script) + [] == Logged(script);
      var _, _ := scanner.Refresh(Logged(script), step.budget, ScannedBy(script));
    }
  }

  /** Any run of scans with any budgets, and any logging of later frames in between, leaves what one scan of
      the first frames would leave. */
  method Run(script: seq<Step>) returns (scanner: Scanner)
    requires Ascending(Logged(script))
    ensures scanner.ScannedTo(Logged(script), ScannedBy(script))
  {
    scanner := new Scanner();
    for i := 0 to |script|
      invariant fresh(scanner) && scanner.ScannedTo(Logged(script[..i]), ScannedBy(script[..i]))
    {
      hide *;
      assert script[..i + 1] == script[..i] + [script[i]];
      ghost var more := LoggedPrefix(script, i + 1);
      AscendingPrefix(Logged(script[..i + 1]), more);
      RunStep(scanner, script[..i], script[i]);
    }
    assert script[..|script|] == script;
  }

  /** A row of one table of the frames is in every other. */
  lemma RowsOfBoth(frames: seq<Frame>, a: map<int, string>, b: map<int, string>)
    requires IsTable(frames, a) && IsTable(frames, b)
    ensures forall id | id in a :: id in b && a[id] == b[id]
  {
    forall id | id in a ensures id in b && a[id] == b[id] {
      var i :| 0 <= i < |frames| && frames[i].id == id && HasRow(frames[i]);
      assert frames[i] in frames;
    }
  }

  lemma OneTable(frames: seq<Frame>, a: map<int, string>, b: map<int, string>)
    requires IsTable(frames, a) && IsTable(frames, b)
    ensures a == b
  {
    hide RowOf, HasRow;
    RowsOfBoth(frames, a, b);
    RowsOfBoth(frames, b, a);
    assert forall id :: id in a <==> id in b;
    assert forall id | id in a :: a[id] == b[id];
  }

  lemma LastIdGrows(frames: seq<Frame>, n: nat, m: nat)
    requires Ascending(frames) && n < m <= |frames|
    ensures (if n == 0 then 0 else frames[n - 1].id) < frames[m - 1].id
  {
  }

  /** The last scanned id fixes the table and the counters, however the scan went. */
  lemma LastIdFixesState(a: Scanner, b: Scanner, frames: seq<Frame>, n: nat, m: nat)
    requires Ascending(frames) && a.ScannedTo(frames, n) && b.ScannedTo(frames, m) && a.lastId == b.lastId
    ensures a.table == b.table && a.totals == b.totals
  {
    if n < m {
      LastIdGrows(frames, n, m);
    } else if m < n {
      LastIdGrows(frames, m, n);
    }
    AscendingPrefix(frames[..n], frames[n..]);
    assert frames[..n] + frames[n..] == frames;
    OneTable(frames[..n], a.table, b.table);
  }

  /** With nothing more logged, scanning goes on until all is scanned: as many scans as frames are left are
      enough, whatever their budgets. */
  lemma {:induction false} ScansCatchUp(script: seq<Step>, scans: seq<Step>)
    requires forall k | 0 <= k < |scans| :: scans[k].Scan?
    ensures Logged(script + scans) == Logged(script)
    ensures ScannedBy(script + scans) == |Logged(script)| || ScannedBy(script + scans) >= ScannedBy(script) + |scans|
  {
    if scans == [] {
      assert script + scans == script;
    } else {
      ScansCatchUp(script, scans[..|scans| - 1]);
      assert (script + scans)[..|script + scans| - 1] == script + scans[..|scans| - 1];
    }
  }
}
