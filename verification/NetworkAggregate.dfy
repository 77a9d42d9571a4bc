/** Network assessment: the per-frame streaming accumulation and the pre-aggregated fast path. */
module NetworkAggregate {

  import opened Arithmetic
  import opened Counting
  import opened GroupBy
  import opened NetworkClock
  import opened Wrappers

  /** A frame row with its materialised network id, frame type and time of day. */
  datatype Frame = Frame(nid: Option<nat>, frmType: Option<string>, clock: int)

  /** What the summary of a row says. */
  datatype Summary = Summary(nid: Option<nat>, frmType: Option<string>)

  /** A row of the stream: what is materialised, its summary, and the network id that decoding its bytes gives. */
  datatype Row = Row(nid: Option<nat>, frmType: Option<string>, summary: Summary, decodedNid: Option<nat>, clock: int)

  function FirstKnown<T>(a: Option<T>, b: Option<T>): Option<T> {
    if a.Some? then a else b
  }

  /** The network id is materialised, in the summary or decoded, in this order; the type is not decoded. */
  function Materialised(row: Row): Frame {
    Frame(FirstKnown(row.nid, FirstKnown(row.summary.nid, row.decodedNid)),
          FirstKnown(row.frmType, row.summary.frmType), row.clock)
  }

  function AllMaterialised(rows: seq<Row>): (frames: seq<Frame>)
    ensures |frames| == |rows| && forall i | 0 <= i < |rows| :: frames[i] == Materialised(rows[i])
  {
    seq(|rows|, i requires 0 <= i < |rows| => Materialised(rows[i]))
  }

  const UNKNOWN := "UNKNOWN"

  function Kind(frmType: Option<string>): string {
    if frmType.None? || frmType.value == "" then UNKNOWN else frmType.value
  }

  /** What is counted under type `k`: frames of that type, and under UNKNOWN also those without a type. */
  predicate CountsAs(frmType: Option<string>, k: string) {
    if k == "UNKNOWN" then frmType.None? || frmType == Some("") || frmType == Some("UNKNOWN")
    else k != "" && frmType == Some(k)
  }

  lemma KindMeans(frmType: Option<string>, k: string)
    ensures Kind(frmType) == k <==> CountsAs(frmType, k)
  {
  }

  /** A row belongs to the network that is materialised, or else in its summary, or else decoded from its bytes. */
  predicate IsIn(row: Row, n: nat) {
    || row.nid == Some(n)
    || (row.nid.None? && row.summary.nid == Some(n))
    || (row.nid.None? && row.summary.nid.None? && row.decodedNid == Some(n))
  }

  /** A row that belongs to no network. */
  predicate IsNowhere(row: Row) {
    row.nid.None? && row.summary.nid.None? && row.decodedNid.None?
  }

  predicate RowCountsAs(row: Row, k: string) {
    if row.frmType.Some? then CountsAs(row.frmType, k) else CountsAs(row.summary.frmType, k)
  }

  /** A row of network `n`, which passes the filter. */
  function RowsOf(filter: Option<nat>, n: nat): Row -> bool {
    (row: Row) => (filter.None? || filter == Some(n)) && IsIn(row, n)
  }

  /** A row of network `n`, which passes the filter, that is counted under `k`. */
  function RowsAs(filter: Option<nat>, n: nat, k: string): Row -> bool {
    (row: Row) => (filter.None? || filter == Some(n)) && IsIn(row, n) && RowCountsAs(row, k)
  }

  function At<K>(m: map<K, nat>, k: K): nat {
    if k in m then m[k] else 0
  }

  /** A frame of a known network that passes the filter. */
  predicate Picked(nid: Option<nat>, filter: Option<nat>) {
    nid.Some? && (filter.None? || nid == filter)
  }

  /** A frame assigned to a network, at its absolute time. */
  datatype Stamp = Stamp(nid: nat, frmType: Option<string>, abs: int)

  function PickedFrames(frames: seq<Frame>, filter: Option<nat>): (fs: seq<Frame>)
    ensures forall f | f in fs :: Picked(f.nid, filter)
  {
    if frames == [] then []
    else
      var last := frames[|frames| - 1];
      PickedFrames(frames[..|frames| - 1], filter) + if Picked(last.nid, filter) then [last] else []
  }

  function Clocks(frames: seq<Frame>): (clocks: seq<int>)
    ensures |clocks| == |frames| && forall i | 0 <= i < |frames| :: clocks[i] == frames[i].clock
  {
    seq(|frames|, i requires 0 <= i < |frames| => frames[i].clock)
  }

  function StampAll(frames: seq<Frame>, abs: seq<int>): (stamps: seq<Stamp>)
    requires |abs| == |frames| && forall f | f in frames :: f.nid.Some?
    ensures |stamps| == |frames|
    ensures forall i | 0 <= i < |frames| :: stamps[i] == Stamp(frames[i].nid.value, frames[i].frmType, abs[i])
  {
    seq(|frames|, i requires 0 <= i < |frames| => Stamp(frames[i].nid.value, frames[i].frmType, abs[i]))
  }

  /** The assigned frames in order; one day offset runs through all networks together. */
  function Stamps(frames: seq<Frame>, filter: Option<nat>): seq<Stamp> {
    var fs := PickedFrames(frames, filter);
    StampAll(fs, Unwrapped(Clocks(fs)))
  }

  // ---------------------------------------------------------------------------
  // The streaming path
  // ---------------------------------------------------------------------------

  datatype Acc = Acc(frmCounts: map<string, nat>, timeline: seq<(int, string)>)

  const NO_FRAMES := Acc(map[], [])

  /** `count_frame`. */
  function CountFrame(acc: Acc, abs: int, kind: string): Acc {
    Acc(Add(acc.frmCounts, kind, 1), acc.timeline + [(abs, kind)])
  }

  function Accumulate(stamps: seq<Stamp>): map<nat, Acc> {
    if stamps == [] then map[]
    else
      var accs, s := Accumulate(stamps[..|stamps| - 1]), stamps[|stamps| - 1];
      accs[s.nid := CountFrame(if s.nid in accs then accs[s.nid] else NO_FRAMES, s.abs, Kind(s.frmType))]
  }

  lemma AccumulateAppend(stamps: seq<Stamp>, s: Stamp)
    ensures var accs := Accumulate(stamps);
            Accumulate(stamps + [s]) ==
            accs[s.nid := CountFrame(if s.nid in accs then accs[s.nid] else NO_FRAMES, s.abs, Kind(s.frmType))]
  {
    assert (stamps + [s])[..|stamps|] == stamps;
  }

  lemma PickedAppend(frames: seq<Frame>, filter: Option<nat>, f: Frame)
    ensures PickedFrames(frames + [f], filter) ==
            if Picked(f.nid, filter) then PickedFrames(frames, filter) + [f] else PickedFrames(frames, filter)
  {
    assert (frames + [f])[..|frames|] == frames;
    assert PickedFrames(frames, filter) + [] == PickedFrames(frames, filter);
  }

  lemma ClocksAppend(fs: seq<Frame>, f: Frame)
    ensures Clocks(fs + [f]) == Clocks(fs) + [f.clock]
  {
  }

  lemma StampAllAppend(fs: seq<Frame>, abs: seq<int>, f: Frame, a: int)
    requires |abs| == |fs| && (forall g | g in fs :: g.nid.Some?) && f.nid.Some?
    ensures (forall g | g in fs + [f] :: g.nid.Some?)
    ensures StampAll(fs + [f], abs + [a]) == StampAll(fs, abs) + [Stamp(f.nid.value, f.frmType, a)]
  {
  }

  /** A frame of no network, or of one that is filtered out, changes nothing. */
  lemma StampsSkip(frames: seq<Frame>, filter: Option<nat>, f: Frame)
    requires !Picked(f.nid, filter)
    ensures PickedFrames(frames + [f], filter) == PickedFrames(frames, filter)
    ensures Stamps(frames + [f], filter) == Stamps(frames, filter)
  {
    PickedAppend(frames, filter, f);
    hide PickedFrames;
  }

  /** A picked frame is stamped with the days that its clock and those before it have started. */
  lemma StampsMore(frames: seq<Frame>, filter: Option<nat>, f: Frame, fs: seq<Frame>, clocks: seq<int>)
    requires Picked(f.nid, filter) && fs == PickedFrames(frames, filter) && clocks == Clocks(fs)
    ensures Clocks(PickedFrames(frames + [f], filter)) == clocks + [f.clock]
    ensures Stamps(frames + [f], filter) ==
            Stamps(frames, filter) + [Stamp(f.nid.value, f.frmType, Days(clocks + [f.clock]) * DAY + f.clock)]
  {
    hide PickedFrames, Clocks, Unwrapped, Days, StampAll;
    PickedAppend(frames, filter, f);
    ClocksAppend(fs, f);
    UnwrappedAppend(clocks, f.clock);
    StampAllAppend(fs, Unwrapped(clocks), f, Days(clocks + [f.clock]) * DAY + f.clock);
  }

  lemma TracksDay(seen: seq<int>, day: nat, previous: Option<int>)
    requires Tracks(seen, day, previous)
    ensures day == Days(seen)
  {
  }

  /** The state of the streaming loop: networks, day offset and last reading. */
  datatype Stream = Stream(accs: map<nat, Acc>, day: nat, previous: Option<int>)

  function Advance(s: Stream, f: Frame): Stream
    requires f.nid.Some?
  {
    var day := if s.previous.Some? && f.clock < s.previous.value - HALF_DAY then s.day + 1 else s.day;
    var acc := if f.nid.value in s.accs then s.accs[f.nid.value] else NO_FRAMES;
    Stream(s.accs[f.nid.value := CountFrame(acc, day * DAY + f.clock, Kind(f.frmType))], day, Some(f.clock))
  }

  ghost predicate Streamed(frames: seq<Frame>, filter: Option<nat>, s: Stream) {
    && s.accs == Accumulate(Stamps(frames, filter))
    && Tracks(Clocks(PickedFrames(frames, filter)), s.day, s.previous)
  }

  lemma StreamSkip(frames: seq<Frame>, filter: Option<nat>, s: Stream, f: Frame)
    requires Streamed(frames, filter, s) && (f.nid.None? || (filter.Some? && f.nid != filter))
    ensures Streamed(frames + [f], filter, s) && |Stamps(frames + [f], filter)| == |Stamps(frames, filter)|
  {
    StampsSkip(frames, filter, f);
  }

  lemma AdvanceTracks(clocks: seq<int>, s: Stream, f: Frame)
    requires Tracks(clocks, s.day, s.previous) && f.nid.Some?
    ensures Tracks(clocks + [f.clock], Advance(s, f).day, Advance(s, f).previous)
    ensures Advance(s, f).day == Days(clocks + [f.clock])
  {
    TrackStep(clocks, s.day, s.previous, f.clock);
    TracksDay(clocks + [f.clock], Advance(s, f).day, Advance(s, f).previous);
    hide Tracks, Days;
  }

  lemma AdvanceAccs(stamps: seq<Stamp>, s: Stream, f: Frame)
    requires s.accs == Accumulate(stamps) && f.nid.Some?
    ensures Advance(s, f).accs ==
            Accumulate(stamps + [Stamp(f.nid.value, f.frmType, Advance(s, f).day * DAY + f.clock)])
  {
    AccumulateAppend(stamps, Stamp(f.nid.value, f.frmType, Advance(s, f).day * DAY + f.clock));
    hide Accumulate, CountFrame;
  }

  lemma StreamAdvance(frames: seq<Frame>, filter: Option<nat>, s: Stream, f: Frame)
    requires Streamed(frames, filter, s) && f.nid.Some? && (filter.None? || f.nid == filter)
    ensures Streamed(frames + [f], filter, Advance(s, f))
    ensures |Stamps(frames + [f], filter)| == |Stamps(frames, filter)| + 1
  {
    assert Picked(f.nid, filter);
    hide *;
    var fs := PickedFrames(frames, filter);
    StreamedIs(frames, filter, s);
    AdvanceTracks(Clocks(fs), s, f);
    AdvanceAccs(Stamps(frames, filter), s, f);
    StampsMore(frames, filter, f, fs, Clocks(fs));
    StreamedIs(frames + [f], filter, Advance(s, f));
  }

  lemma StreamedIs(frames: seq<Frame>, filter: Option<nat>, s: Stream)
    ensures Streamed(frames, filter, s) <==>
              && s.accs == Accumulate(Stamps(frames, filter))
              && Tracks(Clocks(PickedFrames(frames, filter)), s.day, s.previous)
  {
  }

  /** The part of the streaming loop that counts an assigned frame. */
  method CountItem(s: Stream, item: Frame) returns (t: Stream)
    requires item.nid.Some?
    ensures t == Advance(s, item)
  {
    var nid, clock, dayOffset := item.nid.value, item.clock, s.day;
    if s.previous.Some? && clock < s.previous.value - HALF_DAY {
      dayOffset := dayOffset + 1;
    }
    var abs := dayOffset * DAY + clock;
    var acc := if nid in s.accs then s.accs[nid] else NO_FRAMES;
    t := Stream(s.accs[nid := CountFrame(acc, abs, Kind(item.frmType))], dayOffset, Some(clock));
  }

  /** The part of the streaming loop that finds out what a row is. */
  method Identify(row: Row) returns (item: Frame)
    ensures item == Materialised(row)
  {
    var nid, frm := row.nid, row.frmType;
    if nid.None? || frm.None? {
      if nid.None? {
        nid := row.summary.nid;
      }
      if frm.None? {
        frm := row.summary.frmType;
      }
    }
    if nid.None? {
      nid := row.decodedNid;
    }
    item := Frame(nid, frm, row.clock);
  }

  datatype Fate = Assigned | Unassigned | Filtered

  /** One frame of the streaming loop: unassigned and filtered frames are skipped, the others are counted. */
  method StreamItem(ghost frames: seq<Frame>, filter: Option<nat>, s: Stream, item: Frame)
    returns (t: Stream, fate: Fate)
    requires Streamed(frames, filter, s)
    ensures Streamed(frames + [item], filter, t)
    ensures |Stamps(frames + [item], filter)| == |Stamps(frames, filter)| + if fate == Assigned then 1 else 0
    ensures filter.None? ==> fate != Filtered
    ensures fate == Unassigned <==> item.nid.None?
  {
    hide *;
    if item.nid.None? {
      StreamSkip(frames, filter, s, item);
      return s, Unassigned;
    }
    if filter.Some? && item.nid != filter {
      StreamSkip(frames, filter, s, item);
      return s, Filtered;
    }
    StreamAdvance(frames, filter, s, item);
    t := CountItem(s, item);
    fate := Assigned;
  }

  /** The networks are those of the rows that pass, and each counts its rows by type. */
  ghost predicate CountsRows(rows: seq<Row>, filter: Option<nat>, accs: map<nat, Acc>) {
    && (forall n :: n in accs <==> NumberOf(rows, RowsOf(filter, n)) > 0)
    && (forall n, k | n in accs :: At(accs[n].frmCounts, k) == NumberOf(rows, RowsAs(filter, n, k)))
  }

  /** What the stream finds: every row is counted and is of no network, filtered out or assigned; the networks are
      accumulated from the stamps of the assigned rows, and count these rows by type. */
  ghost predicate IsAssessed(rows: seq<Row>, filter: Option<nat>, accs: map<nat, Acc>, counted: nat, unassigned: nat,
                             filtered: nat)
  {
    var stamps := Stamps(AllMaterialised(rows), filter);
    && counted == |rows| == unassigned + filtered + |stamps|
    && unassigned == NumberOf(rows, IsNowhere) && (filter.None? ==> filtered == 0)
    && accs == Accumulate(stamps) && CountsRows(rows, filter, accs)
  }

  /** After `i` rows: networks, day offset and counters are those of these rows. */
  ghost predicate StreamedTo(rows: seq<Row>, filter: Option<nat>, i: nat, s: Stream, unassigned: nat, filtered: nat) {
    && i <= |rows| && Streamed(AllMaterialised(rows)[..i], filter, s)
    && i == unassigned + filtered + |Stamps(AllMaterialised(rows)[..i], filter)|
    && (filter.None? ==> filtered == 0) && unassigned == NumberOf(rows[..i], IsNowhere)
  }

  lemma StreamedStart(rows: seq<Row>, filter: Option<nat>)
    ensures StreamedTo(rows, filter, 0, Stream(map[], 0, None), 0, 0)
  {
    NothingStreamed(filter);
    assert AllMaterialised(rows)[..0] == [];
    hide Streamed, Stamps;
  }

  lemma StreamedStep(rows: seq<Row>, filter: Option<nat>, i: nat, s: Stream, unassigned: nat, filtered: nat,
                     t: Stream, fate: Fate)
    requires StreamedTo(rows, filter, i, s, unassigned, filtered) && i < |rows|
    requires var frames, item := AllMaterialised(rows)[..i], Materialised(rows[i]);
             && Streamed(frames + [item], filter, t)
             && |Stamps(frames + [item], filter)| == |Stamps(frames, filter)| + (if fate == Assigned then 1 else 0)
             && (filter.None? ==> fate != Filtered) && (fate == Unassigned <==> item.nid.None?)
    ensures StreamedTo(rows, filter, i + 1, t, unassigned + (if fate == Unassigned then 1 else 0),
                       filtered + (if fate == Filtered then 1 else 0))
  {
    hide Streamed, Stamps, NumberOf;
    MaterialisedAt(rows, i);
    NumberAppend(rows[..i], rows[i], IsNowhere);
    assert rows[..i + 1] == rows[..i] + [rows[i]];
    assert AllMaterialised(rows)[..i + 1] == AllMaterialised(rows)[..i] + [Materialised(rows[i])];
  }

  lemma StreamedBefore(rows: seq<Row>, filter: Option<nat>, i: nat, s: Stream, unassigned: nat, filtered: nat)
    requires StreamedTo(rows, filter, i, s, unassigned, filtered)
    ensures i <= |rows| && Streamed(AllMaterialised(rows)[..i], filter, s)
  {
    hide Streamed, Stamps, NumberOf;
  }

  /** What the stream has found after all rows. */
  lemma StreamedEnd(rows: seq<Row>, filter: Option<nat>, s: Stream, unassigned: nat, filtered: nat)
    requires StreamedTo(rows, filter, |rows|, s, unassigned, filtered)
    ensures IsAssessed(rows, filter, s.accs, |rows|, unassigned, filtered)
  {
    assert AllMaterialised(rows)[..|rows|] == AllMaterialised(rows) && rows[..|rows|] == rows;
    StreamedAccs(AllMaterialised(rows), filter, s);
    AllRowsMean(rows, filter);
    hide CountsRows, Accumulate, Stamps, AllMaterialised, NumberOf, Streamed;
  }

  lemma AllRowsMean(rows: seq<Row>, filter: Option<nat>)
    ensures CountsRows(rows, filter, Accumulate(Stamps(AllMaterialised(rows), filter)))
  {
    hide Accumulate, Stamps, AllMaterialised, NumberOf, RowsOf, RowsAs, At;
    var accs := Accumulate(Stamps(AllMaterialised(rows), filter));
    forall n ensures n in accs <==> NumberOf(rows, RowsOf(filter, n)) > 0 {
      RowsMean(rows, filter, n, UNKNOWN);
    }
    forall n, k | n in accs ensures At(accs[n].frmCounts, k) == NumberOf(rows, RowsAs(filter, n, k)) {
      RowsMean(rows, filter, n, k);
    }
  }

  /** One row of the streaming loop. */
  method StreamRow(rows: seq<Row>, filter: Option<nat>, i: nat, s: Stream, ghost unassigned: nat, ghost filtered: nat)
    returns (t: Stream, fate: Fate)
    requires StreamedTo(rows, filter, i, s, unassigned, filtered) && i < |rows|
    ensures StreamedTo(rows, filter, i + 1, t, unassigned + (if fate == Unassigned then 1 else 0),
                       filtered + (if fate == Filtered then 1 else 0))
  {
    hide *;
    StreamedBefore(rows, filter, i, s, unassigned, filtered);
    var item := Identify(rows[i]);
    ghost var frames := AllMaterialised(rows)[..i];
    t, fate := StreamItem(frames, filter, s, item);
    StreamedStep(rows, filter, i, s, unassigned, filtered, t, fate);
  }

  /** `assess_by_network_stream`: the loop over the rows. */
  method AssessStream(rows: seq<Row>, filter: Option<nat>)
    returns (accs: map<nat, Acc>, counted: nat, unassigned: nat, filtered: nat)
    ensures IsAssessed(rows, filter, accs, counted, unassigned, filtered)
  {
    hide *;
    var stream := Stream(map[], 0, None);
    counted, unassigned, filtered := 0, 0, 0;
    StreamedStart(rows, filter);
    while counted < |rows|
      invariant StreamedTo(rows, filter, counted, stream, unassigned, filtered)
      invariant counted <= |rows|
    {
      var fate;
      stream, fate := StreamRow(rows, filter, counted, stream, unassigned, filtered);
      unassigned := unassigned + if fate == Unassigned then 1 else 0;
      filtered := filtered + if fate == Filtered then 1 else 0;
      counted := counted + 1;
    }
    StreamedEnd(rows, filter, stream, unassigned, filtered);
    accs := stream.accs;
  }

  function StampsOf(n: nat): Stamp -> bool {
    (s: Stamp) => s.nid == n
  }

  function StampsAs(n: nat, k: string): Stamp -> bool {
    (s: Stamp) => s.nid == n && CountsAs(s.frmType, k)
  }

  lemma {:induction false} AccumulateMeans(stamps: seq<Stamp>, n: nat, k: string)
    ensures var accs := Accumulate(stamps);
            && (n in accs <==> NumberOf(stamps, StampsOf(n)) > 0)
            && (n in accs ==> At(accs[n].frmCounts, k) == NumberOf(stamps, StampsAs(n, k)))
            && (n !in accs ==> NumberOf(stamps, StampsAs(n, k)) == 0)
  {
    if stamps != [] {
      AccumulateMeans(stamps[..|stamps| - 1], n, k);
      KindMeans(stamps[|stamps| - 1].frmType, k);
      hide Kind, CountsAs;
    }
  }

  function FramesAs(filter: Option<nat>, wanted: Frame -> bool): Frame -> bool {
    (f: Frame) => Picked(f.nid, filter) && wanted(f)
  }

  lemma {:induction false} PickedNumber(frames: seq<Frame>, filter: Option<nat>, wanted: Frame -> bool)
    ensures NumberOf(PickedFrames(frames, filter), wanted) == NumberOf(frames, FramesAs(filter, wanted))
  {
    if frames == [] {
      assert PickedFrames(frames, filter) == [];
    } else {
      var init, last := frames[..|frames| - 1], frames[|frames| - 1];
      PickedNumber(init, filter, wanted);
      PickedAppend(init, filter, last);
      hide *;
      assert frames == init + [last];
      NumberAppend(PickedFrames(init, filter), last, wanted);
      NumberAppend(init, last, FramesAs(filter, wanted));
      FramesAsMeans(filter, wanted, last);
    }
  }

  lemma FramesAsMeans(filter: Option<nat>, wanted: Frame -> bool, f: Frame)
    ensures FramesAs(filter, wanted)(f) <==> Picked(f.nid, filter) && wanted(f)
  {
  }

  /** The stamps of which something is wanted are the rows of which it is wanted. */
  lemma StampsFromRows(rows: seq<Row>, filter: Option<nat>, p: Stamp -> bool, q: Row -> bool)
    requires forall f: Frame, abs: int | f.nid.Some? && Picked(f.nid, filter) ::
               p(Stamp(f.nid.value, f.frmType, abs)) == p(Stamp(f.nid.value, f.frmType, 0))
    requires forall row :: q(row) <==>
               var f := Materialised(row); Picked(f.nid, filter) && p(Stamp(f.nid.value, f.frmType, 0))
    ensures NumberOf(Stamps(AllMaterialised(rows), filter), p) == NumberOf(rows, q)
  {
    var frames := AllMaterialised(rows);
    var fs := PickedFrames(frames, filter);
    var wanted := (f: Frame) => f.nid.Some? && p(Stamp(f.nid.value, f.frmType, 0));
    hide PickedFrames, Unwrapped, Materialised, NumberOf;
    assert forall i | 0 <= i < |fs| :: fs[i] in fs;
    SamePlaces(Stamps(frames, filter), fs, p, wanted);
    PickedNumber(frames, filter, wanted);
    SamePlaces(frames, rows, FramesAs(filter, wanted), q);
  }

  lemma RowsMean(rows: seq<Row>, filter: Option<nat>, n: nat, k: string)
    ensures var accs := Accumulate(Stamps(AllMaterialised(rows), filter));
            && (n in accs <==> NumberOf(rows, RowsOf(filter, n)) > 0)
            && (n in accs ==> At(accs[n].frmCounts, k) == NumberOf(rows, RowsAs(filter, n, k)))
  {
    AccumulateMeans(Stamps(AllMaterialised(rows), filter), n, k);
    hide Accumulate, Stamps, AllMaterialised, NumberOf, CountsAs;
    StampsFromRows(rows, filter, StampsOf(n), RowsOf(filter, n));
    StampsFromRows(rows, filter, StampsAs(n, k), RowsAs(filter, n, k));
  }

  lemma MaterialisedAt(rows: seq<Row>, i: nat)
    requires i < |rows|
    ensures AllMaterialised(rows)[i] == Materialised(rows[i])
    ensures Materialised(rows[i]).nid.None? <==> IsNowhere(rows[i])
  {
  }

  lemma NothingStreamed(filter: Option<nat>)
    ensures Streamed([], filter, Stream(map[], 0, None)) && Stamps([], filter) == []
  {
  }

  lemma StreamedAccs(frames: seq<Frame>, filter: Option<nat>, s: Stream)
    requires Streamed(frames, filter, s)
    ensures s.accs == Accumulate(Stamps(frames, filter))
  {
  }

  // ---------------------------------------------------------------------------
  // Buckets of a period
  // ---------------------------------------------------------------------------

  function BucketStart(abs: int, period: int): int
    requires period > 0
  {
    abs - abs % period
  }

  function AddToBucket(buckets: map<int, map<string, nat>>, start: int, kind: string, n: nat):
      map<int, map<string, nat>> {
    buckets[start := Add(if start in buckets then buckets[start] else map[], kind, n)]
  }

  function BucketsOf(timeline: seq<(int, string)>, period: int): map<int, map<string, nat>>
    requires period > 0
  {
    if timeline == [] then map[]
    else
      var last := timeline[|timeline| - 1];
      AddToBucket(BucketsOf(timeline[..|timeline| - 1], period), BucketStart(last.0, period), last.1, 1)
  }

  /** The bucket that starts at `b` is the stretch of one period from `b`, which is a multiple of the period. */
  predicate InBucket(abs: int, b: int, period: int)
    requires period > 0
  {
    b % period == 0 && b <= abs < b + period
  }

  lemma BucketStartMeans(abs: int, b: int, period: int)
    requires period > 0
    ensures BucketStart(abs, period) == b <==> InBucket(abs, b, period)
  {
    var q := abs / period;
    assert abs == q * period + abs % period;
    Quotient(q * period, period, q, 0);
    if InBucket(abs, b, period) {
      var r := b / period;
      assert b == r * period;
      Quotient(abs, period, r, abs - b);
    }
  }

  function EntriesAt(b: int, period: int): ((int, string)) -> bool
    requires period > 0
  {
    (e: (int, string)) => InBucket(e.0, b, period)
  }

  function EntriesAs(b: int, period: int, k: string): ((int, string)) -> bool
    requires period > 0
  {
    (e: (int, string)) => InBucket(e.0, b, period) && e.1 == k
  }

  /** A bucket is there when something falls into it, and counts what does. */
  lemma {:induction false} BucketsMean(timeline: seq<(int, string)>, period: int, b: int, k: string)
    requires period > 0
    ensures var buckets := BucketsOf(timeline, period);
            && (b in buckets <==> NumberOf(timeline, EntriesAt(b, period)) > 0)
            && (b in buckets ==> At(buckets[b], k) == NumberOf(timeline, EntriesAs(b, period, k)))
            && (b !in buckets ==> NumberOf(timeline, EntriesAs(b, period, k)) == 0)
  {
    if timeline != [] {
      BucketsMean(timeline[..|timeline| - 1], period, b, k);
      BucketStartMeans(timeline[|timeline| - 1].0, b, period);
      hide BucketStart, InBucket;
    }
  }

  /** `bucket_counters`. */
  method BucketCounters(timeline: seq<(int, string)>, period: int) returns (buckets: map<int, map<string, nat>>)
    requires period > 0
    ensures buckets == BucketsOf(timeline, period)
    ensures forall b, k | b in buckets :: At(buckets[b], k) == NumberOf(timeline, EntriesAs(b, period, k))
    ensures forall b :: b in buckets <==> NumberOf(timeline, EntriesAt(b, period)) > 0
  {
    buckets := map[];
    for i := 0 to |timeline|
      invariant buckets == BucketsOf(timeline[..i], period)
    {
      assert timeline[..i + 1][..i] == timeline[..i];
      var (abs, kind) := timeline[i];
      var start := abs - abs % period;
      if start !in buckets {
        buckets := buckets[start := map[]];
      }
      buckets := buckets[start := Add(buckets[start], kind, 1)];
    }
    assert timeline[..|timeline|] == timeline;
    hide *;
    forall b, k | b in buckets ensures At(buckets[b], k) == NumberOf(timeline, EntriesAs(b, period, k)) {
      BucketsMean(timeline, period, b, k);
    }
    forall b ensures b in buckets <==> NumberOf(timeline, EntriesAt(b, period)) > 0 {
      BucketsMean(timeline, period, b, UNKNOWN);
    }
  }

  // ---------------------------------------------------------------------------
  // The aggregate path
  // ---------------------------------------------------------------------------

  /** The groups of the count query and of the bucket query. */
  datatype CountKey = CountKey(nid: Option<nat>, frmType: Option<string>)
  datatype BucketKey = BucketKey(nid: Option<nat>, frmType: Option<string>, bucket: int)

  function AggCounts(rows: seq<(CountKey, nat)>, filter: Option<nat>): map<nat, map<string, nat>> {
    if rows == [] then map[]
    else
      var m, (key, cnt) := AggCounts(rows[..|rows| - 1], filter), rows[|rows| - 1];
      if !Picked(key.nid, filter) then m
      else m[key.nid.value := Add(if key.nid.value in m then m[key.nid.value] else map[], Kind(key.frmType), cnt)]
  }

  function CountKeysAs(n: nat, k: string): CountKey -> bool {
    (key: CountKey) => key.nid == Some(n) && CountsAs(key.frmType, k)
  }

  /** The count of a type is the weight of the network's rows of that type. */
  lemma {:induction false} AggCountsMean(rows: seq<(CountKey, nat)>, filter: Option<nat>, n: nat, k: string)
    ensures var accs := AggCounts(rows, filter);
            && (n in accs ==>
                  (filter.None? || filter == Some(n)) && At(accs[n], k) == WeightOf(rows, CountKeysAs(n, k)))
            && (n !in accs && (filter.None? || filter == Some(n)) ==> WeightOf(rows, CountKeysAs(n, k)) == 0)
  {
    if rows != [] {
      AggCountsMean(rows[..|rows| - 1], filter, n, k);
      KindMeans(rows[|rows| - 1].0.frmType, k);
      hide Kind, CountsAs;
    }
  }

  /** `assess_by_network_aggregate`: the loop over the count rows. */
  method AggregateCounts(rows: seq<(CountKey, nat)>, filter: Option<nat>) returns (accs: map<nat, map<string, nat>>)
    ensures accs == AggCounts(rows, filter)
    ensures forall n | n in accs :: filter.None? || filter == Some(n)
    ensures forall n, k | filter.None? || filter == Some(n) ::
              (if n in accs then At(accs[n], k) else 0) == WeightOf(rows, CountKeysAs(n, k))
  {
    accs := map[];
    for i := 0 to |rows|
      invariant accs == AggCounts(rows[..i], filter)
    {
      assert rows[..i + 1][..i] == rows[..i];
      var (key, cnt) := rows[i];
      if key.nid.None? || (filter.Some? && key.nid != filter) {
        continue;
      }
      var nid := key.nid.value;
      if nid !in accs {
        accs := accs[nid := map[]];
      }
      accs := accs[nid := Add(accs[nid], Kind(key.frmType), cnt)];
    }
    assert rows[..|rows|] == rows;
    hide *;
    forall n | n in accs ensures filter.None? || filter == Some(n) {
      AggCountsMean(rows, filter, n, UNKNOWN);
    }
    forall n, k | filter.None? || filter == Some(n)
      ensures (if n in accs then At(accs[n], k) else 0) == WeightOf(rows, CountKeysAs(n, k))
    {
      AggCountsMean(rows, filter, n, k);
    }
  }

  function AggBuckets(rows: seq<(BucketKey, nat)>, filter: Option<nat>, known: set<nat>):
    map<nat, map<int, map<string, nat>>>
  {
    if rows == [] then map[]
    else
      var m, (key, cnt) := AggBuckets(rows[..|rows| - 1], filter, known), rows[|rows| - 1];
      if !Picked(key.nid, filter) || key.nid.value !in known then m
      else m[key.nid.value := AddToBucket(if key.nid.value in m then m[key.nid.value] else map[],
                                          key.bucket, Kind(key.frmType), cnt)]
  }

  function BucketKeysAs(n: nat, b: int, k: string): BucketKey -> bool {
    (key: BucketKey) => key.nid == Some(n) && key.bucket == b && CountsAs(key.frmType, k)
  }

  /** What is counted for a network, a bucket and a type. */
  function BucketCount(m: map<nat, map<int, map<string, nat>>>, n: nat, b: int, k: string): nat {
    if n in m && b in m[n] then At(m[n][b], k) else 0
  }

  /** The count of a type in a bucket is the weight of the network's rows of that type and bucket. */
  lemma {:induction false} AggBucketsMean(rows: seq<(BucketKey, nat)>, filter: Option<nat>, known: set<nat>, n: nat,
                                          b: int, k: string)
    ensures BucketCount(AggBuckets(rows, filter, known), n, b, k) ==
            if n in known && (filter.None? || filter == Some(n)) then WeightOf(rows, BucketKeysAs(n, b, k)) else 0
  {
    if rows != [] {
      AggBucketsMean(rows[..|rows| - 1], filter, known, n, b, k);
      KindMeans(rows[|rows| - 1].0.frmType, k);
      hide Kind, CountsAs;
    }
  }

  /** `assess_by_network_aggregate`: the loop over the bucket rows of one period. */
  method AggregateBuckets(rows: seq<(BucketKey, nat)>, filter: Option<nat>, known: set<nat>)
    returns (buckets: map<nat, map<int, map<string, nat>>>)
    ensures buckets == AggBuckets(rows, filter, known)
    ensures forall n, b, k ::
              BucketCount(buckets, n, b, k) ==
              if n in known && (filter.None? || filter == Some(n)) then WeightOf(rows, BucketKeysAs(n, b, k)) else 0
  {
    buckets := map[];
    for i := 0 to |rows|
      invariant buckets == AggBuckets(rows[..i], filter, known)
    {
      assert rows[..i + 1][..i] == rows[..i];
      var (key, cnt) := rows[i];
      if key.nid.None? || (filter.Some? && key.nid != filter) || key.nid.value !in known {
        continue;
      }
      var nid := key.nid.value;
      var perBucket := if nid in buckets then buckets[nid] else map[];
      var counter := if key.bucket in perBucket then perBucket[key.bucket] else map[];
      buckets := buckets[nid := perBucket[key.bucket := Add(counter, Kind(key.frmType), cnt)]];
    }
    assert rows[..|rows|] == rows;
    hide *;
    forall n, b, k
      ensures BucketCount(buckets, n, b, k) ==
              if n in known && (filter.None? || filter == Some(n)) then WeightOf(rows, BucketKeysAs(n, b, k)) else 0
    {
      AggBucketsMean(rows, filter, known, n, b, k);
    }
  }

  // ---------------------------------------------------------------------------
  // Both paths as tallies
  // ---------------------------------------------------------------------------

  function ForNetwork(n: nat): CountKey -> bool {
    (k: CountKey) => k.nid == Some(n)
  }

  function CountKind(): CountKey -> string {
    (k: CountKey) => Kind(k.frmType)
  }

  function ForBucket(n: nat, b: int): BucketKey -> bool {
    (k: BucketKey) => k.nid == Some(n) && k.bucket == b
  }

  function BucketKind(): BucketKey -> string {
    (k: BucketKey) => Kind(k.frmType)
  }

  lemma {:induction false} AggCountsAt(rows: seq<(CountKey, nat)>, filter: Option<nat>, n: nat)
    ensures n in AggCounts(rows, filter) <==> Picked(Some(n), filter) && Any(rows, ForNetwork(n))
    ensures n in AggCounts(rows, filter) ==> AggCounts(rows, filter)[n] == Tally(rows, ForNetwork(n), CountKind())
    ensures Picked(Some(n), filter) && n !in AggCounts(rows, filter) ==>
            Tally(rows, ForNetwork(n), CountKind()) == map[]
  {
    if rows != [] {
      AggCountsAt(rows[..|rows| - 1], filter, n);
      AnyAppend(rows, ForNetwork(n));
    }
  }

  lemma {:induction false} AggBucketsAt(rows: seq<(BucketKey, nat)>, filter: Option<nat>, known: set<nat>, n: nat,
                                        b: int)
    requires Picked(Some(n), filter) && n in known
    ensures var m := AggBuckets(rows, filter, known); var buckets := if n in m then m[n] else map[];
            && (b in buckets <==> Any(rows, ForBucket(n, b)))
            && (b in buckets ==> buckets[b] == Tally(rows, ForBucket(n, b), BucketKind()))
            && (b !in buckets ==> Tally(rows, ForBucket(n, b), BucketKind()) == map[])
  {
    if rows != [] {
      AggBucketsAt(rows[..|rows| - 1], filter, known, n, b);
      AnyAppend(rows, ForBucket(n, b));
    }
  }

  function CountKeys(stamps: seq<Stamp>): (keys: seq<CountKey>)
    ensures |keys| == |stamps|
    ensures forall i | 0 <= i < |stamps| :: keys[i] == CountKey(Some(stamps[i].nid), stamps[i].frmType)
  {
    seq(|stamps|, i requires 0 <= i < |stamps| => CountKey(Some(stamps[i].nid), stamps[i].frmType))
  }

  function BucketKeys(stamps: seq<Stamp>, period: int): (keys: seq<BucketKey>)
    requires period > 0
    ensures |keys| == |stamps|
    ensures forall i | 0 <= i < |stamps| ::
              keys[i] == BucketKey(Some(stamps[i].nid), stamps[i].frmType, BucketStart(stamps[i].abs, period))
  {
    seq(|stamps|, i requires 0 <= i < |stamps| =>
      BucketKey(Some(stamps[i].nid), stamps[i].frmType, BucketStart(stamps[i].abs, period)))
  }

  lemma {:induction false} StreamCountsAt(stamps: seq<Stamp>, n: nat)
    ensures var accs, ones := Accumulate(stamps), Ones(CountKeys(stamps));
            && (n in accs <==> Any(ones, ForNetwork(n)))
            && (n in accs ==> accs[n].frmCounts == Tally(ones, ForNetwork(n), CountKind()))
            && (n !in accs ==> Tally(ones, ForNetwork(n), CountKind()) == map[])
  {
    if stamps != [] {
      var init := stamps[..|stamps| - 1];
      StreamCountsAt(init, n);
      var ones := Ones(CountKeys(stamps));
      assert ones[..|init|] == Ones(CountKeys(init));
      AnyAppend(ones, ForNetwork(n));
    }
  }

  /** The timeline of a network. */
  function TimelineFor(stamps: seq<Stamp>, n: nat): seq<(int, string)> {
    if n in Accumulate(stamps) then Accumulate(stamps)[n].timeline else []
  }

  lemma TimelineAppend(stamps: seq<Stamp>, n: nat)
    requires stamps != []
    ensures var init, s := stamps[..|stamps| - 1], stamps[|stamps| - 1];
            TimelineFor(stamps, n) ==
            if s.nid == n then TimelineFor(init, n) + [(s.abs, Kind(s.frmType))] else TimelineFor(init, n)
  {
  }

  lemma BucketsAppend(timeline: seq<(int, string)>, abs: int, kind: string, period: int)
    requires period > 0
    ensures BucketsOf(timeline + [(abs, kind)], period) ==
            AddToBucket(BucketsOf(timeline, period), BucketStart(abs, period), kind, 1)
  {
    assert (timeline + [(abs, kind)])[..|timeline|] == timeline;
  }

  /** A frame of network `n` that falls into the bucket and is counted under `k`. */
  function StampsIn(n: nat, b: int, period: int, k: string): Stamp -> bool
    requires period > 0
  {
    (s: Stamp) => s.nid == n && InBucket(s.abs, b, period) && CountsAs(s.frmType, k)
  }

  lemma {:induction false} TimelineNumber(stamps: seq<Stamp>, n: nat, b: int, period: int, k: string)
    requires period > 0
    ensures NumberOf(TimelineFor(stamps, n), EntriesAs(b, period, k)) == NumberOf(stamps, StampsIn(n, b, period, k))
  {
    if stamps != [] {
      var init, s := stamps[..|stamps| - 1], stamps[|stamps| - 1];
      TimelineNumber(init, n, b, period, k);
      TimelineAppend(stamps, n);
      KindMeans(s.frmType, k);
      NumberAppend(TimelineFor(init, n), (s.abs, Kind(s.frmType)), EntriesAs(b, period, k));
      hide TimelineFor, Kind, CountsAs, InBucket;
    }
  }

  /** In the stream the count of a type in a bucket is the number of the network's frames of that type that fall
      into it. */
  lemma StreamBucketsMean(stamps: seq<Stamp>, n: nat, b: int, period: int, k: string)
    requires period > 0
    ensures var buckets := BucketsOf(TimelineFor(stamps, n), period);
            (if b in buckets then At(buckets[b], k) else 0) == NumberOf(stamps, StampsIn(n, b, period, k))
  {
    BucketsMean(TimelineFor(stamps, n), period, b, k);
    TimelineNumber(stamps, n, b, period, k);
    hide TimelineFor, BucketsOf, NumberOf;
  }

  /** The bucket counters of a network at `b` are the tally of its rows there. */
  ghost predicate TalliesAt(buckets: map<int, map<string, nat>>, ones: seq<(BucketKey, nat)>, n: nat, b: int) {
    && (b in buckets <==> Any(ones, ForBucket(n, b)))
    && (b in buckets ==> buckets[b] == Tally(ones, ForBucket(n, b), BucketKind()))
    && (b !in buckets ==> Tally(ones, ForBucket(n, b), BucketKind()) == map[])
  }

  lemma TalliesStep(buckets: map<int, map<string, nat>>, ones: seq<(BucketKey, nat)>, n: nat, b: int, key: BucketKey)
    requires ones != [] && ones[|ones| - 1] == (key, 1) && key.nid.Some?
    requires TalliesAt(buckets, ones[..|ones| - 1], n, b)
    ensures TalliesAt(if key.nid.value == n then AddToBucket(buckets, key.bucket, Kind(key.frmType), 1) else buckets,
                      ones, n, b)
  {
    AnyAppend(ones, ForBucket(n, b));
    hide Any;
  }

  lemma {:induction false} StreamBucketsAt(stamps: seq<Stamp>, n: nat, period: int, b: int)
    requires period > 0
    ensures TalliesAt(BucketsOf(TimelineFor(stamps, n), period), Ones(BucketKeys(stamps, period)), n, b)
  {
    if stamps != [] {
      var init, s := stamps[..|stamps| - 1], stamps[|stamps| - 1];
      var ones := Ones(BucketKeys(stamps, period));
      assert ones[..|init|] == Ones(BucketKeys(init, period));
      hide BucketsOf, TimelineFor, TalliesAt, AddToBucket, Kind, BucketStart;
      StreamBucketsAt(init, n, period, b);
      TimelineAppend(stamps, n);
      BucketsAppend(TimelineFor(init, n), s.abs, Kind(s.frmType), period);
      TalliesStep(BucketsOf(TimelineFor(init, n), period), ones, n, b,
                  BucketKey(Some(s.nid), s.frmType, BucketStart(s.abs, period)));
    }
  }
}
