/** The pre-aggregated assessment against the streaming one. */
module NetworkFastPath {

  import opened Arithmetic
  import opened GroupBy
  import opened NetworkAggregate
  import opened NetworkClock
  import opened NetworkCycles
  import opened Wrappers

  /** The rows the bucket query works on: whole seconds, unwrapped by its window functions. */
  function QueryStamps(frames: seq<Frame>, filter: Option<nat>): seq<Stamp> {
    var fs := PickedFrames(frames, filter);
    StampAll(fs, WindowForm(QueryClocks(Clocks(fs))))
  }

  /** The query takes over the networks and types of the stream, and places each frame earlier by its lag. */
  lemma QueryStampAt(frames: seq<Frame>, filter: Option<nat>, i: nat)
    requires i < |Stamps(frames, filter)|
    ensures |QueryStamps(frames, filter)| == |Stamps(frames, filter)| == |PickedFrames(frames, filter)|
    ensures var s := Stamps(frames, filter)[i];
            QueryStamps(frames, filter)[i] == s.(abs := s.abs - Lag(Clocks(PickedFrames(frames, filter)), i))
  {
    QueryLags(Clocks(PickedFrames(frames, filter)), i);
    hide PickedFrames, Lag, WindowForm, Unwrapped;
  }

  // ---------------------------------------------------------------------------
  // What rows of a list of stamps give
  // ---------------------------------------------------------------------------

  /** The buckets the fast path uses for a network. */
  function Resolve(buckets: map<nat, Buckets>, n: nat): Buckets {
    if n in buckets then buckets[n] else map[]
  }

  lemma CountsAgree(stamps: seq<Stamp>, filter: Option<nat>, rows: seq<(CountKey, nat)>, n: nat)
    requires IsGroupBy(rows, CountKeys(stamps)) && (forall s | s in stamps :: Picked(Some(s.nid), filter))
    ensures n in AggCounts(rows, filter) <==> n in Accumulate(stamps)
    ensures n in Accumulate(stamps) ==> AggCounts(rows, filter)[n] == Accumulate(stamps)[n].frmCounts
  {
    var keys := CountKeys(stamps);
    AggCountsAt(rows, filter, n);
    StreamCountsAt(stamps, n);
    GroupAny(rows, keys, ForNetwork(n));
    GroupTally(rows, keys, ForNetwork(n), CountKind());
    if i :| 0 <= i < |Ones(keys)| && ForNetwork(n)(Ones(keys)[i].0) {
      assert stamps[i] in stamps;
    }
  }

  lemma BucketsAgree(stamps: seq<Stamp>, filter: Option<nat>, rows: seq<(BucketKey, nat)>, known: set<nat>,
                     period: int, n: nat)
    requires period > 0 && IsGroupBy(rows, BucketKeys(stamps, period))
    requires Picked(Some(n), filter) && n in known
    ensures Resolve(AggBuckets(rows, filter, known), n) == BucketsOf(TimelineFor(stamps, n), period)
  {
    var keys := BucketKeys(stamps, period);
    var fast, slow := Resolve(AggBuckets(rows, filter, known), n), BucketsOf(TimelineFor(stamps, n), period);
    forall b ensures (b in fast <==> b in slow) && (b in fast ==> fast[b] == slow[b]) {
      AggBucketsAt(rows, filter, known, n, b);
      StreamBucketsAt(stamps, n, period, b);
      GroupAny(rows, keys, ForBucket(n, b));
      GroupTally(rows, keys, ForBucket(n, b), BucketKind());
    }
  }

  lemma AllPicked(frames: seq<Frame>, filter: Option<nat>)
    ensures forall s | s in Stamps(frames, filter) :: Picked(Some(s.nid), filter)
  {
    var fs := PickedFrames(frames, filter);
    forall s | s in Stamps(frames, filter) ensures Picked(Some(s.nid), filter) {
      var i :| 0 <= i < |fs| && s == Stamps(frames, filter)[i];
      assert fs[i] in fs;
    }
  }

  lemma InAccumulate(stamps: seq<Stamp>, n: nat, filter: Option<nat>)
    requires n in Accumulate(stamps) && forall s | s in stamps :: Picked(Some(s.nid), filter)
    ensures Picked(Some(n), filter)
  {
    StreamCountsAt(stamps, n);
    var i :| 0 <= i < |Ones(CountKeys(stamps))| && ForNetwork(n)(Ones(CountKeys(stamps))[i].0);
    assert stamps[i] in stamps;
  }

  // ---------------------------------------------------------------------------
  // Shifting stamps back
  // ---------------------------------------------------------------------------

  /** The stamps `q` are those of `s`, each at the same time or earlier. */
  ghost predicate Shifted(s: seq<Stamp>, q: seq<Stamp>) {
    && |q| == |s|
    && forall i | 0 <= i < |s| :: q[i].nid == s[i].nid && q[i].frmType == s[i].frmType && q[i].abs <= s[i].abs
  }

  ghost predicate SameStarts(s: seq<Stamp>, q: seq<Stamp>, period: int)
    requires period > 0 && |q| == |s|
  {
    forall i | 0 <= i < |s| :: BucketStart(q[i].abs, period) == BucketStart(s[i].abs, period)
  }

  lemma SameKeys(s: seq<Stamp>, q: seq<Stamp>, period: int)
    requires period > 0 && Shifted(s, q) && SameStarts(s, q, period)
    ensures BucketKeys(q, period) == BucketKeys(s, period)
  {
  }

  lemma SameKeysSameBuckets(s: seq<Stamp>, q: seq<Stamp>, period: int, n: nat)
    requires period > 0 && BucketKeys(q, period) == BucketKeys(s, period)
    ensures BucketsOf(TimelineFor(q, n), period) == BucketsOf(TimelineFor(s, n), period)
  {
    var a, b := BucketsOf(TimelineFor(q, n), period), BucketsOf(TimelineFor(s, n), period);
    forall start ensures (start in a <==> start in b) && (start in a ==> a[start] == b[start]) {
      StreamBucketsAt(q, n, period, start);
      StreamBucketsAt(s, n, period, start);
    }
  }

  function Later(buckets: Buckets, from: int): (later: Buckets)
    ensures forall start :: start in later ==> start in buckets
  {
    map start | start in buckets && start >= from :: buckets[start]
  }

  /** The frames in buckets from `from` on. */
  ghost function FramesFrom(buckets: Buckets, from: int): nat {
    FramesInBuckets(Later(buckets, from))
  }

  /** How many frames of network `n` fall into buckets from `from` on. */
  function CountFrom(stamps: seq<Stamp>, n: nat, period: int, from: int): nat
    requires period > 0
  {
    if stamps == [] then 0
    else
      var last := stamps[|stamps| - 1];
      CountFrom(stamps[..|stamps| - 1], n, period, from)
        + if last.nid == n && BucketStart(last.abs, period) >= from then 1 else 0
  }

  lemma AddFrom(buckets: Buckets, start: int, kind: string, from: int)
    ensures FramesFrom(AddToBucket(buckets, start, kind, 1), from) ==
            FramesFrom(buckets, from) + if start >= from then 1 else 0
  {
    var counter := if start in buckets then buckets[start] else map[];
    var later, more := Later(buckets, from), Later(AddToBucket(buckets, start, kind, 1), from);
    AddTotal(counter, kind);
    hide FrameCount;
    if start >= from {
      assert more == later[start := Add(counter, kind, 1)];
      TotalUpdate(later, FrameCount, start, Add(counter, kind, 1));
      assert start !in buckets ==> FrameCount(counter) == 0;
    } else {
      assert more == later;
    }
  }

  lemma {:induction false} FramesFromCount(stamps: seq<Stamp>, n: nat, period: int, from: int)
    requires period > 0
    ensures FramesFrom(BucketsOf(TimelineFor(stamps, n), period), from) == CountFrom(stamps, n, period, from)
  {
    if stamps == [] {
      assert Later(map[], from) == map[];
    } else {
      var init, s := stamps[..|stamps| - 1], stamps[|stamps| - 1];
      FramesFromCount(init, n, period, from);
      TimelineAppend(stamps, n);
      BucketsAppend(TimelineFor(init, n), s.abs, Kind(s.frmType), period);
      AddFrom(BucketsOf(TimelineFor(init, n), period), BucketStart(s.abs, period), Kind(s.frmType), from);
      hide FramesFrom, BucketsOf, TimelineFor, AddToBucket, BucketStart, Kind;
    }
  }

  lemma StartMonotone(a: int, b: int, period: int)
    requires period > 0 && a <= b
    ensures BucketStart(a, period) <= BucketStart(b, period)
  {
    var i, j := a / period, b / period;
    assert a == i * period + a % period && b == j * period + b % period;
    Multiples(i, j, period);
    assert !(i > j);
  }

  lemma {:induction false} ShiftLoses(s: seq<Stamp>, q: seq<Stamp>, n: nat, period: int, from: int, k: nat)
    requires period > 0 && Shifted(s, q) && k < |s|
    ensures CountFrom(q, n, period, from) <= CountFrom(s, n, period, from)
    ensures s[k].nid == n && BucketStart(q[k].abs, period) < from <= BucketStart(s[k].abs, period) ==>
              CountFrom(q, n, period, from) < CountFrom(s, n, period, from)
  {
    var m := |s| - 1;
    StartMonotone(q[m].abs, s[m].abs, period);
    hide BucketStart;
    if m > 0 {
      ShiftLoses(s[..m], q[..m], n, period, from, if k < m then k else 0);
    }
  }

  /** Stamps that are moved back keep the buckets of every network if and only if each stays in its bucket: a
      frame that leaves its bucket cannot be made up for by another. */
  lemma BucketsExactly(s: seq<Stamp>, q: seq<Stamp>, period: int)
    requires period > 0 && Shifted(s, q)
    ensures (forall n | n in Accumulate(s) ::
               BucketsOf(TimelineFor(q, n), period) == BucketsOf(TimelineFor(s, n), period))
            <==> SameStarts(s, q, period)
  {
    hide BucketsOf, TimelineFor, BucketStart, Accumulate, BucketKeys;
    if SameStarts(s, q, period) {
      SameKeys(s, q, period);
      forall n | n in Accumulate(s)
        ensures BucketsOf(TimelineFor(q, n), period) == BucketsOf(TimelineFor(s, n), period)
      {
        SameKeysSameBuckets(s, q, period, n);
      }
    } else {
      var k :| 0 <= k < |s| && BucketStart(q[k].abs, period) != BucketStart(s[k].abs, period);
      var n, from := s[k].nid, BucketStart(s[k].abs, period);
      StartMonotone(q[k].abs, s[k].abs, period);
      ShiftLoses(s, q, n, period, from, k);
      FramesFromCount(s, n, period, from);
      FramesFromCount(q, n, period, from);
      HasNetwork(s, k);
    }
  }

  lemma {:induction false} HasNetwork(s: seq<Stamp>, k: nat)
    requires k < |s|
    ensures s[k].nid in Accumulate(s)
  {
    if k < |s| - 1 {
      HasNetwork(s[..|s| - 1], k);
    }
  }

  // ---------------------------------------------------------------------------
  // The fast path against the stream
  // ---------------------------------------------------------------------------

  /** Every frame is further into its bucket than the query places it back. */
  ghost predicate StayInBucket(frames: seq<Frame>, filter: Option<nat>, period: int)
    requires period > 0
  {
    var clocks := Clocks(PickedFrames(frames, filter));
    forall i | 0 <= i < |clocks| :: Unwrapped(clocks)[i] % period >= Lag(clocks, i)
  }

  lemma StartMoves(a: int, lag: int, period: int)
    requires period > 0 && lag >= 0
    ensures BucketStart(a - lag, period) == BucketStart(a, period) <==> a % period >= lag
  {
    var i, r := a / period, a % period;
    assert a == i * period + r;
    if r >= lag {
      Quotient(a - lag, period, i, r - lag);
    } else {
      StartBelow(a - lag, period);
    }
  }

  lemma StartBelow(a: int, period: int)
    requires period > 0
    ensures BucketStart(a, period) <= a
  {
  }

  lemma ShiftAt(frames: seq<Frame>, filter: Option<nat>, period: int, i: nat)
    requires period > 0 && i < |Stamps(frames, filter)|
    ensures var s, q := Stamps(frames, filter), QueryStamps(frames, filter);
            var clocks := Clocks(PickedFrames(frames, filter));
            && |q| == |s| == |clocks|
            && q[i].nid == s[i].nid && q[i].frmType == s[i].frmType && q[i].abs <= s[i].abs
            && (BucketStart(q[i].abs, period) == BucketStart(s[i].abs, period) <==>
                  Unwrapped(clocks)[i] % period >= Lag(clocks, i))
  {
    hide *;
    SameLength(frames, filter);
    StampAt(frames, filter, i);
    QueryStampAt(frames, filter, i);
    var clocks := Clocks(PickedFrames(frames, filter));
    var abs, lag := Unwrapped(clocks)[i], Lag(clocks, i);
    assert Stamps(frames, filter)[i].abs == abs && QueryStamps(frames, filter)[i].abs == abs - lag;
    StartMoves(abs, lag, period);
  }

  lemma StampAt(frames: seq<Frame>, filter: Option<nat>, i: nat)
    requires i < |Stamps(frames, filter)|
    ensures var clocks := Clocks(PickedFrames(frames, filter));
            |clocks| == |Stamps(frames, filter)| && Stamps(frames, filter)[i].abs == Unwrapped(clocks)[i]
  {
    hide PickedFrames, Unwrapped;
  }

  lemma SameLength(frames: seq<Frame>, filter: Option<nat>)
    ensures |QueryStamps(frames, filter)| == |Stamps(frames, filter)| == |Clocks(PickedFrames(frames, filter))|
  {
    hide PickedFrames, Unwrapped, WindowForm;
  }

  lemma StayMeansSameStarts(frames: seq<Frame>, filter: Option<nat>, period: int)
    requires period > 0
    ensures Shifted(Stamps(frames, filter), QueryStamps(frames, filter))
    ensures StayInBucket(frames, filter, period) <==>
            SameStarts(Stamps(frames, filter), QueryStamps(frames, filter), period)
  {
    hide Lag, BucketStart, Stamps, QueryStamps, PickedFrames, Clocks, Unwrapped;
    SameLength(frames, filter);
    var s, q, clocks := Stamps(frames, filter), QueryStamps(frames, filter), Clocks(PickedFrames(frames, filter));
    forall i | 0 <= i < |s|
      ensures q[i].nid == s[i].nid && q[i].frmType == s[i].frmType && q[i].abs <= s[i].abs
      ensures BucketStart(q[i].abs, period) == BucketStart(s[i].abs, period) <==>
                Unwrapped(clocks)[i] % period >= Lag(clocks, i)
    {
      ShiftAt(frames, filter, period, i);
    }
  }

  lemma SameNetworks(s: seq<Stamp>, q: seq<Stamp>)
    requires Shifted(s, q)
    ensures CountKeys(q) == CountKeys(s)
    ensures forall p: Stamp | p in q :: exists r :: r in s && r.nid == p.nid
  {
    forall p: Stamp | p in q ensures exists r :: r in s && r.nid == p.nid {
      var i :| 0 <= i < |q| && q[i] == p;
      assert s[i] in s;
    }
  }

  /** When the rows of the two queries are the group-by of what they read, in any order, the fast path finds
      the networks of the stream with the same type totals; and it finds the same bucket counters in every
      network if and only if every frame is further into its bucket than the query places it back. */
  lemma FastPathRefines(frames: seq<Frame>, filter: Option<nat>, period: int,
                        countRows: seq<(CountKey, nat)>, bucketRows: seq<(BucketKey, nat)>)
    requires period > 0
    requires IsGroupBy(countRows, CountKeys(QueryStamps(frames, filter)))
    requires IsGroupBy(bucketRows, BucketKeys(QueryStamps(frames, filter), period))
    ensures var slow, counts := Accumulate(Stamps(frames, filter)), AggCounts(countRows, filter);
            var buckets := AggBuckets(bucketRows, filter, counts.Keys);
            && counts.Keys == slow.Keys && (forall n | n in slow :: counts[n] == slow[n].frmCounts)
            && ((forall n | n in slow :: Resolve(buckets, n) == BucketsOf(slow[n].timeline, period))
                <==> StayInBucket(frames, filter, period))
  {
    hide *;
    var s, q := Stamps(frames, filter), QueryStamps(frames, filter);
    StayMeansSameStarts(frames, filter, period);
    AllPicked(frames, filter);
    SameTotals(s, q, filter, countRows);
    BucketsExactly(s, q, period);
    var slow, counts := Accumulate(s), AggCounts(countRows, filter);
    forall n | n in slow
      ensures Resolve(AggBuckets(bucketRows, filter, counts.Keys), n) == BucketsOf(TimelineFor(q, n), period)
      ensures TimelineFor(s, n) == slow[n].timeline
    {
      InAccumulate(s, n, filter);
      BucketsAgree(q, filter, bucketRows, counts.Keys, period, n);
      TimelineOf(s, n);
    }
  }

  lemma TimelineOf(s: seq<Stamp>, n: nat)
    requires n in Accumulate(s)
    ensures TimelineFor(s, n) == Accumulate(s)[n].timeline
  {
  }

  lemma SameTotals(s: seq<Stamp>, q: seq<Stamp>, filter: Option<nat>, countRows: seq<(CountKey, nat)>)
    requires Shifted(s, q) && IsGroupBy(countRows, CountKeys(q)) && forall r | r in s :: Picked(Some(r.nid), filter)
    ensures var slow, counts := Accumulate(s), AggCounts(countRows, filter);
            counts.Keys == slow.Keys && forall n | n in slow :: counts[n] == slow[n].frmCounts
  {
    SameNetworks(s, q);
    hide *;
    var slow, counts := Accumulate(s), AggCounts(countRows, filter);
    forall n: nat
      ensures n in counts <==> n in slow
      ensures n in slow ==> counts[n] == slow[n].frmCounts
    {
      CountsAgree(s, filter, countRows, n);
    }
    assert counts.Keys == slow.Keys;
  }

  // ---------------------------------------------------------------------------
  // When the buckets agree
  // ---------------------------------------------------------------------------

  /** For periods of up to a day the condition is that the query misses no midnight and every frame is at
      least its milliseconds into its bucket. */
  lemma StayInBucketMeans(frames: seq<Frame>, filter: Option<nat>, period: int)
    requires 0 < period <= DAY
    ensures var clocks := Clocks(PickedFrames(frames, filter));
            StayInBucket(frames, filter, period) <==>
              Missed(clocks) == 0 && forall i | 0 <= i < |clocks| :: Unwrapped(clocks)[i] % period >= clocks[i] % 1000
  {
    var clocks := Clocks(PickedFrames(frames, filter));
    hide Unwrapped, PickedFrames, Clocks;
    if |clocks| > 0 {
      assert clocks[..|clocks|] == clocks;
      assert Missed(clocks) > 0 ==> Lag(clocks, |clocks| - 1) >= DAY by {
        assert Missed(clocks) > 0 ==> Missed(clocks) * DAY >= DAY;
      }
    }
    forall i | 0 <= i < |clocks| && Missed(clocks) == 0 ensures Lag(clocks, i) == clocks[i] % 1000 {
      MissedGrows(clocks, i + 1);
    }
    hide Lag, Missed;
  }

  lemma {:induction false} MissedGrows(clocks: seq<int>, n: nat)
    requires n <= |clocks|
    ensures Missed(clocks[..n]) <= Missed(clocks)
  {
    if n < |clocks| {
      MissedGrows(clocks[..|clocks| - 1], n);
      assert clocks[..|clocks| - 1][..n] == clocks[..n];
    } else {
      assert clocks[..n] == clocks;
    }
  }

  /** A period of whole seconds is safe as long as the query misses no midnight. */
  lemma WholeSecondsAgree(frames: seq<Frame>, filter: Option<nat>, period: int)
    requires 0 < period <= DAY && period % 1000 == 0
    ensures StayInBucket(frames, filter, period) <==> Missed(Clocks(PickedFrames(frames, filter))) == 0
  {
    var clocks := Clocks(PickedFrames(frames, filter));
    StayInBucketMeans(frames, filter, period);
    forall i | 0 <= i < |clocks| ensures Unwrapped(clocks)[i] % period >= clocks[i] % 1000 {
      UnwrappedAt(clocks, i);
      SameMillis(Days(clocks[..i + 1]), clocks[i], period);
    }
    hide StayInBucket, Missed, Unwrapped, PickedFrames, Clocks;
  }

  lemma SameMillis(days: nat, clock: int, period: int)
    requires period > 0 && period % 1000 == 0
    ensures (days * DAY + clock) % period >= clock % 1000
  {
    var a := days * DAY + clock;
    var r, seconds := a % period, period / 1000;
    assert a == a / period * period + r && period == 1000 * seconds;
    assert a / period * period == 1000 * (a / period * seconds);
    assert days * DAY == 1000 * (days * 86_400);
    SameRest(r, days * 86_400 - a / period * seconds, clock);
  }

  lemma SameRest(r: int, k: int, c: int)
    requires r == 1000 * k + c && r >= 0
    ensures r >= c % 1000
  {
    assert r % 1000 == c % 1000;
  }

  /** A frame at 1.7 seconds with a period of 1.6: the stream counts it in the second bucket, the query in the
      first. */
  lemma FractionLost()
    ensures BucketStart(1_700, 1_600) == 1_600 && BucketStart(QueryClock(1_700), 1_600) == 0
    ensures !StayInBucket([Frame(Some(1), None, 1_700)], None, 1_600)
  {
    var frame := Frame(Some(1), None, 1_700);
    var frames := [frame];
    assert frames[..0] == [] && PickedFrames(frames, None) == [frame];
    assert Clocks([frame]) == [1_700] && [1_700][..1] == [1_700] && [1_700][..0] == [];
    assert Unwrapped([1_700]) == [1_700];
    assert Lag([1_700], 0) == 700;
  }
}
