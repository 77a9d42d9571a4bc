/** Cycles and congestion of a network, drawn from its bucket counters. */
module NetworkCycles {

  import opened Arithmetic
  import opened Counting
  import opened GroupBy
  import opened NetworkAggregate
  import opened Sorting
  import opened Wrappers

  type Counter = map<string, nat>
  type Buckets = map<int, Counter>

  const BEACON_ALIASES: seq<string> := ["广播信标", "中央信标"]
  const ASSOC := "关联请求"
  const PROXY_CHANGE := "代理变更请求"

  const DENSITY_DEGRADED := 50.0
  const DENSITY_FAULT := 100.0

  function Itself(n: nat): nat {
    n
  }

  /** `sum(counter.values())`. */
  ghost function FrameCount(counter: Counter): nat {
    Total<string, nat>(counter, Itself)
  }

  function Beacons(counter: Counter): nat {
    At(counter, BEACON_ALIASES[0]) + At(counter, BEACON_ALIASES[1])
  }

  /** Non-beacon frames per second. */
  ghost function Density(counter: Counter, period: int): real
    requires period > 0
  {
    (FrameCount(counter) - Beacons(counter)) as real / (period as real / 1000.0)
  }

  datatype Level = Healthy | Degraded | Fault

  predicate Worse(a: Level, b: Level) {
    b == Healthy || a == b || a == Fault
  }

  // ---------------------------------------------------------------------------
  // Conservation
  // ---------------------------------------------------------------------------

  ghost function FramesInBuckets(buckets: Buckets): nat {
    Total(buckets, FrameCount)
  }

  lemma AddTotal(counter: map<string, nat>, kind: string)
    ensures FrameCount(Add(counter, kind, 1)) == FrameCount(counter) + 1
    ensures FrameCount(map[]) == 0
  {
    TotalUpdate<string, nat>(counter, Itself, kind, At(counter, kind) + 1);
  }

  /** Bucketing loses and invents no frame: the cycles of a network add up to its frames. */
  lemma {:induction false} BucketsConserve(timeline: seq<(int, string)>, period: int)
    requires period > 0
    ensures FramesInBuckets(BucketsOf(timeline, period)) == |timeline|
  {
    if timeline != [] {
      var init := timeline[..|timeline| - 1];
      var (abs, kind) := timeline[|timeline| - 1];
      BucketsConserve(init, period);
      var buckets, start := BucketsOf(init, period), BucketStart(abs, period);
      var counter := if start in buckets then buckets[start] else map[];
      AddTotal(counter, kind);
      hide FrameCount;
      TotalUpdate(buckets, FrameCount, start, Add(counter, kind, 1));
      assert start !in buckets ==> FrameCount(counter) == 0;
    }
  }

  /** The type totals of a network add up to its frames. */
  lemma {:induction false} CountsConserve(stamps: seq<Stamp>)
    ensures forall n | n in Accumulate(stamps) ::
              FrameCount(Accumulate(stamps)[n].frmCounts) == |Accumulate(stamps)[n].timeline|
  {
    if stamps != [] {
      var init, s := stamps[..|stamps| - 1], stamps[|stamps| - 1];
      CountsConserve(init);
      var accs := Accumulate(init);
      var acc := if s.nid in accs then accs[s.nid] else NO_FRAMES;
      CountFrameTotal(acc, s.abs, Kind(s.frmType));
    }
  }

  lemma CountFrameTotal(acc: Acc, abs: int, kind: string)
    ensures FrameCount(CountFrame(acc, abs, kind).frmCounts) == FrameCount(acc.frmCounts) + 1
  {
    TotalUpdate<string, nat>(acc.frmCounts, Itself, kind, At(acc.frmCounts, kind) + 1);
  }

  function TimelineLength(acc: Acc): nat {
    |acc.timeline|
  }

  /** The networks together hold exactly the assigned frames: none is lost and none is in two networks. */
  lemma {:induction false} NetworksConserve(stamps: seq<Stamp>)
    ensures Total<nat, Acc>(Accumulate(stamps), TimelineLength) == |stamps|
  {
    if stamps != [] {
      var init, s := stamps[..|stamps| - 1], stamps[|stamps| - 1];
      NetworksConserve(init);
      var accs := Accumulate(init);
      var acc := if s.nid in accs then accs[s.nid] else NO_FRAMES;
      TotalUpdate<nat, Acc>(accs, TimelineLength, s.nid, CountFrame(acc, s.abs, Kind(s.frmType)));
    }
  }

  // ---------------------------------------------------------------------------
  // Loops over a counter and over the buckets in order
  // ---------------------------------------------------------------------------

  method SumValues(counter: Counter) returns (sum: nat)
    ensures sum == FrameCount(counter)
  {
    sum := 0;
    var left := counter;
    while left.Keys != {}
      invariant sum + Total<string, nat>(left, Itself) == FrameCount(counter)
      decreases |left|
    {
      var kind :| kind in left.Keys;
      TotalSplit<string, nat>(left, Itself, kind);
      sum := sum + left[kind];
      left := left - {kind};
    }
    assert left == map[];
  }

  /** The keys of a dictionary in the order in which they were put in. */
  ghost predicate IsOrderOf(order: seq<int>, buckets: Buckets) {
    Distinct(order) && forall start :: start in order <==> start in buckets
  }

  // ---------------------------------------------------------------------------
  // Cycles
  // ---------------------------------------------------------------------------

  datatype Cycle = Cycle(start: int, end: int, frames: nat, beacons: nat, assoc: nat, proxyChanges: nat, level: Level)

  ghost function CycleOf(buckets: Buckets, start: int, period: int, level: Level): Cycle
    requires start in buckets
  {
    Cycle(start, start + period, FrameCount(buckets[start]), Beacons(buckets[start]), At(buckets[start], ASSOC),
          At(buckets[start], PROXY_CHANGE), level)
  }

  /** One cycle for each bucket, in order of time. */
  ghost predicate AreCycles(buckets: Buckets, period: int, level: Level, cycles: seq<Cycle>) {
    && (forall i | 0 <= i < |cycles| ::
          cycles[i].start in buckets && cycles[i] == CycleOf(buckets, cycles[i].start, period, level))
    && (forall i, j | 0 <= i < j < |cycles| :: cycles[i].start < cycles[j].start)
    && (forall start | start in buckets :: exists i :: 0 <= i < |cycles| && cycles[i].start == start)
  }

  /** The worst of the levels that are known; healthy when there is none. */
  method WorstLevel(levels: seq<Level>) returns (level: Level)
    ensures level == Healthy || level in levels
    ensures forall l | l in levels :: Worse(level, l)
    ensures level == Fault <==> Fault in levels
    ensures level == Degraded <==> Degraded in levels && Fault !in levels
  {
    level := Healthy;
    for i := 0 to |levels|
      invariant level == Healthy || level in levels
      invariant forall l | l in levels[..i] :: Worse(level, l)
    {
      if !Worse(level, levels[i]) {
        level := levels[i];
      }
      assert levels[..i + 1] == levels[..i] + [levels[i]];
    }
    assert levels[..|levels|] == levels;
  }

  method BuildCycle(buckets: Buckets, start: int, period: int, level: Level) returns (cycle: Cycle)
    requires start in buckets
    ensures cycle == CycleOf(buckets, start, period, level)
  {
    var counter := buckets[start];
    var frames := SumValues(counter);
    var beacons := 0;
    for k := 0 to |BEACON_ALIASES|
      invariant k == 0 ==> beacons == 0
      invariant k == 1 ==> beacons == At(counter, BEACON_ALIASES[0])
      invariant k == 2 ==> beacons == Beacons(counter)
    {
      beacons := beacons + At(counter, BEACON_ALIASES[k]);
    }
    cycle := Cycle(start, start + period, frames, beacons, At(counter, ASSOC), At(counter, PROXY_CHANGE), level);
  }

  /** `build_cycles`: one row for each bucket in order of time, whatever the order of the dictionary. */
  method BuildCycles(buckets: Buckets, order: seq<int>, period: int, levels: seq<Level>)
    returns (cycles: seq<Cycle>, level: Level)
    requires IsOrderOf(order, buckets)
    ensures AreCycles(buckets, period, level, cycles)
    ensures level == Fault <==> Fault in levels
    ensures level == Degraded <==> Degraded in levels && Fault !in levels
  {
    level := WorstLevel(levels);
    var starts := Sort(order, IntLe());
    SortIncreasing(order);
    hide Sort, CycleOf;
    cycles := [];
    for i := 0 to |starts|
      invariant |cycles| == i
      invariant forall k | 0 <= k < i :: starts[k] in buckets && cycles[k] == CycleOf(buckets, starts[k], period, level)
    {
      assert starts[i] in starts;
      var cycle := BuildCycle(buckets, starts[i], period, level);
      cycles := cycles + [cycle];
    }
    CyclesFrom(buckets, period, level, starts, cycles);
  }

  lemma CyclesFrom(buckets: Buckets, period: int, level: Level, starts: seq<int>, cycles: seq<Cycle>)
    requires Increasing(starts) && |cycles| == |starts| && forall start :: start in starts <==> start in buckets
    requires forall k | 0 <= k < |starts| ::
               starts[k] in buckets && cycles[k] == CycleOf(buckets, starts[k], period, level)
    ensures AreCycles(buckets, period, level, cycles)
  {
    hide FrameCount, Beacons, At;
    assert forall k | 0 <= k < |starts| :: cycles[k].start == starts[k];
    forall start | start in buckets ensures exists i :: 0 <= i < |cycles| && cycles[i].start == start {
      var i :| 0 <= i < |starts| && starts[i] == start;
    }
  }

  /** Equal bucket counters give equal cycles, however the two dictionaries were filled. */
  lemma {:induction false} CyclesUnique(buckets: Buckets, period: int, level: Level, a: seq<Cycle>, b: seq<Cycle>)
    requires AreCycles(buckets, period, level, a) && AreCycles(buckets, period, level, b)
    ensures a == b
  {
    hide CycleOf;
    StartsAre(buckets, period, level, a);
    StartsAre(buckets, period, level, b);
    IncreasingUnique(Starts(a), Starts(b));
    forall i | 0 <= i < |a| ensures a[i] == b[i] {
      assert Starts(a)[i] == Starts(b)[i];
    }
  }

  ghost function Starts(cycles: seq<Cycle>): (starts: seq<int>)
    ensures |starts| == |cycles| && forall i | 0 <= i < |cycles| :: starts[i] == cycles[i].start
  {
    seq(|cycles|, i requires 0 <= i < |cycles| => cycles[i].start)
  }

  lemma StartsAre(buckets: Buckets, period: int, level: Level, cycles: seq<Cycle>)
    requires AreCycles(buckets, period, level, cycles)
    ensures Increasing(Starts(cycles)) && forall start :: start in Starts(cycles) <==> start in buckets
  {
    hide CycleOf;
    forall start | start in buckets ensures start in Starts(cycles) {
      var i :| 0 <= i < |cycles| && cycles[i].start == start;
      assert Starts(cycles)[i] == start;
    }
  }

  /** An entry of the two beacon types. */
  function BeaconsIn(b: int, period: int): ((int, string)) -> bool
    requires period > 0
  {
    (e: (int, string)) => InBucket(e.0, b, period) && (e.1 == "广播信标" || e.1 == "中央信标")
  }

  lemma {:induction false} FramesMean(timeline: seq<(int, string)>, period: int, b: int)
    requires period > 0
    ensures var buckets := BucketsOf(timeline, period);
            (if b in buckets then FrameCount(buckets[b]) else 0) == NumberOf(timeline, EntriesAt(b, period))
  {
    if timeline != [] {
      var init := timeline[..|timeline| - 1];
      var (abs, kind) := timeline[|timeline| - 1];
      FramesMean(init, period, b);
      var buckets, start := BucketsOf(init, period), BucketStart(abs, period);
      AddTotal(if start in buckets then buckets[start] else map[], kind);
      BucketStartMeans(abs, b, period);
      hide FrameCount, BucketStart, InBucket;
    }
  }

  lemma BeaconsMean(timeline: seq<(int, string)>, period: int, b: int)
    requires period > 0 && b in BucketsOf(timeline, period)
    ensures Beacons(BucketsOf(timeline, period)[b]) == NumberOf(timeline, BeaconsIn(b, period))
  {
    BucketsMean(timeline, period, b, "广播信标");
    BucketsMean(timeline, period, b, "中央信标");
    hide BucketsOf, NumberOf, InBucket;
    NumberEither(timeline, EntriesAs(b, period, "广播信标"), EntriesAs(b, period, "中央信标"), BeaconsIn(b, period));
  }

  /** A cycle counts the frames of one period by their types. */
  ghost predicate Counts(timeline: seq<(int, string)>, period: int, c: Cycle)
    requires period > 0
  {
    && c.start % period == 0 && c.end == c.start + period
    && c.frames == NumberOf(timeline, EntriesAt(c.start, period)) > 0
    && c.beacons == NumberOf(timeline, BeaconsIn(c.start, period))
    && c.assoc == NumberOf(timeline, EntriesAs(c.start, period, "关联请求"))
    && c.proxyChanges == NumberOf(timeline, EntriesAs(c.start, period, "代理变更请求"))
  }

  /** The cycles of a network count its frames, period by period; a period without frames has none. */
  lemma CyclesMean(timeline: seq<(int, string)>, period: int, level: Level, cycles: seq<Cycle>)
    requires period > 0 && AreCycles(BucketsOf(timeline, period), period, level, cycles)
    ensures forall i | 0 <= i < |cycles| :: Counts(timeline, period, cycles[i]) && cycles[i].level == level
    ensures forall b :: NumberOf(timeline, EntriesAt(b, period)) > 0 <==>
              exists i :: 0 <= i < |cycles| && cycles[i].start == b
  {
    var buckets := BucketsOf(timeline, period);
    hide BucketsOf, NumberOf, InBucket, FrameCount, Beacons, At;
    forall b ensures b in buckets <==> NumberOf(timeline, EntriesAt(b, period)) > 0 {
      BucketsMean(timeline, period, b, "关联请求");
    }
    forall i | 0 <= i < |cycles| ensures Counts(timeline, period, cycles[i]) && cycles[i].level == level {
      var b := cycles[i].start;
      FramesMean(timeline, period, b);
      BeaconsMean(timeline, period, b);
      BucketsMean(timeline, period, b, "关联请求");
      BucketsMean(timeline, period, b, "代理变更请求");
      StartsOnPeriod(timeline, period, b);
    }
  }

  lemma StartsOnPeriod(timeline: seq<(int, string)>, period: int, b: int)
    requires period > 0 && NumberOf(timeline, EntriesAt(b, period)) > 0
    ensures b % period == 0
  {
    NumberZero(timeline, EntriesAt(b, period));
    hide NumberOf;
  }

  function CycleFrames(cycles: seq<Cycle>): nat {
    if cycles == [] then 0 else CycleFrames(cycles[..|cycles| - 1]) + cycles[|cycles| - 1].frames
  }

  /** The cycles together hold the frames of the buckets. */
  lemma {:induction false} CyclesConserve(buckets: Buckets, period: int, level: Level, cycles: seq<Cycle>)
    requires AreCycles(buckets, period, level, cycles)
    ensures CycleFrames(cycles) == FramesInBuckets(buckets)
  {
    if cycles == [] {
      assert forall start :: start !in buckets;
      assert buckets == map[];
    } else {
      var init, last := cycles[..|cycles| - 1], cycles[|cycles| - 1];
      hide FrameCount, Beacons, At;
      WithoutLast(buckets, period, level, cycles);
      CyclesConserve(buckets - {last.start}, period, level, init);
      TotalSplit(buckets, FrameCount, last.start);
    }
  }

  lemma WithoutLast(buckets: Buckets, period: int, level: Level, cycles: seq<Cycle>)
    requires AreCycles(buckets, period, level, cycles) && cycles != []
    ensures AreCycles(buckets - {cycles[|cycles| - 1].start}, period, level, cycles[..|cycles| - 1])
    ensures cycles[|cycles| - 1].start in buckets
    ensures cycles[|cycles| - 1].frames == FrameCount(buckets[cycles[|cycles| - 1].start])
  {
    hide FrameCount, Beacons, At;
    var init, last := cycles[..|cycles| - 1], cycles[|cycles| - 1];
    var rest := buckets - {last.start};
    forall start | start in rest ensures exists i :: 0 <= i < |init| && init[i].start == start {
      var i :| 0 <= i < |cycles| && cycles[i].start == start;
      assert init[i].start == start;
    }
  }

  // ---------------------------------------------------------------------------
  // Congestion
  // ---------------------------------------------------------------------------

  /** The highest density among buckets that carry any non-beacon frame. */
  ghost predicate IsPeak(buckets: Buckets, period: int, peak: Option<real>)
    requires period > 0
  {
    && (forall start | start in buckets && FrameCount(buckets[start]) > Beacons(buckets[start]) ::
          peak.Some? && Density(buckets[start], period) <= peak.value)
    && (peak.Some? ==>
          exists start :: start in buckets && FrameCount(buckets[start]) > Beacons(buckets[start])
                          && Density(buckets[start], period) == peak.value)
  }

  /** Some bucket carries more than `limit` non-beacon frames per second. */
  ghost predicate Denser(buckets: Buckets, period: int, limit: real)
    requires period > 0
  {
    exists start :: start in buckets && Density(buckets[start], period) > limit
  }

  ghost function Congestion(buckets: Buckets, period: int): Level {
    if period <= 0 then Healthy
    else if Denser(buckets, period, DENSITY_FAULT) then Fault
    else if Denser(buckets, period, DENSITY_DEGRADED) then Degraded
    else Healthy
  }

  function OthersIn(b: int, period: int): ((int, string)) -> bool
    requires period > 0
  {
    (e: (int, string)) => InBucket(e.0, b, period) && e.1 != "广播信标" && e.1 != "中央信标"
  }

  /** Some period has more than so many frames a second that are not beacons. */
  ghost predicate Crowded(timeline: seq<(int, string)>, period: int, perSecond: nat)
    requires period > 0
  {
    exists b: int :: 1000 * NumberOf(timeline, OthersIn(b, period)) > perSecond * period
  }

  lemma DensityAbove(n: int, period: int, limit: int)
    requires period > 0
    ensures n as real / (period as real / 1000.0) > limit as real <==> 1000 * n > limit * period
  {
    var seconds := period as real / 1000.0;
    var density := n as real / seconds;
    assert density * seconds == n as real;
    assert (limit as real) * seconds * 1000.0 == (limit * period) as real;
    if density > limit as real {
      assert density * seconds > (limit as real) * seconds;
    } else {
      assert density * seconds <= (limit as real) * seconds;
    }
  }

  lemma DenserMeans(timeline: seq<(int, string)>, period: int, perSecond: nat)
    requires period > 0
    ensures Denser(BucketsOf(timeline, period), period, perSecond as real) <==> Crowded(timeline, period, perSecond)
  {
    var buckets := BucketsOf(timeline, period);
    hide BucketsOf, NumberOf, InBucket, FrameCount, Beacons;
    forall b: int
      ensures b in buckets ==>
                (Density(buckets[b], period) > perSecond as real <==>
                 1000 * NumberOf(timeline, OthersIn(b, period)) > perSecond * period)
      ensures b !in buckets ==> NumberOf(timeline, OthersIn(b, period)) == 0
    {
      FramesMean(timeline, period, b);
      NumberEither(timeline, BeaconsIn(b, period), OthersIn(b, period), EntriesAt(b, period));
      BucketsMean(timeline, period, b, UNKNOWN);
      if b in buckets {
        BeaconsMean(timeline, period, b);
        DensityAbove(NumberOf(timeline, OthersIn(b, period)), period, perSecond);
      }
    }
    NotNegative(perSecond, period);
  }

  /** The level goes by the most crowded period: above 100 frames a second that are not beacons it is a fault,
      above 50 it is degraded. */
  lemma CongestionMeans(timeline: seq<(int, string)>, period: int)
    requires period > 0
    ensures var level := Congestion(BucketsOf(timeline, period), period);
            && (level == Fault <==> Crowded(timeline, period, 100))
            && (level == Degraded <==> Crowded(timeline, period, 50) && !Crowded(timeline, period, 100))
  {
    DenserMeans(timeline, period, 100);
    DenserMeans(timeline, period, 50);
    hide Denser, Crowded, BucketsOf;
  }

  datatype Csma = Csma(enabled: bool, peak: Option<real>, level: Level)

  method DensityOf(counter: Counter, period: int) returns (nonBeacon: int, density: real)
    requires period > 0
    ensures nonBeacon == FrameCount(counter) - Beacons(counter) && density == Density(counter, period)
  {
    var frames := SumValues(counter);
    nonBeacon := frames - Beacons(counter);
    density := nonBeacon as real / (period as real / 1000.0);
  }

  lemma DensityPositive(counter: Counter, period: int)
    requires period > 0
    ensures Density(counter, period) > 0.0 <==> FrameCount(counter) > Beacons(counter)
  {
    var n, seconds := (FrameCount(counter) - Beacons(counter)) as real, period as real / 1000.0;
    assert seconds > 0.0;
    var d := n / seconds;
    assert d * seconds == n;
  }

  /** The peak decides the level. */
  lemma PeakLevel(buckets: Buckets, period: int, peak: Option<real>, limit: real)
    requires period > 0 && limit > 0.0 && IsPeak(buckets, period, peak)
    ensures Denser(buckets, period, limit) <==> peak.Some? && peak.value > limit
  {
    hide Density, FrameCount, Beacons;
    forall start | start in buckets && Density(buckets[start], period) > limit
      ensures FrameCount(buckets[start]) > Beacons(buckets[start])
    {
      DensityPositive(buckets[start], period);
    }
  }

  /** `build_csma`: the peak is the highest non-beacon density, and the level goes by it. */
  method BuildCsma(buckets: Buckets, order: seq<int>, period: int) returns (csma: Csma)
    requires IsOrderOf(order, buckets)
    ensures csma.enabled <==> period > 0 && buckets != map[]
    ensures csma.enabled ==> IsPeak(buckets, period, csma.peak)
    ensures csma.level == Congestion(buckets, period) && (period <= 0 ==> csma.level == Healthy)
  {
    if period <= 0 {
      return Csma(false, None, Healthy);
    }
    if order == [] {
      NoBuckets(order, buckets);
      return Csma(false, None, Healthy);
    }
    InOrder(order, buckets, 0);
    var peak: Option<real> := None;
    for i := 0 to |order|
      invariant PeakSoFar(buckets, order[..i], period, peak)
    {
      hide Density, FrameCount, Beacons, PeakSoFar;
      InOrder(order, buckets, i);
      var nonBeacon, density := DensityOf(buckets[order[i]], period);
      PeakStep(buckets, order, i, period, peak);
      if nonBeacon > 0 {
        peak := if peak.None? || density > peak.value then Some(density) else peak;
      }
    }
    hide Density, FrameCount, Beacons, Denser;
    assert order[..|order|] == order;
    assert IsPeak(buckets, period, peak);
    PeakLevel(buckets, period, peak, DENSITY_FAULT);
    PeakLevel(buckets, period, peak, DENSITY_DEGRADED);
    var level := if peak.Some? && peak.value > DENSITY_FAULT then Fault
                 else if peak.Some? && peak.value > DENSITY_DEGRADED then Degraded
                 else Healthy;
    csma := Csma(true, peak, level);
  }

  lemma InOrder(order: seq<int>, buckets: Buckets, i: nat)
    requires IsOrderOf(order, buckets) && i < |order|
    ensures order[i] in buckets
  {
    var start: int := order[i];
    assert start in order;
    assert start in buckets;
  }

  lemma NoBuckets(order: seq<int>, buckets: Buckets)
    requires IsOrderOf(order, buckets) && order == []
    ensures buckets == map[]
  {
    assert forall start :: start !in buckets;
  }

  /** The highest density among the buckets listed. */
  ghost predicate PeakSoFar(buckets: Buckets, listed: seq<int>, period: int, peak: Option<real>)
    requires period > 0
  {
    && (forall start | start in listed && start in buckets && FrameCount(buckets[start]) > Beacons(buckets[start]) ::
          peak.Some? && Density(buckets[start], period) <= peak.value)
    && (peak.Some? ==>
          exists start :: start in listed && start in buckets && FrameCount(buckets[start]) > Beacons(buckets[start])
                          && Density(buckets[start], period) == peak.value)
  }

  lemma PeakStep(buckets: Buckets, order: seq<int>, i: nat, period: int, peak: Option<real>)
    requires period > 0 && i < |order| && order[i] in buckets && PeakSoFar(buckets, order[..i], period, peak)
    ensures var counter := buckets[order[i]];
            var density := Density(counter, period);
            var higher := if FrameCount(counter) > Beacons(counter) && (peak.None? || density > peak.value)
                          then Some(density) else peak;
            PeakSoFar(buckets, order[..i + 1], period, higher)
  {
    hide Density, FrameCount, Beacons;
    var now := order[i];
    var listed, longer := order[..i], order[..i + 1];
    assert longer == listed + [now] && now in longer;
    assert forall start :: start in longer <==> start in listed || start == now;
    if peak.Some? {
      var start: int :| start in listed && start in buckets && FrameCount(buckets[start]) > Beacons(buckets[start])
                        && Density(buckets[start], period) == peak.value;
      assert start in longer;
    }
  }
}
