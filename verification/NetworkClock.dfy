/** Unwrapping times of day into absolute milliseconds: the list form, the tracker and the
    window-function form of the pre-aggregated query. */
module NetworkClock {

  import opened Wrappers

  const DAY: int := 86_400_000
  const HALF_DAY: int := 43_200_000

  /** The values present in a list, in order. */
  function Known<T>(xs: seq<Option<T>>): seq<T> {
    if xs == [] then []
    else Known(xs[..|xs| - 1]) + if xs[|xs| - 1].Some? then [xs[|xs| - 1].value] else []
  }

  /** A clock reading more than half a day before the last one starts a new day. */
  predicate Rolls(previous: int, clock: int) {
    clock < previous - HALF_DAY
  }

  /** How many days have started in a list of readings. */
  function Days(clocks: seq<int>): nat {
    if |clocks| < 2 then 0
    else Days(clocks[..|clocks| - 1]) + if Rolls(clocks[|clocks| - 2], clocks[|clocks| - 1]) then 1 else 0
  }

  function Unwrapped(clocks: seq<int>): (abs: seq<int>)
    ensures |abs| == |clocks|
  {
    if clocks == [] then []
    else Unwrapped(clocks[..|clocks| - 1]) + [Days(clocks) * DAY + clocks[|clocks| - 1]]
  }

  lemma KnownAppend<T>(xs: seq<Option<T>>, x: Option<T>)
    ensures Known(xs + [x]) == if x.Some? then Known(xs) + [x.value] else Known(xs)
  {
    assert (xs + [x])[..|xs|] == xs;
    assert Known(xs) + [] == Known(xs);
  }

  lemma DaysAppend(clocks: seq<int>, c: int)
    ensures Days(clocks + [c]) == Days(clocks) + if clocks != [] && Rolls(clocks[|clocks| - 1], c) then 1 else 0
  {
    assert (clocks + [c])[..|clocks|] == clocks;
  }

  lemma UnwrappedAppend(clocks: seq<int>, c: int)
    ensures Days(clocks + [c]) == Days(clocks) + if clocks != [] && Rolls(clocks[|clocks| - 1], c) then 1 else 0
    ensures Unwrapped(clocks + [c]) == Unwrapped(clocks) + [Days(clocks + [c]) * DAY + c]
  {
    DaysAppend(clocks, c);
    hide Days;
    var longer := clocks + [c];
    assert longer != [] && longer[..|longer| - 1] == clocks && longer[|longer| - 1] == c;
  }

  /** The day offset and the last reading after some readings. */
  ghost predicate Tracks(seen: seq<int>, day: nat, previous: Option<int>) {
    && day == Days(seen)
    && previous == if seen == [] then None else Some(seen[|seen| - 1])
  }

  lemma TrackStep(seen: seq<int>, day: nat, previous: Option<int>, c: int)
    requires Tracks(seen, day, previous)
    ensures var day' := if previous.Some? && c < previous.value - HALF_DAY then day + 1 else day;
            && Tracks(seen + [c], day', Some(c))
            && Unwrapped(seen + [c]) == Unwrapped(seen) + [day' * DAY + c]
  {
    UnwrappedAppend(seen, c);
    hide Days, Unwrapped;
  }

  /** `result` gives each readable time its unwrapped value, and None to the others. */
  ghost predicate UnwrapsTo(clocks: seq<Option<int>>, result: seq<Option<int>>) {
    && |result| == |clocks| && (forall i | 0 <= i < |clocks| :: result[i].None? <==> clocks[i].None?)
    && Known(result) == Unwrapped(Known(clocks))
  }

  lemma UnwrapsNext(clocks: seq<Option<int>>, result: seq<Option<int>>, clock: Option<int>, day: nat,
                    previous: Option<int>)
    requires UnwrapsTo(clocks, result) && Tracks(Known(clocks), day, previous)
    ensures clock.None? ==>
              UnwrapsTo(clocks + [clock], result + [None]) && Tracks(Known(clocks + [clock]), day, previous)
    ensures clock.Some? ==>
              var day' := if previous.Some? && clock.value < previous.value - HALF_DAY then day + 1 else day;
              && UnwrapsTo(clocks + [clock], result + [Some(day' * DAY + clock.value)])
              && Tracks(Known(clocks + [clock]), day', clock)
  {
    hide *;
    if clock.Some? {
      var day' := if previous.Some? && clock.value < previous.value - HALF_DAY then day + 1 else day;
      TrackStep(Known(clocks), day, previous, clock.value);
      KnownAppend(clocks, clock);
      UnwrapsCons(clocks, result, clock, Some(day' * DAY + clock.value));
    } else {
      KnownAppend(clocks, clock);
      UnwrapsCons(clocks, result, None, None);
    }
  }

  lemma UnwrapsCons(clocks: seq<Option<int>>, result: seq<Option<int>>, clock: Option<int>, abs: Option<int>)
    requires UnwrapsTo(clocks, result) && (clock.None? <==> abs.None?)
    requires abs.Some? ==> Unwrapped(Known(clocks) + [clock.value]) == Unwrapped(Known(clocks)) + [abs.value]
    ensures UnwrapsTo(clocks + [clock], result + [abs])
  {
    hide Known, Unwrapped;
    KnownAppend(clocks, clock);
    KnownAppend(result, abs);
  }

  /** `_absolute_ms`: unreadable times stay None and are skipped. */
  method AbsoluteMs(clocks: seq<Option<int>>) returns (result: seq<Option<int>>)
    ensures UnwrapsTo(clocks, result)
  {
    result := [];
    var dayOffset: nat := 0;
    var prev: Option<int> := None;
    for i := 0 to |clocks|
      invariant UnwrapsTo(clocks[..i], result) && Tracks(Known(clocks[..i]), dayOffset, prev)
    {
      UnwrapsNext(clocks[..i], result, clocks[i], dayOffset, prev);
      hide *;
      assert clocks[..i + 1] == clocks[..i] + [clocks[i]];
      if clocks[i].None? {
        result := result + [None];
        continue;
      }
      var ms := clocks[i].value;
      if prev.Some? && ms < prev.value - HALF_DAY {
        dayOffset := dayOffset + 1;
      }
      var absolute := dayOffset * DAY + ms;
      result := result + [Some(absolute)];
      prev := Some(ms);
    }
    assert clocks[..|clocks|] == clocks;
  }

  /** `_AbsTimeTracker`. */
  class AbsTimeTracker {
    var dayOffset: nat
    var prevClockMs: Option<int>

    /** The tracker has seen these readings. */
    ghost predicate Has(seen: seq<int>)
      reads this
    {
      Tracks(seen, dayOffset, prevClockMs)
    }

    constructor ()
      ensures Has([])
    {
      dayOffset, prevClockMs := 0, None;
    }

    method AbsMs(clock: Option<int>, ghost seen: seq<int>) returns (r: Option<int>)
      requires Has(seen)
      modifies this
      ensures clock.None? ==> r == None && Has(seen)
      ensures clock.Some? ==> Has(seen + [clock.value]) && r == Some(Unwrapped(seen + [clock.value])[|seen|])
    {
      if clock.None? {
        return None;
      }
      TrackStep(seen, dayOffset, prevClockMs, clock.value);
      if prevClockMs.Some? && clock.value < prevClockMs.value - HALF_DAY {
        dayOffset := dayOffset + 1;
      }
      prevClockMs := clock;
      return Some(dayOffset * DAY + clock.value);
    }
  }

  // ---------------------------------------------------------------------------
  // The window-function form
  // ---------------------------------------------------------------------------

  /** LAG over the rows in id order, compared with the reading. */
  function Rollover(rows: seq<int>, i: nat): nat
    requires i < |rows|
  {
    if i > 0 && rows[i] < rows[i - 1] - HALF_DAY then 1 else 0
  }

  /** SUM of the rollovers over all rows up to and including row `i`. */
  function RunningSum(rows: seq<int>, i: nat): nat
    requires i < |rows|
  {
    Rollover(rows, i) + if i == 0 then 0 else RunningSum(rows, i - 1)
  }

  function WindowForm(rows: seq<int>): (abs: seq<int>)
    ensures |abs| == |rows|
  {
    seq(|rows|, i requires 0 <= i < |rows| => RunningSum(rows, i) * DAY + rows[i])
  }

  lemma {:induction false} RunningSumIsDays(rows: seq<int>, i: nat)
    requires i < |rows|
    ensures RunningSum(rows, i) == Days(rows[..i + 1])
  {
    if i > 0 {
      RunningSumIsDays(rows, i - 1);
      assert rows[..i + 1][..i] == rows[..i];
    }
  }

  lemma {:induction false} UnwrappedAt(clocks: seq<int>, i: nat)
    requires i < |clocks|
    ensures Unwrapped(clocks)[i] == Days(clocks[..i + 1]) * DAY + clocks[i]
  {
    if i < |clocks| - 1 {
      UnwrappedAt(clocks[..|clocks| - 1], i);
      assert clocks[..|clocks| - 1][..i + 1] == clocks[..i + 1];
    } else {
      assert clocks[..i + 1] == clocks;
    }
  }

  /** The query and the loop unwrap alike. */
  lemma WindowFormAgrees(rows: seq<int>)
    ensures WindowForm(rows) == Unwrapped(rows)
  {
    forall i | 0 <= i < |rows| ensures WindowForm(rows)[i] == Unwrapped(rows)[i] {
      RunningSumIsDays(rows, i);
      UnwrappedAt(rows, i);
    }
  }

  // ---------------------------------------------------------------------------
  // The clock the query reads
  // ---------------------------------------------------------------------------

  /** The query takes the milliseconds from the decimal point on, reads 0, and is left with whole seconds. */
  function QueryClock(clock: int): int {
    clock - clock % 1000
  }

  function QueryClocks(clocks: seq<int>): (r: seq<int>)
    ensures |r| == |clocks| && forall i | 0 <= i < |clocks| :: r[i] == QueryClock(clocks[i])
  {
    seq(|clocks|, i requires 0 <= i < |clocks| => QueryClock(clocks[i]))
  }

  /** A step back of half a day in whole seconds, and of more than that with the milliseconds. */
  predicate IsMissed(previous: int, clock: int) {
    previous / 1000 - clock / 1000 == 43_200 && clock % 1000 < previous % 1000
  }

  /** The query starts a new day on the same steps, except those it misses. */
  lemma RollsBySecond(previous: int, clock: int)
    ensures Rolls(QueryClock(previous), QueryClock(clock)) <==> Rolls(previous, clock) && !IsMissed(previous, clock)
    ensures IsMissed(previous, clock) ==> Rolls(previous, clock)
  {
    assert previous == previous / 1000 * 1000 + previous % 1000;
    assert clock == clock / 1000 * 1000 + clock % 1000;
  }

  /** How many midnights the query has missed. */
  function Missed(clocks: seq<int>): nat {
    if |clocks| < 2 then 0
    else Missed(clocks[..|clocks| - 1]) + if IsMissed(clocks[|clocks| - 2], clocks[|clocks| - 1]) then 1 else 0
  }

  lemma {:induction false} DaysBySecond(clocks: seq<int>)
    ensures Days(QueryClocks(clocks)) + Missed(clocks) == Days(clocks)
  {
    if |clocks| >= 2 {
      var n := |clocks| - 1;
      DaysBySecond(clocks[..n]);
      assert QueryClocks(clocks)[..n] == QueryClocks(clocks[..n]);
      RollsBySecond(clocks[n - 1], clocks[n]);
    }
  }

  /** How far the query places a reading before the loop: the midnights missed, and the milliseconds. */
  function Lag(clocks: seq<int>, i: nat): (lag: int)
    requires i < |clocks|
    ensures lag >= 0
  {
    Missed(clocks[..i + 1]) * DAY + clocks[i] % 1000
  }

  lemma QueryLags(clocks: seq<int>, i: nat)
    requires i < |clocks|
    ensures WindowForm(QueryClocks(clocks))[i] == Unwrapped(clocks)[i] - Lag(clocks, i)
  {
    hide Days, Missed, Unwrapped, WindowForm;
    var seconds := QueryClocks(clocks);
    WindowFormAgrees(seconds);
    UnwrappedAt(seconds, i);
    UnwrappedAt(clocks, i);
    assert seconds[..i + 1] == QueryClocks(clocks[..i + 1]);
    DaysBySecond(clocks[..i + 1]);
  }

  // ---------------------------------------------------------------------------
  // Against the true timeline
  // ---------------------------------------------------------------------------

  ghost predicate Nondecreasing(truth: seq<int>) {
    && (forall i | 0 <= i < |truth| :: truth[i] >= 0)
    && (forall i | 0 < i < |truth| :: truth[i - 1] <= truth[i])
  }

  function TimesOfDay(truth: seq<int>): (clocks: seq<int>)
    ensures |clocks| == |truth| && forall i | 0 <= i < |truth| :: clocks[i] == truth[i] % DAY
  {
    seq(|truth|, i requires 0 <= i < |truth| => truth[i] % DAY)
  }

  /** The next true time is on the same day, or on the next one less than half a day later. */
  predicate StepKept(t: int, t': int) {
    t / DAY == t' / DAY || (t' / DAY == t / DAY + 1 && t' - t < HALF_DAY)
  }

  /** The unwrapped times are the true ones less `k` whole days. */
  ghost predicate OffBy(truth: seq<int>, k: int) {
    forall i | 0 <= i < |truth| :: Unwrapped(TimesOfDay(truth))[i] == truth[i] - k * DAY
  }

  lemma RollsExactly(t: int, t': int)
    requires 0 <= t <= t'
    ensures t' / DAY - t / DAY == (if Rolls(t % DAY, t' % DAY) then 1 else 0) <==> StepKept(t, t')
  {
  }

  lemma {:induction false} DaysOfTruth(truth: seq<int>, n: nat)
    requires Nondecreasing(truth) && 0 < n <= |truth|
    requires forall i | 0 < i < n :: StepKept(truth[i - 1], truth[i])
    ensures Days(TimesOfDay(truth)[..n]) == truth[n - 1] / DAY - truth[0] / DAY
  {
    if n > 1 {
      DaysOfTruth(truth, n - 1);
      var clocks := TimesOfDay(truth);
      assert clocks[..n][..n - 1] == clocks[..n - 1];
      assert StepKept(truth[n - 2], truth[n - 1]);
      assert truth[n - 1 - 1] <= truth[n - 1];
      RollsExactly(truth[n - 2], truth[n - 1]);
    }
  }

  /** On a timeline that does not go back, unwrapping is exact up to one whole number of days if and only if
      every step stays within a day or crosses one midnight in less than half a day. */
  lemma UnwrapExact(truth: seq<int>)
    requires Nondecreasing(truth)
    ensures (exists k :: OffBy(truth, k)) <==> forall i | 0 < i < |truth| :: StepKept(truth[i - 1], truth[i])
  {
    var clocks := TimesOfDay(truth);
    if truth == [] {
      assert OffBy(truth, 0);
    } else if forall i | 0 < i < |truth| :: StepKept(truth[i - 1], truth[i]) {
      forall i | 0 <= i < |truth| ensures Unwrapped(clocks)[i] == truth[i] - truth[0] / DAY * DAY {
        DaysOfTruth(truth, i + 1);
        UnwrappedAt(clocks, i);
      }
      assert OffBy(truth, truth[0] / DAY);
    }
    if k :| OffBy(truth, k) {
      forall i | 0 < i < |truth| ensures StepKept(truth[i - 1], truth[i]) {
        OffByStep(truth, k, i);
      }
    }
  }

  lemma OffByStep(truth: seq<int>, k: int, i: nat)
    requires Nondecreasing(truth) && OffBy(truth, k) && 0 < i < |truth|
    ensures StepKept(truth[i - 1], truth[i])
  {
    var clocks := TimesOfDay(truth);
    UnwrappedAt(clocks, i);
    UnwrappedAt(clocks, i - 1);
    assert clocks[..i + 1][..i] == clocks[..i];
    assert truth[i - 1] <= truth[i];
    RollsExactly(truth[i - 1], truth[i]);
  }

  /** In particular gaps under half a day are enough. */
  lemma UnwrapShortGaps(truth: seq<int>)
    requires Nondecreasing(truth) && forall i | 0 < i < |truth| :: truth[i] - truth[i - 1] < HALF_DAY
    ensures exists k :: OffBy(truth, k)
  {
    forall i | 0 < i < |truth| ensures StepKept(truth[i - 1], truth[i]) {
      assert truth[i - 1] <= truth[i];
    }
    UnwrapExact(truth);
  }
}
