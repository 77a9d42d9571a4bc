/** The greedy matcher for ordered log observations: non-overlapping completions of a list of
    steps, each within a time limit. */
module SequenceMatcher {

  import opened Sorting
  import opened Wrappers

  /** A module log line: its sequence number and, if it parses, its time in milliseconds. */
  datatype Line = Line(number: nat, ms: Option<real>)

  /** The lines a step's leaf matcher accepts, by sequence number. */
  type Hits = set<nat>

  /** Lines in order of their distinct sequence numbers. */
  ghost predicate Ordered(lines: seq<Line>) {
    forall i, j | 0 <= i < j < |lines| :: lines[i].number < lines[j].number
  }

  // ---------------------------------------------------------------------------
  // Completions and families of them
  // ---------------------------------------------------------------------------

  /** Positions of lines that hit the first steps in order. */
  ghost predicate IsChain(lines: seq<Line>, steps: seq<Hits>, c: seq<nat>) {
    && |c| <= |steps|
    && (forall k | 0 <= k < |c| :: c[k] < |lines| && lines[c[k]].number in steps[k])
    && (forall j, k | 0 <= j < k < |c| :: c[j] < c[k])
  }

  /** From the first line of the chain to its last the clock runs forward, at most `limit`. */
  ghost predicate Fits(lines: seq<Line>, limit: real, first: nat, last: nat)
    requires first < |lines| && last < |lines|
  {
    && lines[first].ms.Some? && lines[last].ms.Some?
    && 0.0 <= lines[last].ms.value - lines[first].ms.value <= limit
  }

  /** Line `j` lies between two lines that fit the limit, but does not fit after the first of them. */
  ghost predicate Strays(lines: seq<Line>, limit: real, i: nat, j: nat, k: nat) {
    i < j < k < |lines| && Fits(lines, limit, i, k) && !Fits(lines, limit, i, j)
  }

  /** No line strays. Times may go back, as long as they stay back or the way forward again exceeds the limit. */
  ghost predicate Framed(lines: seq<Line>, limit: real) {
    forall i, j, k :: !Strays(lines, limit, i, j, k)
  }

  ghost predicate IsCompletion(lines: seq<Line>, steps: seq<Hits>, limit: real, c: seq<nat>) {
    && |c| == |steps| > 0 && IsChain(lines, steps, c) && Fits(lines, limit, c[0], c[|c| - 1])
  }

  ghost function Ends(c: seq<nat>): int {
    if c == [] then -1 else c[|c| - 1]
  }

  /** `a` ends before `b` starts. */
  ghost predicate Precedes(a: seq<nat>, b: seq<nat>) {
    b != [] && Ends(a) < b[0]
  }

  /** Completions of which each ends before any later one starts. */
  ghost predicate IsFamily(lines: seq<Line>, steps: seq<Hits>, limit: real, family: seq<seq<nat>>) {
    && (forall f | 0 <= f < |family| :: IsCompletion(lines, steps, limit, family[f]))
    && (forall f, h | 0 <= f < h < |family| :: Precedes(family[f], family[h]))
  }

  // ---------------------------------------------------------------------------
  // The earliest chain from a start line
  // ---------------------------------------------------------------------------

  /** The first line at or after `from` that is in `hits`. */
  ghost function NextHit(lines: seq<Line>, hits: Hits, from: nat): Option<nat>
    requires from <= |lines|
    ensures match NextHit(lines, hits, from)
            case Some(i) => from <= i < |lines| && lines[i].number in hits
                            && forall j | from <= j < i :: lines[j].number !in hits
            case None => forall j | from <= j < |lines| :: lines[j].number !in hits
    decreases |lines| - from
  {
    if from == |lines| then None
    else if lines[from].number in hits then Some(from)
    else NextHit(lines, hits, from + 1)
  }

  /** Each step takes the first hit after the step before it. */
  ghost function Earliest(lines: seq<Line>, steps: seq<Hits>, start: nat, k: nat): Option<nat>
    requires start < |lines| && k < |steps|
    ensures Earliest(lines, steps, start, k).Some? ==> Earliest(lines, steps, start, k).value < |lines|
  {
    if k == 0 then (if lines[start].number in steps[0] then Some(start) else None)
    else match Earliest(lines, steps, start, k - 1)
      case None => None
      case Some(i) => NextHit(lines, steps[k], i + 1)
  }

  /** No chain that starts at or after `start` is ahead of the earliest one from `start`. */
  lemma {:induction false} EarliestIsEarliest(lines: seq<Line>, steps: seq<Hits>, start: nat, c: seq<nat>, k: nat)
    requires IsChain(lines, steps, c) && k < |c| && start <= c[0]
    requires lines[start].number in steps[0]
    ensures Earliest(lines, steps, start, k).Some? && Earliest(lines, steps, start, k).value <= c[k]
  {
    if k > 0 {
      EarliestIsEarliest(lines, steps, start, c, k - 1);
      assert lines[c[k]].number in steps[k];
    }
  }

  /** The first line with a number above `previous` among the candidates (the inner search). */
  method FindNext(ordered: seq<Line>, candidates: Hits, previous: nat, ghost at: nat) returns (r: Option<nat>)
    requires Ordered(ordered) && at < |ordered| && ordered[at].number == previous
    ensures r == NextHit(ordered, candidates, at + 1)
  {
    for i := 0 to |ordered|
      invariant NextHit(ordered, candidates, at + 1) == NextHit(ordered, candidates, if i <= at then at + 1 else i)
    {
      if ordered[i].number > previous && ordered[i].number in candidates {
        return Some(i);
      }
    }
    return None;
  }

  /** The chain from `start` in which each step is at the first hit after the step before it. */
  ghost predicate AtFirstHits(lines: seq<Line>, steps: seq<Hits>, start: nat, c: seq<nat>)
    requires start < |lines|
  {
    |c| <= |steps| && forall j | 0 <= j < |c| :: Earliest(lines, steps, start, j) == Some(c[j])
  }

  /** The chain so far from a start line, each step at the first hit. */
  ghost predicate Selecting(lines: seq<Line>, steps: seq<Hits>, start: nat, selected: seq<nat>)
    requires start < |lines|
  {
    && 0 < |selected| <= |steps| && selected[0] == start && IsChain(lines, steps, selected)
    && AtFirstHits(lines, steps, start, selected) && selected[|selected| - 1] < |lines|
  }

  lemma SelectingStarts(lines: seq<Line>, steps: seq<Hits>, start: nat)
    requires start < |lines| && |steps| > 0 && lines[start].number in steps[0]
    ensures Selecting(lines, steps, start, [start])
  {
  }

  /** The next step is found or there is no earliest chain. */
  method SelectNext(ordered: seq<Line>, steps: seq<Hits>, k: nat, previous: nat, ghost start: nat,
                    ghost selected: seq<nat>)
    returns (next: Option<nat>)
    requires Ordered(ordered) && start < |ordered| && Selecting(ordered, steps, start, selected)
    requires k == |selected| < |steps| && previous == ordered[selected[|selected| - 1]].number
    ensures next.None? ==> Earliest(ordered, steps, start, |steps| - 1).None?
    ensures next.Some? ==> next.value < |ordered| && Selecting(ordered, steps, start, selected + [next.value])
  {
    hide Earliest, IsChain, Ordered;
    ghost var last := selected[k - 1];
    assert Earliest(ordered, steps, start, k - 1) == Some(last);
    EarliestNext(ordered, steps, start, k, last);
    next := FindNext(ordered, steps[k], previous, last);
    if next.None? {
      NoneStaysNone(ordered, steps, start, k, |steps| - 1);
    } else {
      ChainAppend(ordered, steps, selected, next.value);
    }
  }

  /** The chain a start line selects, or [] when a step finds no line. */
  method SelectFrom(ordered: seq<Line>, steps: seq<Hits>, start: nat) returns (selected: seq<nat>)
    requires Ordered(ordered) && |steps| > 0 && start < |ordered| && ordered[start].number in steps[0]
    ensures selected == [] ==> Earliest(ordered, steps, start, |steps| - 1).None?
    ensures selected != [] ==> |selected| == |steps| && IsChain(ordered, steps, selected) && selected[0] == start
    ensures selected != [] ==> AtFirstHits(ordered, steps, start, selected)
    ensures selected != [] ==> Earliest(ordered, steps, start, |steps| - 1) == Some(selected[|steps| - 1])
  {
    SelectingStarts(ordered, steps, start);
    hide NextHit, Earliest, IsChain, Ordered;
    selected := [start];
    var previous := ordered[start].number;
    for k := 1 to |steps|
      invariant |selected| == k && Selecting(ordered, steps, start, selected)
      invariant previous == ordered[selected[k - 1]].number
    {
      var next := SelectNext(ordered, steps, k, previous, start, selected);
      if next.None? {
        selected := [];
        return;
      }
      selected := selected + [next.value];
      previous := ordered[next.value].number;
    }
  }

  lemma ChainAppend(lines: seq<Line>, steps: seq<Hits>, c: seq<nat>, i: nat)
    requires IsChain(lines, steps, c) && c != [] && |c| < |steps|
    requires c[|c| - 1] < i < |lines| && lines[i].number in steps[|c|]
    ensures IsChain(lines, steps, c + [i])
  {
  }

  lemma EarliestNext(lines: seq<Line>, steps: seq<Hits>, start: nat, k: nat, at: nat)
    requires start < |lines| && 0 < k < |steps| && Earliest(lines, steps, start, k - 1) == Some(at)
    ensures at < |lines| && Earliest(lines, steps, start, k) == NextHit(lines, steps[k], at + 1)
  {
  }

  lemma {:induction false} NoneStaysNone(lines: seq<Line>, steps: seq<Hits>, start: nat, k: nat, n: nat)
    requires start < |lines| && k <= n < |steps| && Earliest(lines, steps, start, k).None?
    ensures Earliest(lines, steps, start, n).None?
  {
    if k < n {
      NoneStaysNone(lines, steps, start, k, n - 1);
    }
  }

  // ---------------------------------------------------------------------------
  // Groups that start at a line
  // ---------------------------------------------------------------------------

  /** The earliest chain from line `i` is a completion. */
  ghost predicate CanStart(lines: seq<Line>, steps: seq<Hits>, limit: real, i: nat) {
    && i < |lines| && |steps| > 0 && lines[i].number in steps[0]
    && Earliest(lines, steps, i, |steps| - 1).Some?
    && Fits(lines, limit, i, Earliest(lines, steps, i, |steps| - 1).value)
  }

  lemma {:induction false} EarliestAscends(lines: seq<Line>, steps: seq<Hits>, start: nat, k: nat)
    requires start < |lines| && k < |steps|
    ensures Earliest(lines, steps, start, k).Some? ==> start <= Earliest(lines, steps, start, k).value
    ensures Earliest(lines, steps, start, k).Some? && k > 0 ==> start < Earliest(lines, steps, start, k).value
  {
    if k > 0 {
      EarliestAscends(lines, steps, start, k - 1);
    }
  }

  /** When no line strays and some completion starts at a line, the earliest chain from it is one too. */
  lemma EarliestFits(lines: seq<Line>, steps: seq<Hits>, limit: real, c: seq<nat>)
    requires Framed(lines, limit) && IsCompletion(lines, steps, limit, c)
    ensures CanStart(lines, steps, limit, c[0])
  {
    var n := |steps| - 1;
    assert lines[c[0]].number in steps[0];
    EarliestIsEarliest(lines, steps, c[0], c, n);
    EarliestAscends(lines, steps, c[0], n);
    var e := Earliest(lines, steps, c[0], n).value;
    assert !Strays(lines, limit, c[0], e, c[n]);
    assert n == 0 ==> Earliest(lines, steps, c[0], 0) == Some(c[0]);
    hide Earliest, NextHit, IsChain, Framed;
    assert Fits(lines, limit, c[0], e);
  }

  lemma FamilyAppend(lines: seq<Line>, steps: seq<Hits>, limit: real, family: seq<seq<nat>>, c: seq<nat>)
    requires IsFamily(lines, steps, limit, family) && IsCompletion(lines, steps, limit, c)
    requires family != [] ==> Precedes(family[|family| - 1], c)
    ensures IsFamily(lines, steps, limit, family + [c])
  {
    forall f | 0 <= f < |family| ensures Precedes(family[f], c) {
      assert IsCompletion(lines, steps, limit, family[f]) && IsCompletion(lines, steps, limit, family[|family| - 1]);
      assert f < |family| - 1 ==> Precedes(family[f], family[|family| - 1]);
    }
  }

  // ---------------------------------------------------------------------------
  // Which groups the greedy finds
  // ---------------------------------------------------------------------------

  ghost predicate Within(group: seq<nat>, i: nat) {
    group != [] && group[0] <= i <= group[|group| - 1]
  }

  /** Every group is the earliest chain from a line that can start one, and of the first `n` lines every one
      that can start a group lies in one. */
  ghost predicate IsGreedy(lines: seq<Line>, steps: seq<Hits>, limit: real, groups: seq<seq<nat>>, n: nat) {
    && (forall k | 0 <= k < |groups| ::
          && groups[k] != [] && CanStart(lines, steps, limit, groups[k][0])
          && AtFirstHits(lines, steps, groups[k][0], groups[k]))
    && (forall i | 0 <= i < n && CanStart(lines, steps, limit, i) ::
          exists k :: 0 <= k < |groups| && Within(groups[k], i))
  }

  lemma GreedySkip(lines: seq<Line>, steps: seq<Hits>, limit: real, groups: seq<seq<nat>>, n: nat)
    requires IsGreedy(lines, steps, limit, groups, n)
    requires CanStart(lines, steps, limit, n) ==> groups != [] && Within(groups[|groups| - 1], n)
    ensures IsGreedy(lines, steps, limit, groups, n + 1)
  {
    hide CanStart, AtFirstHits, Within;
  }

  lemma GreedyTake(lines: seq<Line>, steps: seq<Hits>, limit: real, groups: seq<seq<nat>>, n: nat, group: seq<nat>)
    requires IsGreedy(lines, steps, limit, groups, n) && group != [] && group[0] == n && Within(group, n)
    requires CanStart(lines, steps, limit, n) && AtFirstHits(lines, steps, n, group)
    ensures IsGreedy(lines, steps, limit, groups + [group], n + 1)
  {
    hide CanStart, AtFirstHits, Within;
    var longer := groups + [group];
    assert longer[|groups|] == group && forall k | 0 <= k < |groups| :: longer[k] == groups[k];
    forall i | 0 <= i < n + 1 && CanStart(lines, steps, limit, i)
      ensures exists k :: 0 <= k < |longer| && Within(longer[k], i)
    {
      if i < n {
        var k :| 0 <= k < |groups| && Within(groups[k], i);
        assert Within(longer[k], i);
      }
    }
  }

  lemma NumbersGrow(lines: seq<Line>, j: nat, i: nat)
    requires Ordered(lines) && j < |lines| && i < |lines|
    ensures j < i ==> lines[j].number < lines[i].number
  {
  }

  lemma NoGroupsYet(lines: seq<Line>, steps: seq<Hits>, limit: real)
    ensures IsFamily(lines, steps, limit, []) && IsGreedy(lines, steps, limit, [], 0)
  {
  }

  /** The last group taken starts before line `i` and ends with the line numbered `end`. */
  ghost predicate IsLast(lines: seq<Line>, group: seq<nat>, i: nat, end: int) {
    group != [] && group[0] < i && group[|group| - 1] < |lines| && end == lines[group[|group| - 1]].number
  }

  lemma TakenIsLast(lines: seq<Line>, steps: seq<Hits>, limit: real, group: seq<nat>, i: nat)
    requires IsCompletion(lines, steps, limit, group) && group[0] == i
    ensures group[|group| - 1] < |lines| && Within(group, i)
    ensures IsLast(lines, group, i + 1, lines[group[|group| - 1]].number)
  {
    assert |group| > 1 ==> group[0] < group[|group| - 1];
  }

  lemma FollowsLast(groups: seq<seq<nat>>, group: seq<nat>)
    requires group != [] && (groups != [] ==> Ends(groups[|groups| - 1]) < group[0])
    ensures groups != [] ==> Precedes(groups[|groups| - 1], group)
  {
  }

  /** The loop's guard against the last group tells whether the line is past it. */
  lemma PastLast(lines: seq<Line>, group: seq<nat>, i: nat, end: int)
    requires Ordered(lines) && i < |lines| && IsLast(lines, group, i, end)
    ensures end < lines[i].number <==> Ends(group) < i
    ensures end >= lines[i].number ==> Within(group, i)
    ensures IsLast(lines, group, i + 1, end)
  {
    hide Ordered;
    NumbersGrow(lines, group[|group| - 1], i);
    NumbersGrow(lines, i, group[|group| - 1]);
  }

  /** The group that starts at line `i`, or [] when none does. */
  method GroupAt(ordered: seq<Line>, steps: seq<Hits>, maxIntervalMs: nat, i: nat) returns (group: seq<nat>)
    requires Ordered(ordered) && |steps| > 0 && i < |ordered|
    ensures group == [] <==> !CanStart(ordered, steps, maxIntervalMs as real, i)
    ensures group != [] ==> IsCompletion(ordered, steps, maxIntervalMs as real, group)
    ensures group != [] ==> group[0] == i && AtFirstHits(ordered, steps, i, group)
  {
    hide NextHit, Earliest, Ordered;
    if ordered[i].number !in steps[0] {
      return [];
    }
    group := SelectFrom(ordered, steps, i);
    if group == [] {
      return;
    }
    var firstMs, lastMs := ordered[i].ms, ordered[group[|group| - 1]].ms;
    if firstMs.None? || lastMs.None? || lastMs.value < firstMs.value
       || lastMs.value - firstMs.value > maxIntervalMs as real {
      group := [];
    }
  }

  /** What the greedy returns. */
  ghost predicate IsResult(lines: seq<Line>, steps: seq<Hits>, limit: real, groups: seq<seq<nat>>) {
    |steps| > 0 && IsFamily(lines, steps, limit, groups) && IsGreedy(lines, steps, limit, groups, |lines|)
  }

  /** `_matching_sequence_groups`: line positions of the groups found, in order. Whatever the clocks do, a
      line whose earliest chain is a completion starts a group unless it lies in the group before. */
  method MatchingSequenceGroups(ordered: seq<Line>, steps: seq<Hits>, maxIntervalMs: nat)
    returns (groups: seq<seq<nat>>)
    requires Ordered(ordered) && |steps| > 0
    ensures IsResult(ordered, steps, maxIntervalMs as real, groups)
    ensures Framed(ordered, maxIntervalMs as real) ==>
              forall family | IsFamily(ordered, steps, maxIntervalMs as real, family) :: |family| <= |groups|
  {
    ghost var limit := maxIntervalMs as real;
    NoGroupsYet(ordered, steps, limit);
    hide *;
    groups := [];
    var previousGroupEnd := -1;
    for i := 0 to |ordered|
      invariant IsFamily(ordered, steps, limit, groups) && IsGreedy(ordered, steps, limit, groups, i)
      invariant groups == [] ==> previousGroupEnd == -1
      invariant groups != [] ==> IsLast(ordered, groups[|groups| - 1], i, previousGroupEnd)
    {
      if groups != [] {
        PastLast(ordered, groups[|groups| - 1], i, previousGroupEnd);
      }
      var selected := [];
      if previousGroupEnd < ordered[i].number {
        selected := GroupAt(ordered, steps, maxIntervalMs, i);
      }
      if selected == [] {
        GreedySkip(ordered, steps, limit, groups, i);
      } else {
        TakenIsLast(ordered, steps, limit, selected, i);
        FollowsLast(groups, selected);
        FamilyAppend(ordered, steps, limit, groups, selected);
        GreedyTake(ordered, steps, limit, groups, i, selected);
        groups := groups + [selected];
        previousGroupEnd := ordered[selected[|selected| - 1]].number;
      }
    }
    assert IsResult(ordered, steps, limit, groups) by {
      ResultIs(ordered, steps, limit, groups);
    }
    if Framed(ordered, limit) {
      forall family | IsFamily(ordered, steps, limit, family) ensures |family| <= |groups| {
        KeepsUp(ordered, steps, limit, groups, family, |family|);
      }
    }
  }

  lemma ResultIs(lines: seq<Line>, steps: seq<Hits>, limit: real, groups: seq<seq<nat>>)
    requires |steps| > 0 && IsFamily(lines, steps, limit, groups) && IsGreedy(lines, steps, limit, groups, |lines|)
    ensures IsResult(lines, steps, limit, groups)
  {
  }

  // ---------------------------------------------------------------------------
  // When the greedy is optimal
  // ---------------------------------------------------------------------------

  lemma CompletionAscends(lines: seq<Line>, steps: seq<Hits>, limit: real, c: seq<nat>)
    requires IsCompletion(lines, steps, limit, c)
    ensures |c| == |steps| > 0 && c[0] <= Ends(c) < |lines| && lines[c[0]].number in steps[0]
  {
    assert |c| > 1 ==> c[0] < c[|c| - 1];
  }

  /** Members of a family start and end in order. */
  lemma FamilyAscends(lines: seq<Line>, steps: seq<Hits>, limit: real, family: seq<seq<nat>>, f: nat, h: nat)
    requires IsFamily(lines, steps, limit, family) && f < h < |family|
    ensures family[f] != [] && family[h] != []
    ensures family[f][0] <= Ends(family[f]) < family[h][0] <= Ends(family[h])
  {
    hide IsCompletion;
    CompletionAscends(lines, steps, limit, family[f]);
    CompletionAscends(lines, steps, limit, family[h]);
    assert Precedes(family[f], family[h]);
  }

  /** A line past the first `m` groups is in none of them. */
  lemma PastGroups(lines: seq<Line>, steps: seq<Hits>, limit: real, groups: seq<seq<nat>>, m: nat, i: nat, k: nat)
    requires IsFamily(lines, steps, limit, groups) && k < m <= |groups| && Ends(groups[m - 1]) < i
    ensures !Within(groups[k], i)
  {
    hide IsFamily;
    if k < m - 1 {
      FamilyAscends(lines, steps, limit, groups, k, m - 1);
    }
  }

  lemma InSomeGroup(lines: seq<Line>, steps: seq<Hits>, limit: real, groups: seq<seq<nat>>, i: nat) returns (k: nat)
    requires IsResult(lines, steps, limit, groups) && CanStart(lines, steps, limit, i)
    ensures k < |groups| && Within(groups[k], i) && IsFamily(lines, steps, limit, groups)
  {
    assert i < |lines|;
    hide CanStart, AtFirstHits, Within, IsFamily;
    k :| 0 <= k < |groups| && Within(groups[k], i);
  }

  /** A line that can start a group and is past the first `m` groups lies at or after the start of the next,
      which there is. */
  lemma NextGroup(lines: seq<Line>, steps: seq<Hits>, limit: real, groups: seq<seq<nat>>, m: nat, i: nat)
    requires IsResult(lines, steps, limit, groups) && CanStart(lines, steps, limit, i) && m <= |groups|
    requires m > 0 ==> Ends(groups[m - 1]) < i
    ensures m < |groups| && groups[m] != [] && groups[m][0] <= i
  {
    hide IsResult, CanStart, IsFamily;
    var k := InSomeGroup(lines, steps, limit, groups, i);
    if m > 0 {
      PastGroups(lines, steps, limit, groups, m, i, if k < m then k else m - 1);
    }
    if m < k {
      FamilyAscends(lines, steps, limit, groups, m, k);
    }
  }

  /** The greedy keeps up with every family: its first `m` groups are there and end no later. */
  lemma {:induction false} KeepsUp(lines: seq<Line>, steps: seq<Hits>, limit: real, groups: seq<seq<nat>>,
                                   family: seq<seq<nat>>, m: nat)
    requires Framed(lines, limit) && IsResult(lines, steps, limit, groups) && IsFamily(lines, steps, limit, family)
    requires m <= |family|
    ensures m <= |groups| && (m > 0 ==> Ends(groups[m - 1]) <= Ends(family[m - 1]))
  {
    hide *;
    if m > 0 {
      KeepsUp(lines, steps, limit, groups, family, m - 1);
      var c := family[m - 1];
      MemberFits(lines, steps, limit, family, m - 1);
      if m > 1 {
        FamilyAscends(lines, steps, limit, family, m - 2, m - 1);
      }
      NextGroup(lines, steps, limit, groups, m - 1, c[0]);
      GroupEnds(lines, steps, limit, groups, m - 1, c);
    }
  }

  lemma MemberFits(lines: seq<Line>, steps: seq<Hits>, limit: real, family: seq<seq<nat>>, f: nat)
    requires Framed(lines, limit) && IsFamily(lines, steps, limit, family) && f < |family|
    ensures family[f] != [] && IsCompletion(lines, steps, limit, family[f])
            && CanStart(lines, steps, limit, family[f][0])
  {
    hide CanStart, Framed;
    EarliestFits(lines, steps, limit, family[f]);
  }

  /** A group ends no later than any completion that starts at its start or later. */
  lemma GroupEnds(lines: seq<Line>, steps: seq<Hits>, limit: real, groups: seq<seq<nat>>, k: nat, c: seq<nat>)
    requires IsResult(lines, steps, limit, groups) && k < |groups| && groups[k] != []
    requires IsCompletion(lines, steps, limit, c) && groups[k][0] <= c[0]
    ensures Ends(groups[k]) <= Ends(c)
  {
    hide IsResult, CanStart, AtFirstHits, Earliest, IsChain, Fits;
    GroupIsEarliest(lines, steps, limit, groups, k);
    EarliestIsEarliest(lines, steps, groups[k][0], c, |steps| - 1);
  }

  lemma GroupIsEarliest(lines: seq<Line>, steps: seq<Hits>, limit: real, groups: seq<seq<nat>>, k: nat)
    requires IsResult(lines, steps, limit, groups) && k < |groups|
    ensures |groups[k]| == |steps| > 0 && groups[k][0] < |lines| && lines[groups[k][0]].number in steps[0]
    ensures CanStart(lines, steps, limit, groups[k][0]) && AtFirstHits(lines, steps, groups[k][0], groups[k])
    ensures Earliest(lines, steps, groups[k][0], |steps| - 1) == Some(Ends(groups[k]))
  {
    hide Earliest;
    assert IsCompletion(lines, steps, limit, groups[k]);
    assert CanStart(lines, steps, limit, groups[k][0]) && AtFirstHits(lines, steps, groups[k][0], groups[k]);
  }

  /** A line that strays between two others spoils a match of two steps: the greedy goes to it and finds no
      group, although the two others make one. */
  lemma StraySpoils(lines: seq<Line>, limit: real, i: nat, j: nat, k: nat)
    requires Ordered(lines) && Strays(lines, limit, i, j, k)
    ensures var steps: seq<Hits> := [{lines[i].number}, {lines[j].number, lines[k].number}];
            IsResult(lines, steps, limit, []) && IsFamily(lines, steps, limit, [[i, k]])
  {
    var steps: seq<Hits> := [{lines[i].number}, {lines[j].number, lines[k].number}];
    assert IsChain(lines, steps, [i, k]) && IsCompletion(lines, steps, limit, [i, k]);
    forall h: nat ensures !CanStart(lines, steps, limit, h) {
      if h < |lines| && lines[h].number in steps[0] {
        SameNumber(lines, h, i);
        FirstIsStray(lines, i, j, k);
        assert Earliest(lines, steps, i, 0) == Some(i);
        assert Earliest(lines, steps, i, 1) == NextHit(lines, steps[1], i + 1);
      }
    }
    hide CanStart;
  }

  lemma SameNumber(lines: seq<Line>, h: nat, i: nat)
    requires Ordered(lines) && h < |lines| && i < |lines| && lines[h].number == lines[i].number
    ensures h == i
  {
    NumbersGrow(lines, h, i);
    NumbersGrow(lines, i, h);
  }

  lemma FirstIsStray(lines: seq<Line>, i: nat, j: nat, k: nat)
    requires Ordered(lines) && i < j < k < |lines|
    ensures NextHit(lines, {lines[j].number, lines[k].number}, i + 1) == Some(j)
  {
    var next := NextHit(lines, {lines[j].number, lines[k].number}, i + 1);
    assert next.Some? && next.value <= j;
    if lines[next.value].number == lines[j].number {
      SameNumber(lines, next.value, j);
    } else {
      SameNumber(lines, next.value, k);
    }
  }

  /** At every limit: the greedy finds as many groups as any choice of disjoint completions, whatever the steps,
      if and only if no line strays. */
  lemma OptimalExactly(lines: seq<Line>, limit: real)
    requires Ordered(lines)
    ensures (forall steps, groups, family |
               IsResult(lines, steps, limit, groups) && IsFamily(lines, steps, limit, family) :: |family| <= |groups|)
            <==> Framed(lines, limit)
  {
    if Framed(lines, limit) {
      forall steps, groups, family |
        IsResult(lines, steps, limit, groups) && IsFamily(lines, steps, limit, family)
        ensures |family| <= |groups|
      {
        KeepsUp(lines, steps, limit, groups, family, |family|);
      }
    } else {
      var i, j, k :| Strays(lines, limit, i, j, k);
      hide IsResult, IsFamily, Ordered;
      StraySpoils(lines, limit, i, j, k);
      assert |[[i, k]]| == 1;
    }
  }

  /** The result is determined: two lists of groups that the greedy may return are equal. */
  lemma {:induction false} OneResult(lines: seq<Line>, steps: seq<Hits>, limit: real, a: seq<seq<nat>>,
                                     b: seq<seq<nat>>, m: nat)
    requires IsResult(lines, steps, limit, a) && IsResult(lines, steps, limit, b) && m <= |a|
    ensures m <= |b| && a[..m] == b[..m]
    ensures m == |a| ==> a == b
  {
    hide *;
    if m > 0 {
      OneResult(lines, steps, limit, a, b, m - 1);
      assert m > 1 ==> a[..m - 1][m - 2] == b[..m - 1][m - 2];
      SameNext(lines, steps, limit, a, b, m - 1);
      assert a[..m] == a[..m - 1] + [a[m - 1]] && b[..m] == b[..m - 1] + [b[m - 1]];
    }
    if m == |a| {
      assert m > 0 ==> a[..m][m - 1] == b[..m][m - 1];
      NoMore(lines, steps, limit, a, b);
      assert a[..m] == a && b[..m] == b;
    }
  }

  lemma NoMore(lines: seq<Line>, steps: seq<Hits>, limit: real, a: seq<seq<nat>>, b: seq<seq<nat>>)
    requires IsResult(lines, steps, limit, a) && IsResult(lines, steps, limit, b) && |a| <= |b|
    requires a != [] ==> a[|a| - 1] == b[|a| - 1]
    ensures |a| == |b|
  {
    hide *;
    if |a| < |b| {
      SameNext(lines, steps, limit, b, a, |a|);
    }
  }

  lemma SameNext(lines: seq<Line>, steps: seq<Hits>, limit: real, a: seq<seq<nat>>, b: seq<seq<nat>>, m: nat)
    requires IsResult(lines, steps, limit, a) && IsResult(lines, steps, limit, b) && m < |a| && m <= |b|
    requires m > 0 ==> a[m - 1] == b[m - 1]
    ensures m < |b| && a[m] == b[m]
  {
    hide *;
    GroupIsEarliest(lines, steps, limit, a, m);
    GroupFollows(lines, steps, limit, a, m);
    NextGroup(lines, steps, limit, b, m, a[m][0]);
    GroupIsEarliest(lines, steps, limit, b, m);
    GroupFollows(lines, steps, limit, b, m);
    NextGroup(lines, steps, limit, a, m, b[m][0]);
    SameChain(lines, steps, a[m][0], a[m], b[m]);
  }

  lemma GroupFollows(lines: seq<Line>, steps: seq<Hits>, limit: real, groups: seq<seq<nat>>, m: nat)
    requires IsResult(lines, steps, limit, groups) && m < |groups|
    ensures m > 0 ==> groups[m] != [] && Ends(groups[m - 1]) < groups[m][0]
  {
    hide IsFamily, IsGreedy, IsCompletion;
    if m > 0 {
      FamilyAscends(lines, steps, limit, groups, m - 1, m);
    }
  }

  lemma SameChain(lines: seq<Line>, steps: seq<Hits>, start: nat, c: seq<nat>, d: seq<nat>)
    requires start < |lines| && AtFirstHits(lines, steps, start, c) && AtFirstHits(lines, steps, start, d) && |c| == |d|
    ensures c == d
  {
    hide Earliest;
    forall j | 0 <= j < |c| ensures c[j] == d[j] {
      assert Earliest(lines, steps, start, j) == Some(c[j]) && Earliest(lines, steps, start, j) == Some(d[j]);
    }
  }

  // ---------------------------------------------------------------------------
  // The lines of all groups
  // ---------------------------------------------------------------------------

  function Flatten(groups: seq<seq<nat>>): seq<nat> {
    if groups == [] then [] else Flatten(groups[..|groups| - 1]) + groups[|groups| - 1]
  }

  lemma IncreasingAppend(a: seq<nat>, b: seq<nat>)
    requires Increasing(a) && Increasing(b) && b != [] && (a != [] ==> a[|a| - 1] < b[0])
    ensures Increasing(a + b)
  {
    assert forall i | 0 <= i < |a| :: a[i] <= a[|a| - 1];
    assert forall j | 0 <= j < |b| :: b[0] <= b[j];
  }

  lemma FamilyLast(lines: seq<Line>, steps: seq<Hits>, limit: real, family: seq<seq<nat>>)
    requires IsFamily(lines, steps, limit, family) && family != []
    ensures var n := |family| - 1;
            && IsFamily(lines, steps, limit, family[..n]) && |family[n]| == |steps| > 0 && Increasing(family[n])
            && (n > 0 ==> Ends(family[n - 1]) < family[n][0] && family[n - 1] != [])
  {
    var n := |family| - 1;
    assert IsCompletion(lines, steps, limit, family[n]);
    assert n > 0 ==> Precedes(family[n - 1], family[n]) && IsCompletion(lines, steps, limit, family[n - 1]);
    hide Fits;
  }

  /** No line is reported twice, lines come in order, and each group brings one line for each step. */
  lemma {:induction false} FamilyFlattens(lines: seq<Line>, steps: seq<Hits>, limit: real, family: seq<seq<nat>>)
    requires IsFamily(lines, steps, limit, family)
    ensures Increasing(Flatten(family)) && |Flatten(family)| == |family| * |steps|
    ensures family != [] ==>
              Flatten(family) != [] && Flatten(family)[|Flatten(family)| - 1] == Ends(family[|family| - 1])
  {
    if family != [] {
      FamilyLast(lines, steps, limit, family);
      hide IsFamily;
      var n := |family| - 1;
      FamilyFlattens(lines, steps, limit, family[..n]);
      IncreasingAppend(Flatten(family[..n]), family[n]);
      assert |family| * |steps| == n * |steps| + |steps|;
    }
  }

  /** `_module_match_lines` for a sequence match. */
  method ModuleMatchLines(ordered: seq<Line>, steps: seq<Hits>, maxIntervalMs: nat)
    returns (matched: seq<nat>, count: nat, ghost groups: seq<seq<nat>>)
    requires Ordered(ordered) && |steps| > 0
    ensures IsResult(ordered, steps, maxIntervalMs as real, groups)
    ensures count == |groups| && matched == Flatten(groups)
    ensures Increasing(matched) && |matched| == count * |steps|
  {
    var found := MatchingSequenceGroups(ordered, steps, maxIntervalMs);
    groups := found;
    FamilyFlattens(ordered, steps, maxIntervalMs as real, groups);
    hide *;
    matched, count := [], |found|;
    for i := 0 to |found|
      invariant matched == Flatten(found[..i])
    {
      FlattenStep(found, i);
      matched := matched + found[i];
    }
    assert found[..|found|] == found;
  }

  lemma FlattenStep(groups: seq<seq<nat>>, i: nat)
    requires i < |groups|
    ensures Flatten(groups[..i + 1]) == Flatten(groups[..i]) + groups[i]
  {
    assert groups[..i + 1][..i] == groups[..i];
  }
}
