/** Cutting trace frames into rounds at idle gaps. */
module TraceCluster {

  import opened Sorting
  import opened Wrappers

  /** A frame with its row id and, when its time could be read, its absolute time. */
  datatype Frame = Frame(id: int, abs: Option<int>)

  ghost predicate DistinctIds(frames: seq<Frame>) {
    forall i, j | 0 <= i < j < |frames| :: frames[i].id != frames[j].id
  }

  // ---------------------------------------------------------------------------
  // Ordering by time, then id
  // ---------------------------------------------------------------------------

  function At(f: Frame): int {
    match f.abs case Some(ms) => ms case None => 0
  }

  /** The key `(abs_ms, frame_id)`. */
  function ByTime(): (Frame, Frame) -> bool {
    (f: Frame, g: Frame) => At(f) < At(g) || (At(f) == At(g) && f.id <= g.id)
  }

  function Timed(frames: seq<Frame>): (r: seq<Frame>)
    ensures forall f :: f in r <==> f in frames && f.abs.Some?
  {
    if frames == [] then []
    else
      assert frames == [frames[0]] + frames[1..];
      (if frames[0].abs.Some? then [frames[0]] else []) + Timed(frames[1..])
  }

  /** The timed frames in order. */
  function SortTimed(frames: seq<Frame>): (r: seq<Frame>)
    ensures forall f :: f in r <==> f in frames && f.abs.Some?
  {
    Sort(Timed(frames), ByTime())
  }

  /** Timed frames in order of time, those of one time in order of ids. */
  ghost predicate InOrder(frames: seq<Frame>) {
    && (forall f | f in frames :: f.abs.Some?)
    && forall i, j | 0 <= i < j < |frames| && frames[i].abs.Some? && frames[j].abs.Some? ::
         frames[i].abs.value < frames[j].abs.value
         || (frames[i].abs.value == frames[j].abs.value && frames[i].id <= frames[j].id)
  }

  lemma SortTimedInOrder(frames: seq<Frame>)
    ensures InOrder(SortTimed(frames)) && multiset(SortTimed(frames)) == multiset(Timed(frames))
  {
    ByTimeOrder();
    SortSorted(Timed(frames), ByTime());
    var r := SortTimed(frames);
    hide Sort, Timed, SortTimed;
    forall i: nat, j: nat | i < j < |r| ensures ByTime()(r[i], r[j]) {
    }
    assert forall i | 0 <= i < |r| :: r[i] in r;
  }

  lemma ByTimeOrder()
    ensures IsOrder(ByTime())
  {
  }

  lemma {:induction false} TimedDistinct(frames: seq<Frame>)
    requires DistinctIds(frames)
    ensures Distinct(Timed(frames))
  {
    if frames != [] {
      TimedDistinct(frames[1..]);
      assert forall f | f in frames[1..] :: f.id != frames[0].id;
    }
  }

  /** A set of frames has one sorted listing. */
  lemma SortTimedUnique(a: seq<Frame>, b: seq<Frame>)
    requires DistinctIds(a) && DistinctIds(b) && forall f :: f in a <==> f in b
    ensures SortTimed(a) == SortTimed(b)
  {
    TimedDistinct(a);
    TimedDistinct(b);
    SameCounts(Timed(a), Timed(b));
    forall f, g | f in Timed(a) && g in Timed(a) && ByTime()(f, g) && ByTime()(g, f) ensures f == g {
      assert f in a && g in a && f.id == g.id;
    }
    hide Timed;
    SortIgnoresOrder(Timed(a), Timed(b), ByTime());
  }

  // ---------------------------------------------------------------------------
  // Clusters
  // ---------------------------------------------------------------------------

  function Last<T>(xs: seq<T>): T
    requires xs != []
  {
    xs[|xs| - 1]
  }

  /** Every cluster has a last frame, which is timed. */
  predicate AllEnd(clusters: seq<seq<Frame>>) {
    forall i | 0 <= i < |clusters| :: clusters[i] != [] && Last(clusters[i]).abs.Some?
  }

  /** A frame joins the last cluster when the gap to that cluster's last frame allows it. */
  function Join(clusters: seq<seq<Frame>>, f: Frame, gap: nat): (r: seq<seq<Frame>>)
    requires f.abs.Some? && AllEnd(clusters)
    ensures AllEnd(r)
  {
    if clusters != [] && f.abs.value - Last(Last(clusters)).abs.value <= gap
    then clusters[|clusters| - 1 := Last(clusters) + [f]]
    else clusters + [[f]]
  }

  function Group(ordered: seq<Frame>, gap: nat): (clusters: seq<seq<Frame>>)
    requires forall f | f in ordered :: f.abs.Some?
    ensures AllEnd(clusters)
  {
    if ordered == [] then [] else Join(Group(ordered[..|ordered| - 1], gap), Last(ordered), gap)
  }

  function Untimed(frames: seq<Frame>): seq<seq<Frame>> {
    if frames == [] then []
    else Untimed(frames[..|frames| - 1]) + if Last(frames).abs.None? then [[Last(frames)]] else []
  }

  /** `_cluster`. */
  method Cluster(frames: seq<Frame>, gap: nat) returns (clusters: seq<seq<Frame>>)
    ensures clusters == Group(SortTimed(frames), gap) + Untimed(frames)
  {
    hide SortTimed, Untimed;
    var ordered := SortTimed(frames);
    clusters := [];
    for i := 0 to |ordered|
      invariant clusters == Group(ordered[..i], gap)
    {
      assert ordered[..i + 1][..i] == ordered[..i];
      var frame := ordered[i];
      assert frame in ordered;
      if clusters != [] && frame.abs.value - Last(Last(clusters)).abs.value <= gap {
        clusters := clusters[|clusters| - 1 := Last(clusters) + [frame]];
      } else {
        clusters := clusters + [[frame]];
      }
    }
    assert ordered[..|ordered|] == ordered;
    ghost var timed := clusters;
    UntimedNone();
    hide *;
    for i := 0 to |frames|
      invariant clusters == timed + Untimed(frames[..i])
    {
      UntimedNext(frames, i);
      if frames[i].abs.None? {
        clusters := clusters + [[frames[i]]];
      }
    }
    assert frames[..|frames|] == frames;
  }

  lemma UntimedNone()
    ensures Untimed([]) == []
  {
  }

  lemma UntimedNext(frames: seq<Frame>, i: nat)
    requires i < |frames|
    ensures Untimed(frames[..i + 1]) == Untimed(frames[..i]) + if frames[i].abs.None? then [[frames[i]]] else []
  {
    assert frames[..i + 1][..i] == frames[..i];
  }

  // ---------------------------------------------------------------------------
  // Clusters are the connected components
  // ---------------------------------------------------------------------------

  predicate Near(a: Frame, b: Frame, gap: nat) {
    a.abs.Some? && b.abs.Some? && a.abs.value - b.abs.value <= gap && b.abs.value - a.abs.value <= gap
  }

  /** A chain of frames, each within the gap of the next. */
  ghost predicate IsChain(frames: seq<Frame>, chain: seq<Frame>, gap: nat) {
    && chain != [] && (forall f | f in chain :: f in frames && f.abs.Some?)
    && forall i | 0 < i < |chain| :: Near(chain[i - 1], chain[i], gap)
  }

  ghost predicate Linked(frames: seq<Frame>, f: Frame, g: Frame, gap: nat) {
    exists chain :: IsChain(frames, chain, gap) && chain[0] == f && Last(chain) == g
  }

  ghost predicate SameCluster(clusters: seq<seq<Frame>>, f: Frame, g: Frame) {
    exists i :: 0 <= i < |clusters| && f in clusters[i] && g in clusters[i]
  }

  /** Every frame of `c` is more than the gap before every frame of `d`. */
  ghost predicate FarBefore(c: seq<Frame>, d: seq<Frame>, gap: nat) {
    forall f, g | f in c && g in d :: f.abs.Some? && g.abs.Some? && g.abs.value - f.abs.value > gap
  }

  /** Frames of different clusters are further apart than the gap. */
  ghost predicate Apart(clusters: seq<seq<Frame>>, gap: nat) {
    forall i, j | 0 <= i < j < |clusters| :: FarBefore(clusters[i], clusters[j], gap)
  }

  /** Inside a cluster, which is not empty, each frame is near the next. */
  ghost predicate Tight(c: seq<Frame>, gap: nat) {
    c != [] && forall i | 0 < i < |c| :: Near(c[i - 1], c[i], gap)
  }

  ghost predicate AllTight(clusters: seq<seq<Frame>>, gap: nat) {
    forall i | 0 <= i < |clusters| :: Tight(clusters[i], gap)
  }

  /** The frames of the clusters are the frames listed, cluster after cluster. */
  function Flatten(clusters: seq<seq<Frame>>): seq<Frame> {
    if clusters == [] then [] else Flatten(clusters[..|clusters| - 1]) + Last(clusters)
  }

  ghost predicate IsSplit(ordered: seq<Frame>, clusters: seq<seq<Frame>>, gap: nat) {
    Apart(clusters, gap) && AllTight(clusters, gap) && Flatten(clusters) == ordered
  }

  lemma LastIsLatest(ordered: seq<Frame>, f: Frame)
    requires InOrder(ordered + [f])
    ensures InOrder(ordered) && f.abs.Some?
    ensures forall g | g in ordered :: g.abs.Some? && g.abs.value <= f.abs.value
  {
    var longer := ordered + [f];
    assert longer[|ordered|] == f && f in longer;
    forall i | 0 <= i < |ordered| ensures ordered[i].abs.Some? && ordered[i].abs.value <= f.abs.value {
      assert longer[i] == ordered[i] && ordered[i] in longer;
    }
    assert forall i | 0 <= i < |ordered| :: longer[i] == ordered[i];
  }

  lemma NotAfterLast(ordered: seq<Frame>, x: Frame)
    requires InOrder(ordered) && x in ordered
    ensures x.abs.Some? && Last(ordered).abs.Some? && x.abs.value <= Last(ordered).abs.value
  {
    var i :| 0 <= i < |ordered| && ordered[i] == x;
    assert Last(ordered) in ordered;
    assert ordered[i] in ordered;
  }

  lemma {:induction false} FlattenHas(clusters: seq<seq<Frame>>, i: nat, f: Frame)
    requires i < |clusters| && f in clusters[i]
    ensures f in Flatten(clusters)
  {
    if i < |clusters| - 1 {
      FlattenHas(clusters[..|clusters| - 1], i, f);
    }
  }

  lemma {:induction false} FlattenFrom(clusters: seq<seq<Frame>>, f: Frame) returns (i: nat)
    requires f in Flatten(clusters)
    ensures i < |clusters| && f in clusters[i]
  {
    i := |clusters| - 1;
    if f !in Last(clusters) {
      i := FlattenFrom(clusters[..|clusters| - 1], f);
    }
  }

  lemma FlattenAppend(clusters: seq<seq<Frame>>, c: seq<Frame>)
    ensures Flatten(clusters + [c]) == Flatten(clusters) + c
  {
    assert (clusters + [c])[..|clusters|] == clusters;
  }

  /** Starting a cluster after a gap. */
  lemma StartSplits(ordered: seq<Frame>, f: Frame, clusters: seq<seq<Frame>>, gap: nat)
    requires InOrder(ordered + [f]) && IsSplit(ordered, clusters, gap)
    requires ordered != [] ==> Last(ordered).abs.Some? && f.abs.Some? && f.abs.value - Last(ordered).abs.value > gap
    ensures IsSplit(ordered + [f], clusters + [[f]], gap)
  {
    LastIsLatest(ordered, f);
    FlattenAppend(clusters, [f]);
    forall i | 0 <= i < |clusters| ensures FarBefore(clusters[i], [f], gap) {
      forall g | g in clusters[i] ensures g.abs.Some? && f.abs.value - g.abs.value > gap {
        FlattenHas(clusters, i, g);
        NotAfterLast(ordered, g);
      }
    }
    hide FarBefore, Tight, InOrder;
    assert Tight([f], gap) by { OneIsTight(f, gap); }
  }

  lemma OneIsTight(f: Frame, gap: nat)
    ensures Tight([f], gap)
  {
  }

  /** Extending the last cluster. */
  lemma ExtendSplits(ordered: seq<Frame>, f: Frame, clusters: seq<seq<Frame>>, gap: nat)
    requires InOrder(ordered + [f]) && IsSplit(ordered, clusters, gap) && clusters != [] && ordered != []
    requires f.abs.Some? && Last(ordered).abs.Some? && f.abs.value - Last(ordered).abs.value <= gap
    ensures IsSplit(ordered + [f], clusters[|clusters| - 1 := Last(clusters) + [f]], gap)
  {
    var n, last := |clusters| - 1, Last(clusters);
    LastIsLatest(ordered, f);
    assert clusters[n := last + [f]] == clusters[..n] + [last + [f]];
    FlattenAppend(clusters[..n], last + [f]);
    assert Flatten(clusters[..n]) + (last + [f]) == ordered + [f];
    assert Tight(clusters[n], gap) && Last(last) == Last(ordered);
    ExtendTight(last, f, gap);
    forall i | 0 <= i < n ensures FarBefore(clusters[i], last + [f], gap) {
      assert FarBefore(clusters[i], clusters[n], gap) && Last(last) in clusters[n] && Last(last) in ordered;
      assert f.abs.value >= Last(last).abs.value;
    }
    hide FarBefore, Tight, InOrder, Flatten;
  }

  lemma ExtendTight(c: seq<Frame>, f: Frame, gap: nat)
    requires Tight(c, gap) && Last(c).abs.Some? && f.abs.Some? && 0 <= f.abs.value - Last(c).abs.value <= gap
    ensures Tight(c + [f], gap)
  {
    forall i | 0 < i < |c + [f]| ensures Near((c + [f])[i - 1], (c + [f])[i], gap) {
      if i < |c| {
        assert Near(c[i - 1], c[i], gap);
      }
    }
  }

  lemma LastOfFlatten(ordered: seq<Frame>, clusters: seq<seq<Frame>>, gap: nat)
    requires IsSplit(ordered, clusters, gap)
    ensures clusters == [] <==> ordered == []
    ensures clusters != [] ==> Last(clusters) != [] && Last(Last(clusters)) == Last(ordered)
  {
    if clusters != [] {
      assert Tight(clusters[|clusters| - 1], gap);
    }
  }

  lemma {:induction false} GroupSplits(ordered: seq<Frame>, gap: nat)
    requires InOrder(ordered)
    ensures IsSplit(ordered, Group(ordered, gap), gap)
  {
    if ordered != [] {
      var init, f := ordered[..|ordered| - 1], Last(ordered);
      assert ordered == init + [f];
      LastIsLatest(init, f);
      assert init != [] ==> Last(init) in init;
      var clusters := Group(init, gap);
      assert Group(ordered, gap) == Join(clusters, f, gap);
      hide Group, InOrder, IsSplit;
      GroupSplits(init, gap);
      LastOfFlatten(init, clusters, gap);
      if init != [] && f.abs.value - Last(init).abs.value <= gap {
        ExtendSplits(init, f, clusters, gap);
      } else {
        StartSplits(init, f, clusters, gap);
      }
    }
  }

  // ---------------------------------------------------------------------------

  /** A step within the gap does not leave a cluster. */
  lemma NearStays(clusters: seq<seq<Frame>>, gap: nat, i: nat, j: nat, f: Frame, g: Frame)
    requires Apart(clusters, gap) && i < |clusters| && j < |clusters| && f in clusters[i] && g in clusters[j]
    requires Near(f, g, gap)
    ensures i == j
  {
    hide Near;
    NotFar(clusters[i], clusters[j], f, g, gap);
  }

  lemma NotFar(c: seq<Frame>, d: seq<Frame>, f: Frame, g: Frame, gap: nat)
    requires Near(f, g, gap) && f in c && g in d
    ensures !FarBefore(c, d, gap) && !FarBefore(d, c, gap)
  {
  }

  lemma {:induction false} ChainStays(ordered: seq<Frame>, clusters: seq<seq<Frame>>, gap: nat,
                                      chain: seq<Frame>, i: nat, k: nat)
    requires IsSplit(ordered, clusters, gap) && IsChain(ordered, chain, gap)
    requires i < |clusters| && chain[0] in clusters[i] && k < |chain|
    ensures chain[k] in clusters[i]
  {
    if k > 0 {
      ChainStays(ordered, clusters, gap, chain, i, k - 1);
      assert Near(chain[k - 1], chain[k], gap) && chain[k] in chain;
      var j := FlattenFrom(clusters, chain[k]);
      NearStays(clusters, gap, i, j, chain[k - 1], chain[k]);
    }
  }

  lemma UpChain(frames: seq<Frame>, c: seq<Frame>, gap: nat, i: nat, j: nat)
    requires Tight(c, gap) && (forall f | f in c :: f in frames && f.abs.Some?) && i <= j < |c|
    ensures Linked(frames, c[i], c[j], gap)
  {
    var chain := c[i..j + 1];
    forall k | 0 < k < |chain| ensures Near(chain[k - 1], chain[k], gap) {
      assert Near(c[i + k - 1], c[i + k], gap);
    }
    assert IsChain(frames, chain, gap);
  }

  lemma LinkedBack(frames: seq<Frame>, f: Frame, g: Frame, gap: nat)
    requires Linked(frames, f, g, gap)
    ensures Linked(frames, g, f, gap)
  {
    var up :| IsChain(frames, up, gap) && up[0] == f && Last(up) == g;
    var down := seq(|up|, k requires 0 <= k < |up| => up[|up| - 1 - k]);
    forall k | 0 < k < |down| ensures Near(down[k - 1], down[k], gap) {
      var m := |up| - k;
      assert Near(up[m - 1], up[m], gap);
    }
    assert IsChain(frames, down, gap);
  }

  lemma ClusterLinks(frames: seq<Frame>, c: seq<Frame>, gap: nat, f: Frame, g: Frame)
    requires Tight(c, gap) && (forall h | h in c :: h in frames && h.abs.Some?) && f in c && g in c
    ensures Linked(frames, f, g, gap)
  {
    var i :| 0 <= i < |c| && c[i] == f;
    var j :| 0 <= j < |c| && c[j] == g;
    if i <= j {
      UpChain(frames, c, gap, i, j);
    } else {
      UpChain(frames, c, gap, j, i);
      LinkedBack(frames, g, f, gap);
    }
  }

  lemma SplitLinks(frames: seq<Frame>, ordered: seq<Frame>, clusters: seq<seq<Frame>>, gap: nat, f: Frame, g: Frame)
    requires IsSplit(ordered, clusters, gap) && forall h :: h in ordered <==> h in frames && h.abs.Some?
    requires f in ordered && g in ordered
    ensures SameCluster(clusters, f, g) <==> Linked(frames, f, g, gap)
  {
    if i: nat :| i < |clusters| && f in clusters[i] && g in clusters[i] {
      forall h | h in clusters[i] ensures h in ordered {
        FlattenHas(clusters, i, h);
      }
      assert Tight(clusters[i], gap);
      ClusterLinks(frames, clusters[i], gap, f, g);
    }
    if chain :| IsChain(frames, chain, gap) && chain[0] == f && Last(chain) == g {
      assert IsChain(ordered, chain, gap);
      var i := FlattenFrom(clusters, f);
      ChainStays(ordered, clusters, gap, chain, i, |chain| - 1);
      assert f in clusters[i] && g in clusters[i];
    }
  }

  /** Two timed frames share a cluster exactly when a chain of frames with steps of at most the gap joins
      them. */
  lemma ClustersAreComponents(frames: seq<Frame>, gap: nat, f: Frame, g: Frame)
    requires f in frames && f.abs.Some? && g in frames && g.abs.Some?
    ensures SameCluster(Group(SortTimed(frames), gap), f, g) <==> Linked(frames, f, g, gap)
  {
    var ordered := SortTimed(frames);
    SortTimedInOrder(frames);
    GroupSplits(ordered, gap);
    hide Group, IsSplit, SameCluster, Linked, InOrder;
    SplitLinks(frames, ordered, Group(ordered, gap), gap, f, g);
  }

  /** Every timed frame is in a cluster, and in no other one. */
  ghost predicate InExactlyOne(frames: seq<Frame>, clusters: seq<seq<Frame>>) {
    && (forall f | f in frames && f.abs.Some? :: exists i :: 0 <= i < |clusters| && f in clusters[i])
    && (forall i, j, f | 0 <= i < j < |clusters| && f in clusters[i] :: f !in clusters[j])
  }

  lemma SplitIsPartition(frames: seq<Frame>, ordered: seq<Frame>, clusters: seq<seq<Frame>>, gap: nat)
    requires IsSplit(ordered, clusters, gap) && forall f | f in frames && f.abs.Some? :: f in ordered
    ensures InExactlyOne(frames, clusters)
  {
    hide Flatten, Tight, AllTight;
    forall f | f in frames && f.abs.Some? ensures exists i :: 0 <= i < |clusters| && f in clusters[i] {
      var i := FlattenFrom(clusters, f);
    }
    forall i, j, f | 0 <= i < j < |clusters| && f in clusters[i] ensures f !in clusters[j] {
      assert FarBefore(clusters[i], clusters[j], gap);
    }
  }

  /** Every timed frame is in exactly one cluster, and the clusters one after the other list the frames in
      time order. */
  lemma ClustersPartition(frames: seq<Frame>, gap: nat)
    ensures Flatten(Group(SortTimed(frames), gap)) == SortTimed(frames) && InOrder(SortTimed(frames))
    ensures multiset(SortTimed(frames)) == multiset(Timed(frames))
    ensures InExactlyOne(frames, Group(SortTimed(frames), gap))
  {
    hide SortTimed, Group, InOrder, Flatten;
    SortTimedInOrder(frames);
    GroupSplits(SortTimed(frames), gap);
    SplitIsPartition(frames, SortTimed(frames), Group(SortTimed(frames), gap), gap);
  }

  /** The timed clusters do not depend on the order in which the frames come. */
  lemma OrderDoesNotMatter(a: seq<Frame>, b: seq<Frame>, gap: nat)
    requires DistinctIds(a) && DistinctIds(b) && forall f :: f in a <==> f in b
    ensures Group(SortTimed(a), gap) == Group(SortTimed(b), gap)
  {
    SortTimedUnique(a, b);
  }

  /** Each frame without a time is a round of its own, after the others and in the order it came. */
  lemma {:induction false} UntimedAlone(frames: seq<Frame>)
    ensures forall c: seq<Frame> | c in Untimed(frames) :: |c| == 1 && c[0] in frames && c[0].abs.None?
    ensures forall f: Frame | f in frames && f.abs.None? :: [f] in Untimed(frames)
  {
    if frames != [] {
      var init := frames[..|frames| - 1];
      UntimedAlone(init);
      forall f: Frame | f in frames && f.abs.None? ensures [f] in Untimed(frames) {
        if f in init {
          assert [f] in Untimed(init);
        }
      }
    }
  }
}
