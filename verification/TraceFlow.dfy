/** Grouping the frames of a round into flows, one for each message sequence number. */
module TraceFlow {

  import opened Sorting
  import opened Wrappers

  type Address = string

  /** A meter address of a frame: plain in requests and old answers, or with a denial mark. */
  datatype Item = Plain(address: Address) | Marked(address: Address, denied: bool)

  datatype Frame = Frame(id: int, msgSeq: Option<nat>, isDown: bool, items: seq<Item>)

  datatype Flow = Flow(msgSeq: nat, downs: seq<Frame>, ups: seq<Frame>)

  function ById(): (Frame, Frame) -> bool {
    (f: Frame, g: Frame) => f.id <= g.id
  }

  /** The frames of one sequence number and direction, in order. */
  function Select(frames: seq<Frame>, msgSeq: nat, isDown: bool): seq<Frame> {
    if frames == [] then []
    else
      var last := frames[|frames| - 1];
      Select(frames[..|frames| - 1], msgSeq, isDown)
        + if last.msgSeq == Some(msgSeq) && last.isDown == isDown then [last] else []
  }

  /** The first frame of a sequence number, by position. */
  ghost function FirstOf(frames: seq<Frame>, msgSeq: nat): (i: nat)
    ensures i <= |frames|
    ensures i < |frames| ==> frames[i].msgSeq == Some(msgSeq)
    ensures forall k | 0 <= k < i :: frames[k].msgSeq != Some(msgSeq)
  {
    if frames == [] then 0
    else
      var i := FirstOf(frames[..|frames| - 1], msgSeq);
      if i < |frames| - 1 || frames[|frames| - 1].msgSeq == Some(msgSeq) then i else |frames|
  }

  /** `flow` holds exactly the frames of its sequence number, and it has some. */
  ghost predicate IsFlow(frames: seq<Frame>, flow: Flow) {
    && flow.downs == Select(frames, flow.msgSeq, true)
    && flow.ups == Select(frames, flow.msgSeq, false)
    && FirstOf(frames, flow.msgSeq) < |frames|
  }

  ghost predicate AllFlows(frames: seq<Frame>, flows: seq<Flow>) {
    forall k | 0 <= k < |flows| :: IsFlow(frames, flows[k])
  }

  ghost predicate HasFlow(flows: seq<Flow>, msgSeq: nat) {
    exists k :: 0 <= k < |flows| && flows[k].msgSeq == msgSeq
  }

  /** No frame with a sequence number is left out. */
  ghost predicate Covers(frames: seq<Frame>, flows: seq<Flow>) {
    forall i | 0 <= i < |frames| && frames[i].msgSeq.Some? :: HasFlow(flows, frames[i].msgSeq.value)
  }

  ghost predicate InFirstOrder(frames: seq<Frame>, flows: seq<Flow>) {
    forall j, k | 0 <= j < k < |flows| :: FirstOf(frames, flows[j].msgSeq) < FirstOf(frames, flows[k].msgSeq)
  }

  /** One flow for each sequence number, holding exactly its frames, ordered by first frame. */
  ghost predicate IsGrouping(frames: seq<Frame>, flows: seq<Flow>) {
    AllFlows(frames, flows) && Covers(frames, flows) && InFirstOrder(frames, flows)
  }

  function AddTo(flow: Flow, f: Frame): Flow {
    if f.isDown then flow.(downs := flow.downs + [f]) else flow.(ups := flow.ups + [f])
  }

  /** `flows` with `f` added to the flow of its sequence number, which is at `k`, or new when `k` is past the end. */
  ghost predicate IsPlaced(flows: seq<Flow>, f: Frame, k: nat, r: seq<Flow>) {
    && f.msgSeq.Some? && k <= |flows| && (forall j | 0 <= j < k :: flows[j].msgSeq != f.msgSeq.value)
    && if k < |flows| then flows[k].msgSeq == f.msgSeq.value && r == flows[k := AddTo(flows[k], f)]
       else r == flows + [AddTo(Flow(f.msgSeq.value, [], []), f)]
  }

  method Place(flows: seq<Flow>, f: Frame) returns (r: seq<Flow>, ghost k: nat)
    requires f.msgSeq.Some?
    ensures IsPlaced(flows, f, k, r)
  {
    var i := 0;
    while i < |flows| && flows[i].msgSeq != f.msgSeq.value
      invariant i <= |flows| && forall j | 0 <= j < i :: flows[j].msgSeq != f.msgSeq.value
    {
      i := i + 1;
    }
    k := i;
    r := if i == |flows| then flows + [Flow(f.msgSeq.value, [], [])] else flows;
    if f.isDown {
      r := r[i := r[i].(downs := r[i].downs + [f])];
    } else {
      r := r[i := r[i].(ups := r[i].ups + [f])];
    }
  }

  /** The least id among the frames of a flow. */
  function LeastId(frames: seq<Frame>): int {
    if frames == [] then 0
    else
      var last := frames[|frames| - 1].id;
      if |frames| == 1 || last < LeastId(frames[..|frames| - 1]) then last else LeastId(frames[..|frames| - 1])
  }

  function ByLeastId(): (Flow, Flow) -> bool {
    (f: Flow, g: Flow) => LeastId(f.downs + f.ups) <= LeastId(g.downs + g.ups)
  }

  /** `_build_flows`. */
  method BuildFlows(cluster: seq<Frame>) returns (flows: seq<Flow>)
    ensures IsGrouping(Sort(cluster, ById()), flows) && Sorted(flows, ByLeastId())
  {
    var frames := Sort(cluster, ById());
    flows := [];
    for i := 0 to |frames|
      invariant IsGrouping(frames[..i], flows)
    {
      hide *;
      var frame := frames[i];
      assert frames[..i + 1] == frames[..i] + [frame];
      if frame.msgSeq.None? {
        SkipFrame(frames[..i], flows, frame);
        continue;
      }
      ghost var before, k := flows, 0;
      flows, k := Place(flows, frame);
      AddFrame(frames[..i], before, frame, k, flows);
    }
    assert frames[..|frames|] == frames;
    hide *;
    AlreadySorted(cluster, flows);
    flows := Sort(flows, ByLeastId());
  }

  lemma SelectAppend(frames: seq<Frame>, f: Frame, msgSeq: nat)
    ensures Select(frames + [f], msgSeq, true) ==
            Select(frames, msgSeq, true) + if f.msgSeq == Some(msgSeq) && f.isDown then [f] else []
    ensures Select(frames + [f], msgSeq, false) ==
            Select(frames, msgSeq, false) + if f.msgSeq == Some(msgSeq) && !f.isDown then [f] else []
  {
    assert (frames + [f])[..|frames|] == frames;
  }

  lemma FirstAppend(frames: seq<Frame>, f: Frame, msgSeq: nat)
    ensures FirstOf(frames + [f], msgSeq) ==
            if FirstOf(frames, msgSeq) < |frames| || f.msgSeq == Some(msgSeq) then FirstOf(frames, msgSeq)
            else |frames| + 1
  {
    assert (frames + [f])[..|frames|] == frames;
  }

  /** A frame of another sequence number leaves a flow alone. */
  lemma SameFlow(frames: seq<Frame>, f: Frame, flow: Flow)
    requires IsFlow(frames, flow) && f.msgSeq != Some(flow.msgSeq)
    ensures IsFlow(frames + [f], flow) && FirstOf(frames + [f], flow.msgSeq) == FirstOf(frames, flow.msgSeq)
  {
    SelectAppend(frames, f, flow.msgSeq);
    FirstAppend(frames, f, flow.msgSeq);
  }

  lemma GrownFlow(frames: seq<Frame>, f: Frame, flow: Flow)
    requires IsFlow(frames, flow) && f.msgSeq == Some(flow.msgSeq)
    ensures IsFlow(frames + [f], AddTo(flow, f)) && AddTo(flow, f).msgSeq == flow.msgSeq
    ensures FirstOf(frames + [f], flow.msgSeq) == FirstOf(frames, flow.msgSeq)
  {
    SelectAppend(frames, f, flow.msgSeq);
    FirstAppend(frames, f, flow.msgSeq);
  }

  lemma {:induction false} SelectNothing(frames: seq<Frame>, msgSeq: nat)
    requires forall i | 0 <= i < |frames| :: frames[i].msgSeq != Some(msgSeq)
    ensures Select(frames, msgSeq, true) == [] && Select(frames, msgSeq, false) == []
    ensures FirstOf(frames, msgSeq) == |frames|
  {
    if frames != [] {
      SelectNothing(frames[..|frames| - 1], msgSeq);
    }
  }

  lemma NewFlow(frames: seq<Frame>, f: Frame)
    requires f.msgSeq.Some? && forall i | 0 <= i < |frames| :: frames[i].msgSeq != f.msgSeq
    ensures var flow := AddTo(Flow(f.msgSeq.value, [], []), f);
            && IsFlow(frames + [f], flow) && flow.msgSeq == f.msgSeq.value
            && FirstOf(frames + [f], flow.msgSeq) == |frames|
  {
    SelectNothing(frames, f.msgSeq.value);
    SelectAppend(frames, f, f.msgSeq.value);
    FirstAppend(frames, f, f.msgSeq.value);
  }

  lemma CoversMore(frames: seq<Frame>, flows: seq<Flow>, f: Frame, r: seq<Flow>)
    requires Covers(frames, flows) && |flows| <= |r| && forall k | 0 <= k < |flows| :: r[k].msgSeq == flows[k].msgSeq
    requires f.msgSeq.Some? ==> HasFlow(r, f.msgSeq.value)
    ensures Covers(frames + [f], r)
  {
    forall i | 0 <= i < |frames + [f]| && (frames + [f])[i].msgSeq.Some?
      ensures HasFlow(r, (frames + [f])[i].msgSeq.value)
    {
      if i < |frames| {
        var k :| 0 <= k < |flows| && flows[k].msgSeq == frames[i].msgSeq.value;
        assert r[k].msgSeq == frames[i].msgSeq.value;
      }
    }
  }

  lemma SkipFrame(frames: seq<Frame>, flows: seq<Flow>, f: Frame)
    requires IsGrouping(frames, flows) && f.msgSeq.None?
    ensures IsGrouping(frames + [f], flows)
  {
    hide Covers, IsFlow, FirstOf, HasFlow;
    forall k | 0 <= k < |flows|
      ensures IsFlow(frames + [f], flows[k])
              && FirstOf(frames + [f], flows[k].msgSeq) == FirstOf(frames, flows[k].msgSeq)
    {
      SameFlow(frames, f, flows[k]);
    }
    CoversMore(frames, flows, f, flows);
  }

  lemma AddFrame(frames: seq<Frame>, flows: seq<Flow>, f: Frame, k: nat, r: seq<Flow>)
    requires IsGrouping(frames, flows) && IsPlaced(flows, f, k, r)
    ensures IsGrouping(frames + [f], r)
  {
    if k < |flows| {
      AddToKnown(frames, flows, f, k);
    } else {
      AddNew(frames, flows, f);
    }
  }

  /** Flows listed by first frame have different sequence numbers. */
  lemma Different(frames: seq<Frame>, flows: seq<Flow>, j: nat, k: nat)
    requires InFirstOrder(frames, flows) && j < |flows| && k < |flows| && j != k
    ensures flows[j].msgSeq != flows[k].msgSeq
  {
    if j < k {
      assert FirstOf(frames, flows[j].msgSeq) < FirstOf(frames, flows[k].msgSeq);
    } else {
      assert FirstOf(frames, flows[k].msgSeq) < FirstOf(frames, flows[j].msgSeq);
    }
  }

  lemma AddToKnown(frames: seq<Frame>, flows: seq<Flow>, f: Frame, k: nat)
    requires IsGrouping(frames, flows) && k < |flows| && f.msgSeq == Some(flows[k].msgSeq)
    ensures IsGrouping(frames + [f], flows[k := AddTo(flows[k], f)])
  {
    hide Covers, IsFlow, FirstOf, AddTo, HasFlow;
    var r := flows[k := AddTo(flows[k], f)];
    forall j | 0 <= j < |r|
      ensures IsFlow(frames + [f], r[j]) && r[j].msgSeq == flows[j].msgSeq
      ensures FirstOf(frames + [f], r[j].msgSeq) == FirstOf(frames, r[j].msgSeq)
    {
      if j == k {
        GrownFlow(frames, f, flows[j]);
      } else {
        Different(frames, flows, j, k);
        SameFlow(frames, f, flows[j]);
      }
    }
    HasIt(r, k);
    CoversMore(frames, flows, f, r);
  }

  lemma HasIt(flows: seq<Flow>, k: nat)
    requires k < |flows|
    ensures HasFlow(flows, flows[k].msgSeq)
  {
  }

  lemma NoFrameYet(frames: seq<Frame>, flows: seq<Flow>, msgSeq: nat)
    requires Covers(frames, flows) && forall j | 0 <= j < |flows| :: flows[j].msgSeq != msgSeq
    ensures forall i | 0 <= i < |frames| :: frames[i].msgSeq != Some(msgSeq)
  {
  }

  /** A frame of a new sequence number leaves all flows alone. */
  lemma SameFlows(frames: seq<Frame>, flows: seq<Flow>, f: Frame)
    requires AllFlows(frames, flows) && InFirstOrder(frames, flows)
    requires forall j | 0 <= j < |flows| :: f.msgSeq != Some(flows[j].msgSeq)
    ensures AllFlows(frames + [f], flows) && InFirstOrder(frames + [f], flows)
    ensures forall j | 0 <= j < |flows| :: FirstOf(frames + [f], flows[j].msgSeq) < |frames|
  {
    hide IsFlow, FirstOf;
    forall j | 0 <= j < |flows|
      ensures IsFlow(frames + [f], flows[j])
      ensures FirstOf(frames + [f], flows[j].msgSeq) == FirstOf(frames, flows[j].msgSeq) < |frames|
    {
      SameFlow(frames, f, flows[j]);
    }
  }

  lemma FlowsAppend(frames: seq<Frame>, flows: seq<Flow>, last: Flow)
    requires AllFlows(frames, flows) && InFirstOrder(frames, flows) && IsFlow(frames, last)
    requires FirstOf(frames, last.msgSeq) < |frames|
    requires forall j | 0 <= j < |flows| :: FirstOf(frames, flows[j].msgSeq) < FirstOf(frames, last.msgSeq)
    ensures AllFlows(frames, flows + [last]) && InFirstOrder(frames, flows + [last])
  {
    hide IsFlow, FirstOf;
  }

  lemma AddNew(frames: seq<Frame>, flows: seq<Flow>, f: Frame)
    requires IsGrouping(frames, flows) && f.msgSeq.Some?
    requires forall j | 0 <= j < |flows| :: flows[j].msgSeq != f.msgSeq.value
    ensures IsGrouping(frames + [f], flows + [AddTo(Flow(f.msgSeq.value, [], []), f)])
  {
    NoFrameYet(frames, flows, f.msgSeq.value);
    hide Covers, AllFlows, InFirstOrder, IsFlow, FirstOf, AddTo, HasFlow;
    var last := AddTo(Flow(f.msgSeq.value, [], []), f);
    var r := flows + [last];
    NewFlow(frames, f);
    SameFlows(frames, flows, f);
    FlowsAppend(frames + [f], flows, last);
    assert r[|flows|] == last;
    HasIt(r, |flows|);
    CoversMore(frames, flows, f, r);
  }

  // ---------------------------------------------------------------------------
  // What grouping means
  // ---------------------------------------------------------------------------

  lemma {:induction false} SelectHas(frames: seq<Frame>, msgSeq: nat, isDown: bool)
    ensures forall f: Frame :: f in Select(frames, msgSeq, isDown) <==>
              f in frames && f.msgSeq == Some(msgSeq) && f.isDown == isDown
  {
    if frames != [] {
      SelectHas(frames[..|frames| - 1], msgSeq, isDown);
      assert frames == frames[..|frames| - 1] + [frames[|frames| - 1]];
    }
  }

  ghost predicate InFlow(flow: Flow, f: Frame) {
    f in flow.downs || f in flow.ups
  }

  /** A flow of a round has at least one frame: none is left at the armed stage. */
  lemma FlowNotEmpty(frames: seq<Frame>, flow: Flow)
    requires IsFlow(frames, flow)
    ensures flow.downs != [] || flow.ups != []
  {
    var first := frames[FirstOf(frames, flow.msgSeq)];
    SelectHas(frames, flow.msgSeq, first.isDown);
    assert first in frames;
  }

  /** Every frame with a sequence number is in exactly one flow; frames without one are in none. */
  lemma FlowsPartition(frames: seq<Frame>, flows: seq<Flow>, f: Frame)
    requires IsGrouping(frames, flows) && f in frames
    ensures f.msgSeq.Some? <==> exists k :: 0 <= k < |flows| && InFlow(flows[k], f)
    ensures forall j, k | 0 <= j < |flows| && 0 <= k < |flows| && j != k && InFlow(flows[j], f) :: !InFlow(flows[k], f)
  {
    hide Select, FirstOf;
    forall k | 0 <= k < |flows| ensures InFlow(flows[k], f) <==> f.msgSeq == Some(flows[k].msgSeq) {
      assert IsFlow(frames, flows[k]);
      SelectHas(frames, flows[k].msgSeq, true);
      SelectHas(frames, flows[k].msgSeq, false);
    }
    if f.msgSeq.Some? {
      assert HasFlow(flows, f.msgSeq.value);
      var k :| 0 <= k < |flows| && flows[k].msgSeq == f.msgSeq.value;
      assert InFlow(flows[k], f);
    }
    forall j, k | 0 <= j < |flows| && 0 <= k < |flows| && j != k && InFlow(flows[j], f) ensures !InFlow(flows[k], f) {
      Different(frames, flows, j, k);
    }
  }

  lemma {:induction false} LeastIdIs(frames: seq<Frame>)
    requires frames != []
    ensures forall f | f in frames :: LeastId(frames) <= f.id
    ensures exists f :: f in frames && f.id == LeastId(frames)
  {
    var init, last := frames[..|frames| - 1], frames[|frames| - 1];
    assert frames == init + [last] && last in frames;
    if init != [] {
      LeastIdIs(init);
    }
  }

  /** Among frames in order of ids the first frame of a flow has the flow's least id. */
  lemma FirstIsLeast(frames: seq<Frame>, flow: Flow)
    requires Sorted(frames, ById()) && IsFlow(frames, flow)
    ensures LeastId(flow.downs + flow.ups) == frames[FirstOf(frames, flow.msgSeq)].id
  {
    var i, all := FirstOf(frames, flow.msgSeq), flow.downs + flow.ups;
    var first := frames[i];
    SelectHas(frames, flow.msgSeq, true);
    SelectHas(frames, flow.msgSeq, false);
    hide Select;
    assert first in frames && first in all;
    LeastIdIs(all);
    forall f | f in all ensures first.id <= f.id {
      var k :| 0 <= k < |frames| && frames[k] == f;
      assert i <= k && (i < k ==> ById()(frames[i], frames[k]));
    }
    hide LeastId, FirstOf;
  }

  lemma ByIdOrder()
    ensures IsOrder(ById())
  {
  }

  /** The flows of sorted frames already come in order of their least ids. */
  lemma AlreadySorted(cluster: seq<Frame>, flows: seq<Flow>)
    requires IsGrouping(Sort(cluster, ById()), flows)
    ensures Sorted(flows, ByLeastId()) && Sort(flows, ByLeastId()) == flows
  {
    var frames := Sort(cluster, ById());
    ByIdOrder();
    SortSorted(cluster, ById());
    hide Sort, FirstOf, LeastId;
    forall j: nat, k: nat | j < k < |flows| ensures ByLeastId()(flows[j], flows[k]) {
      assert IsFlow(frames, flows[j]) && IsFlow(frames, flows[k]);
      FirstIsLeast(frames, flows[j]);
      FirstIsLeast(frames, flows[k]);
      assert FirstOf(frames, flows[j].msgSeq) < FirstOf(frames, flows[k].msgSeq);
      assert ById()(frames[FirstOf(frames, flows[j].msgSeq)], frames[FirstOf(frames, flows[k].msgSeq)]);
    }
    SortedStays(flows, ByLeastId());
  }
}
