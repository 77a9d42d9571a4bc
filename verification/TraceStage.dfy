/** The stage a flow reached, and the summary over all rounds. */
module TraceStage {

  import opened Counting
  import opened TraceFlow
  import opened TraceRound
  import opened Wrappers

  datatype Stage = Armed | Sent | Acked | Responded | Confirmed | Denied

  datatype Verdict = NoVerdict | VerdictConfirmed | NotConfirmed | VerdictDenied

  datatype Evidence = NoEvidence | ExplicitAck | Retransmitted | NoRetransmitInference

  /** What was found beside the flow's own frames: an acknowledgement, and a receipt that may be a denial. */
  datatype Beside = Beside(acked: bool, confirm: Option<bool>)

  /** The addresses denied at least once. */
  function DeniedOnce(reports: seq<Report>): set<Address> {
    set i | 0 <= i < |reports| && reports[i].answer.denied && reports[i].address != "" :: reports[i].address
  }

  function LastId(frames: seq<Frame>): int
    requires frames != []
  {
    var last := frames[|frames| - 1].id;
    if |frames| == 1 || last > LastId(frames[..|frames| - 1]) then last else LastId(frames[..|frames| - 1])
  }

  /** A request was repeated after the last answer. */
  predicate RepeatedAfterAnswer(flow: Flow) {
    flow.ups != [] && exists i :: 1 <= i < |flow.downs| && flow.downs[i].id > LastId(flow.ups)
  }

  /** The stage of a flow, its verdict and the evidence for it. */
  function FlowStage(flow: Flow, answers: Answers, beside: Beside): (Stage, Verdict, Evidence) {
    if flow.downs != [] && flow.ups != [] then
      if answers != map[] && answers.Keys <= DeniedOnce(Reports(flow.ups)) then (Denied, VerdictDenied, ExplicitAck)
      else if beside.confirm == Some(false) then (Confirmed, VerdictConfirmed, ExplicitAck)
      else if RepeatedAfterAnswer(flow) then (Responded, NotConfirmed, Retransmitted)
      else (Confirmed, VerdictConfirmed, NoRetransmitInference)
    else if flow.downs != [] then
      (if beside.acked then Acked else Sent, NoVerdict, NoEvidence)
    else if flow.ups != [] then
      match beside.confirm
      case Some(denied) =>
        if denied then (Denied, VerdictDenied, ExplicitAck) else (Confirmed, VerdictConfirmed, ExplicitAck)
      case None => (Responded, NoVerdict, NoEvidence)
    else (Armed, NoVerdict, NoEvidence)
  }

  lemma {:induction false} LastIdIsLargest(frames: seq<Frame>)
    requires frames != []
    ensures forall f | f in frames :: f.id <= LastId(frames)
    ensures exists f :: f in frames && f.id == LastId(frames)
  {
    var init, last := frames[..|frames| - 1], frames[|frames| - 1];
    assert frames == init + [last] && last in frames;
    if init != [] {
      LastIdIsLargest(init);
    }
  }

  /** Some request after the first is later than every answer. */
  ghost predicate RepeatedLater(flow: Flow) {
    exists i :: 1 <= i < |flow.downs| && forall up | up in flow.ups :: flow.downs[i].id > up.id
  }

  lemma RepeatedMeans(flow: Flow)
    requires flow.ups != []
    ensures RepeatedAfterAnswer(flow) <==> RepeatedLater(flow)
  {
    LastIdIsLargest(flow.ups);
    hide LastId;
  }

  lemma DeniedConcat(a: seq<Report>, b: seq<Report>)
    ensures DeniedOnce(a + b) == DeniedOnce(a) + DeniedOnce(b)
  {
    forall x: Address ensures x in DeniedOnce(a + b) <==> x in DeniedOnce(a) || x in DeniedOnce(b) {
      if i: nat :| i < |a| && a[i].answer.denied && a[i].address == x != "" {
        assert (a + b)[i] == a[i];
      }
      if i: nat :| i < |b| && b[i].answer.denied && b[i].address == x != "" {
        assert (a + b)[|a| + i] == b[i];
      }
    }
  }

  lemma DeniedByItem(items: seq<Item>, frameId: int, j: nat)
    requires j < |items|
    ensures DeniedOnce(ItemReports(items[..j + 1], frameId)) ==
            DeniedOnce(ItemReports(items[..j], frameId))
            + if items[j].Marked? && items[j].denied && items[j].address != "" then {items[j].address} else {}
    ensures ItemReports(items[..0], frameId) == [] && DeniedOnce([]) == {}
  {
    var r := ReportOf(items[j], frameId);
    assert items[..j + 1][..j] == items[..j];
    DeniedConcat(ItemReports(items[..j], frameId), [r]);
    assert DeniedOnce([r]) == if r.answer.denied && r.address != "" then {r.address} else {} by {
      assert [r][0] == r;
    }
  }

  lemma NothingDenied()
    ensures DeniedOnce([]) == {}
  {
  }

  method DeniedItems(up: Frame) returns (denied: set<Address>)
    ensures denied == DeniedOnce(ItemReports(up.items, up.id))
  {
    denied := {};
    NothingDenied();
    for j := 0 to |up.items|
      invariant denied == DeniedOnce(ItemReports(up.items[..j], up.id))
    {
      DeniedByItem(up.items, up.id, j);
      hide *;
      var item := up.items[j];
      if item.Marked? && item.denied && item.address != "" {
        denied := denied + {item.address};
      }
    }
    assert up.items[..|up.items|] == up.items;
  }

  /** The addresses denied in the answering frames. */
  method DeniedAddresses(ups: seq<Frame>) returns (denied: set<Address>)
    ensures denied == DeniedOnce(Reports(ups))
  {
    denied := {};
    NothingDenied();
    for i := 0 to |ups|
      invariant denied == DeniedOnce(Reports(ups[..i]))
    {
      assert ups[..i + 1][..i] == ups[..i];
      var more := DeniedItems(ups[i]);
      DeniedConcat(Reports(ups[..i]), ItemReports(ups[i].items, ups[i].id));
      denied := denied + more;
      hide DeniedOnce;
    }
    assert ups[..|ups|] == ups;
  }

  /** `_retx_after_response`. */
  method RetxAfterResponse(flow: Flow) returns (after: bool)
    ensures after <==> flow.ups != [] && RepeatedLater(flow)
  {
    if flow.ups == [] {
      return false;
    }
    var last := flow.ups[0].id;
    for i := 1 to |flow.ups|
      invariant forall k | 0 <= k < i :: flow.ups[k].id <= last
      invariant exists k :: 0 <= k < i && flow.ups[k].id == last
    {
      if flow.ups[i].id > last {
        last := flow.ups[i].id;
      }
    }
    var retransmissions := if flow.downs == [] then [] else flow.downs[1..];
    for i := 0 to |retransmissions|
      invariant forall k | 0 <= k < i :: retransmissions[k].id <= last
    {
      if retransmissions[i].id > last {
        assert retransmissions[i] == flow.downs[i + 1];
        return true;
      }
    }
    assert forall k | 1 <= k < |flow.downs| :: flow.downs[k] == retransmissions[k - 1];
    return false;
  }

  /** Some meter answered the flow. */
  ghost predicate AnyHeard(flow: Flow) {
    exists a :: a != "" && (HasReport(Reports(flow.ups), a, true) || HasReport(Reports(flow.ups), a, false))
  }

  /** Somebody answered, and everybody who spoke normally has also denied. */
  ghost predicate AllDeny(flow: Flow) {
    && AnyHeard(flow)
    && forall a | a != "" && HasReport(Reports(flow.ups), a, false) :: HasReport(Reports(flow.ups), a, true)
  }

  lemma DeniedOnceMeans(reports: seq<Report>, a: Address)
    ensures a in DeniedOnce(reports) <==> a != "" && HasReport(reports, a, true)
  {
  }

  /** An answered request is at the denied stage exactly when somebody answered and everybody who spoke
      normally has also denied. */
  lemma DeniedStageMeans(flow: Flow, beside: Beside)
    requires flow.downs != [] && flow.ups != []
    ensures FlowStage(flow, Fold(map[], Reports(flow.ups)), beside).0 == Denied <==>
            AllDeny(flow)
  {
    var reports := Reports(flow.ups);
    var answers := Fold(map[], reports);
    forall a: Address
      ensures a in answers <==> a != "" && (HasReport(reports, a, true) || HasReport(reports, a, false))
      ensures a in DeniedOnce(reports) <==> a != "" && HasReport(reports, a, true)
    {
      FoldMeans(reports, a);
      DeniedOnceMeans(reports, a);
    }
    hide HasReport, Fold, Reports, DeniedOnce;
    assert answers != map[] <==> exists a: Address :: a in answers;
  }

  /** What the stage, the verdict and the evidence say about a flow and what was found beside it. A receipt is a
      denial (`Some(true)`) or normal (`Some(false)`). */
  ghost predicate IsJudged(flow: Flow, beside: Beside, stage: Stage, verdict: Verdict, evidence: Evidence) {
    var asked, answered := flow.downs != [], flow.ups != [];
    && (stage == Armed <==> !asked && !answered)
    && (stage == Sent <==> asked && !answered && !beside.acked)
    && (stage == Acked <==> asked && !answered && beside.acked)
    && (stage == Denied <==> answered && if asked then AllDeny(flow) else beside.confirm == Some(true))
    && (stage == Confirmed <==>
          answered && stage != Denied && (beside.confirm == Some(false) || (asked && !RepeatedLater(flow))))
    && (verdict == VerdictDenied <==> stage == Denied)
    && (verdict == VerdictConfirmed <==> stage == Confirmed)
    && (verdict == NotConfirmed <==> stage == Responded && asked)
    && (evidence == ExplicitAck <==> stage == Denied || (stage == Confirmed && beside.confirm == Some(false)))
    && (evidence == Retransmitted <==> stage == Responded && asked)
    && (evidence == NoRetransmitInference <==> stage == Confirmed && beside.confirm != Some(false))
  }

  lemma StageIsJudged(flow: Flow, beside: Beside)
    ensures var (stage, verdict, evidence) := FlowStage(flow, Fold(map[], Reports(flow.ups)), beside);
            IsJudged(flow, beside, stage, verdict, evidence)
  {
    if flow.ups != [] {
      RepeatedMeans(flow);
      if flow.downs != [] {
        DeniedStageMeans(flow, beside);
      }
    }
    hide RepeatedAfterAnswer, RepeatedLater, DeniedOnce, Fold, Reports, AllDeny;
  }

  /** `_flow_stage`: the verdict on an answered request is found first, and a denial by all overrides it. */
  method JudgeFlow(flow: Flow, beside: Beside) returns (stage: Stage, verdict: Verdict, evidence: Evidence)
    ensures IsJudged(flow, beside, stage, verdict, evidence)
    ensures (stage, verdict, evidence) == FlowStage(flow, Fold(map[], Reports(flow.ups)), beside)
  {
    StageIsJudged(flow, beside);
    hide IsJudged;
    verdict, evidence := NoVerdict, NoEvidence;
    if flow.downs != [] && flow.ups != [] {
      var repeated := RetxAfterResponse(flow);
      RepeatedMeans(flow);
      if beside.confirm == Some(false) {
        verdict, evidence := VerdictConfirmed, ExplicitAck;
      } else if repeated {
        verdict, evidence := NotConfirmed, Retransmitted;
      } else {
        verdict, evidence := VerdictConfirmed, NoRetransmitInference;
      }
      var answers := FlowResponses(flow);
      var denied := DeniedAddresses(flow.ups);
      hide RepeatedAfterAnswer, RepeatedLater, DeniedOnce, Fold, Reports;
      if answers.Keys != {} && answers.Keys <= denied {
        return Denied, VerdictDenied, ExplicitAck;
      }
      stage := if verdict == VerdictConfirmed then Confirmed else Responded;
    } else if flow.downs != [] {
      stage := if beside.acked then Acked else Sent;
    } else if flow.ups != [] {
      match beside.confirm {
        case Some(true) => stage, verdict, evidence := Denied, VerdictDenied, ExplicitAck;
        case Some(false) => stage, verdict, evidence := Confirmed, VerdictConfirmed, ExplicitAck;
        case None => stage := Responded;
      }
    } else {
      stage := Armed;
    }
  }

  /** The verdict goes with the stage: denied with denied and confirmed with confirmed; a flow is found not
      confirmed only at the responded stage, by a request repeated after all answers and no normal receipt;
      before any answer there is no verdict. */
  lemma VerdictAgrees(flow: Flow, answers: Answers, beside: Beside)
    ensures var (stage, verdict, evidence) := FlowStage(flow, answers, beside);
            && (stage == Denied <==> verdict == VerdictDenied)
            && (stage == Confirmed <==> verdict == VerdictConfirmed)
            && (verdict == NotConfirmed <==> stage == Responded && flow.downs != [])
            && (verdict == NotConfirmed ==> RepeatedLater(flow) && beside.confirm != Some(false))
            && (verdict == NoVerdict ==> evidence == NoEvidence)
            && (flow.ups == [] ==> verdict == NoVerdict)
            && (stage == Armed <==> flow.downs == [] && flow.ups == [])
            && (stage == Acked ==> beside.acked)
  {
    if flow.ups != [] {
      RepeatedMeans(flow);
    }
    hide RepeatedAfterAnswer, RepeatedLater, DeniedOnce;
  }

  /** An answered request that is not denied counts as confirmed exactly when it has a normal receipt or was
      not repeated after all answers. */
  lemma ConfirmedMeans(flow: Flow, answers: Answers, beside: Beside)
    requires flow.downs != [] && flow.ups != [] && FlowStage(flow, answers, beside).0 != Denied
    ensures FlowStage(flow, answers, beside).0 == Confirmed <==> beside.confirm == Some(false) || !RepeatedLater(flow)
  {
    RepeatedMeans(flow);
    hide RepeatedAfterAnswer, RepeatedLater, DeniedOnce;
  }

  /** The denied stage is not the denied row: at that stage the flow's meters are all kept as denied exactly
      when no meter answered normally even once. */
  lemma DeniedStageAgainstRows(flow: Flow, beside: Beside)
    requires flow.downs != [] && flow.ups != []
    requires FlowStage(flow, Fold(map[], Reports(flow.ups)), beside).0 == Denied
    ensures (forall a | a in Fold(map[], Reports(flow.ups)) :: Fold(map[], Reports(flow.ups))[a].denied) <==>
              (forall a | a != "" :: !HasReport(Reports(flow.ups), a, false))
  {
    forall a: Address
      ensures a in Fold(map[], Reports(flow.ups)) && !Fold(map[], Reports(flow.ups))[a].denied <==>
              a != "" && HasReport(Reports(flow.ups), a, false)
    {
      FoldMeans(Reports(flow.ups), a);
    }
  }

  lemma TwoItems(up: Frame, first: Item, second: Item)
    requires up.items == [first, second]
    ensures Reports([up]) == [ReportOf(first, up.id), ReportOf(second, up.id)]
  {
    assert up.items[..1] == [first] && [first][..0] == [];
    assert ItemReports([first], up.id) == [ReportOf(first, up.id)];
    assert [up][..0] == [];
  }

  lemma DenialReplaced(a: Address, denial: Answer, normal: Answer)
    requires a != "" && denial.denied && !normal.denied
    ensures Fold(map[], [Report(a, denial), Report(a, normal)]) == map[a := normal]
    ensures DeniedOnce([Report(a, denial), Report(a, normal)]) == {a}
  {
    var reports := [Report(a, denial), Report(a, normal)];
    assert reports[..1] == [Report(a, denial)] && reports[..1][..0] == [];
    assert Fold(map[], reports[..1]) == map[a := denial];
    assert reports[0].address in DeniedOnce(reports);
  }

  /** A meter that denies and then answers: its flow is at the denied stage, its row is normal. */
  lemma DeniedThenNormal(beside: Beside)
    ensures var down := Frame(1, Some(7), true, [Plain("m")]);
            var up := Frame(2, Some(7), false, [Marked("m", true), Marked("m", false)]);
            var flow := Flow(7, [down], [up]);
            var answers := Fold(map[], Reports(flow.ups));
            FlowStage(flow, answers, beside).0 == Denied && answers == map["m" := Answer(false, 2)]
  {
    var up := Frame(2, Some(7), false, [Marked("m", true), Marked("m", false)]);
    hide Reports, Fold, DeniedOnce, RepeatedAfterAnswer;
    TwoItems(up, Marked("m", true), Marked("m", false));
    DenialReplaced("m", Answer(true, 2), Answer(false, 2));
    assert "m" in map["m" := Answer(false, 2)];
  }

  // ---------------------------------------------------------------------------
  // Summary
  // ---------------------------------------------------------------------------

  /** A staged flow of a round: the flow as grouped, and what was found beside it. */
  datatype Staged = Staged(flow: Flow, beside: Beside)

  function StageOf(s: Staged): Stage {
    FlowStage(s.flow, Fold(map[], Reports(s.flow.ups)), s.beside).0
  }

  function Stages(round: seq<Staged>): seq<Stage> {
    if round == [] then [] else Stages(round[..|round| - 1]) + [StageOf(round[|round| - 1])]
  }

  function AllStages(rounds: seq<seq<Staged>>): seq<Stage> {
    if rounds == [] then [] else AllStages(rounds[..|rounds| - 1]) + Stages(rounds[|rounds| - 1])
  }

  function Tally(stages: seq<Stage>, stage: Stage): nat {
    if stages == [] then 0
    else Tally(stages[..|stages| - 1], stage) + if stages[|stages| - 1] == stage then 1 else 0
  }

  datatype Summary = Summary(fullChain: nat, noAck: nat, noResponse: nat, denied: nat, noConfirm: nat, flows: nat)

  /** `_summary`. */
  function Summarise(rounds: seq<seq<Staged>>): Summary {
    var stages := AllStages(rounds);
    Summary(Tally(stages, Confirmed), Tally(stages, Sent), Tally(stages, Acked), Tally(stages, Denied),
            Tally(stages, Responded), |stages|)
  }

  lemma {:induction false} TallyCloses(stages: seq<Stage>)
    ensures Tally(stages, Armed) + Tally(stages, Sent) + Tally(stages, Acked) + Tally(stages, Responded)
            + Tally(stages, Confirmed) + Tally(stages, Denied) == |stages|
  {
    if stages != [] {
      TallyCloses(stages[..|stages| - 1]);
    }
  }

  lemma {:induction false} TallyConcat(a: seq<Stage>, b: seq<Stage>, stage: Stage)
    ensures Tally(a + b, stage) == Tally(a, stage) + Tally(b, stage)
  {
    if b == [] {
      assert a + b == a;
    } else {
      TallyConcat(a, b[..|b| - 1], stage);
      assert (a + b)[..|a + b| - 1] == a + b[..|b| - 1];
    }
  }

  /** All flows of all rounds. */
  function AllFlows(rounds: seq<seq<Staged>>): seq<Staged> {
    if rounds == [] then [] else AllFlows(rounds[..|rounds| - 1]) + rounds[|rounds| - 1]
  }

  function At(stage: Stage): Staged -> bool {
    (s: Staged) => StageOf(s) == stage
  }

  lemma {:induction false} TallyRound(round: seq<Staged>, stage: Stage)
    ensures Tally(Stages(round), stage) == NumberOf(round, At(stage)) && |Stages(round)| == |round|
  {
    hide StageOf;
    if round != [] {
      var init := round[..|round| - 1];
      TallyRound(init, stage);
      assert Stages(round)[..|init|] == Stages(init);
    }
  }

  lemma {:induction false} TallyRounds(rounds: seq<seq<Staged>>, stage: Stage)
    ensures Tally(AllStages(rounds), stage) == NumberOf(AllFlows(rounds), At(stage))
    ensures |AllStages(rounds)| == |AllFlows(rounds)|
  {
    hide StageOf, Stages, Tally, NumberOf;
    if rounds != [] {
      var init, last := rounds[..|rounds| - 1], rounds[|rounds| - 1];
      TallyRounds(init, stage);
      TallyRound(last, stage);
      TallyConcat(AllStages(init), Stages(last), stage);
      NumberConcat(AllFlows(init), last, At(stage));
    } else {
      TallyNone(stage);
    }
  }

  lemma TallyNone(stage: Stage)
    ensures Tally([], stage) == 0 && NumberOf([], At(stage)) == 0
  {
  }

  /** A flow whose stage is judged as the predicate says. */
  ghost predicate Judged(s: Staged, stage: Stage) {
    exists verdict, evidence :: IsJudged(s.flow, s.beside, stage, verdict, evidence)
  }

  /** Each counter of the summary is the number of flows at its stage, over all rounds, and the stage of a flow is
      the one that `IsJudged` allows. */
  lemma SummaryMeans(rounds: seq<seq<Staged>>)
    ensures var s, flows := Summarise(rounds), AllFlows(rounds);
            && s.flows == |flows|
            && s.fullChain == NumberOf(flows, At(Confirmed)) && s.denied == NumberOf(flows, At(Denied))
            && s.noConfirm == NumberOf(flows, At(Responded))
            && s.noAck == NumberOf(flows, At(Sent)) && s.noResponse == NumberOf(flows, At(Acked))
    ensures forall f: Staged :: Judged(f, StageOf(f))
  {
    TallyRounds(rounds, Confirmed);
    TallyRounds(rounds, Denied);
    TallyRounds(rounds, Responded);
    TallyRounds(rounds, Sent);
    TallyRounds(rounds, Acked);
    hide FlowStage, IsJudged, Fold, Reports;
    forall f: Staged ensures Judged(f, StageOf(f)) {
      StageIsJudged(f.flow, f.beside);
      var (stage, verdict, evidence) := FlowStage(f.flow, Fold(map[], Reports(f.flow.ups)), f.beside);
      assert IsJudged(f.flow, f.beside, stage, verdict, evidence);
    }
  }

  /** The staged flows of a round are those its frames group into. */
  ghost predicate Grouped(frames: seq<Frame>, round: seq<Staged>) {
    IsGrouping(frames, seq(|round|, k requires 0 <= k < |round| => round[k].flow))
  }

  lemma {:induction false} NoneArmed(round: seq<Staged>)
    requires forall k | 0 <= k < |round| :: round[k].flow.downs != [] || round[k].flow.ups != []
    ensures Tally(Stages(round), Armed) == 0 && |Stages(round)| == |round|
  {
    if round != [] {
      var init, last := round[..|round| - 1], round[|round| - 1];
      NoneArmed(init);
      assert Stages(round) == Stages(init) + [StageOf(last)];
      assert last.flow.downs != [] || last.flow.ups != [];
      assert StageOf(last) != Armed;
    }
  }

  lemma GroupedNotArmed(frames: seq<Frame>, round: seq<Staged>)
    requires Grouped(frames, round)
    ensures Tally(Stages(round), Armed) == 0 && |Stages(round)| == |round|
  {
    GroupedFlows(frames, round);
    hide IsFlow;
    forall k | 0 <= k < |round| ensures round[k].flow.downs != [] || round[k].flow.ups != [] {
      FlowNotEmpty(frames, round[k].flow);
    }
    NoneArmed(round);
  }

  lemma {:induction false} NoneArmedAtAll(frames: seq<seq<Frame>>, rounds: seq<seq<Staged>>)
    requires |frames| == |rounds| && forall k | 0 <= k < |rounds| :: Grouped(frames[k], rounds[k])
    ensures Tally(AllStages(rounds), Armed) == 0
  {
    if rounds != [] {
      var n := |rounds| - 1;
      NoneArmedAtAll(frames[..n], rounds[..n]);
      GroupedNotArmed(frames[n], rounds[n]);
      TallyConcat(AllStages(rounds[..n]), Stages(rounds[n]), Armed);
    }
  }

  /** The five stage counters of the summary add up to the number of flows: a flow grouped from frames is
      never left armed. */
  lemma SummaryCloses(frames: seq<seq<Frame>>, rounds: seq<seq<Staged>>)
    requires |frames| == |rounds| && forall k | 0 <= k < |rounds| :: Grouped(frames[k], rounds[k])
    ensures var s := Summarise(rounds); s.fullChain + s.noAck + s.noResponse + s.denied + s.noConfirm == s.flows
  {
    NoneArmedAtAll(frames, rounds);
    TallyCloses(AllStages(rounds));
  }

  /** No frame of the round answers under this sequence number. */
  ghost predicate Silent(frames: seq<Frame>, msgSeq: nat) {
    forall f | f in frames && f.msgSeq == Some(msgSeq) :: f.isDown
  }

  /** The stage of a flow grouped from frames says whether the round holds an answer to it. */
  lemma SilentStage(frames: seq<Frame>, s: Staged)
    requires IsFlow(frames, s.flow)
    ensures StageOf(s) == Sent || StageOf(s) == Acked <==> Silent(frames, s.flow.msgSeq)
    ensures StageOf(s) == Sent <==> Silent(frames, s.flow.msgSeq) && !s.beside.acked
  {
    NoAnswers(frames, s.flow);
    FlowNotEmpty(frames, s.flow);
    hide Silent, IsFlow, Fold, Reports, RepeatedAfterAnswer, DeniedOnce;
  }

  lemma NoAnswers(frames: seq<Frame>, flow: Flow)
    requires IsFlow(frames, flow)
    ensures flow.ups == [] <==> Silent(frames, flow.msgSeq)
  {
    SelectHas(frames, flow.msgSeq, false);
    hide Select, FirstOf;
    assert flow.ups != [] ==> flow.ups[0] in flow.ups;
  }

  ghost function SilentFlows(frames: seq<Frame>, round: seq<Staged>, acked: bool): nat {
    if round == [] then 0
    else
      var last := round[|round| - 1];
      SilentFlows(frames, round[..|round| - 1], acked)
        + if Silent(frames, last.flow.msgSeq) && last.beside.acked == acked then 1 else 0
  }

  ghost function AllSilent(frames: seq<seq<Frame>>, rounds: seq<seq<Staged>>, acked: bool): nat
    requires |frames| == |rounds|
  {
    if rounds == [] then 0
    else
      var n := |rounds| - 1;
      AllSilent(frames[..n], rounds[..n], acked) + SilentFlows(frames[n], rounds[n], acked)
  }

  lemma {:induction false} SilentTally(frames: seq<Frame>, round: seq<Staged>)
    requires forall k | 0 <= k < |round| :: IsFlow(frames, round[k].flow)
    ensures Tally(Stages(round), Sent) == SilentFlows(frames, round, false)
    ensures Tally(Stages(round), Acked) == SilentFlows(frames, round, true)
  {
    if round != [] {
      var init, last := round[..|round| - 1], round[|round| - 1];
      hide IsFlow, Silent, StageOf;
      SilentTally(frames, init);
      assert IsFlow(frames, last.flow);
      SilentStage(frames, last);
      assert Stages(round) == Stages(init) + [StageOf(last)];
    }
  }

  lemma GroupedFlows(frames: seq<Frame>, round: seq<Staged>)
    requires Grouped(frames, round)
    ensures forall k | 0 <= k < |round| :: IsFlow(frames, round[k].flow)
  {
    var flows := seq(|round|, k requires 0 <= k < |round| => round[k].flow);
    hide IsFlow;
    forall k | 0 <= k < |round| ensures IsFlow(frames, round[k].flow) {
      assert IsFlow(frames, flows[k]);
    }
  }

  /** The summary counts as unanswered, without and with acknowledgement, exactly the flows to whose sequence
      number their round holds no answer. */
  lemma {:induction false} SummaryUnanswered(frames: seq<seq<Frame>>, rounds: seq<seq<Staged>>)
    requires |frames| == |rounds| && forall k | 0 <= k < |rounds| :: Grouped(frames[k], rounds[k])
    ensures Summarise(rounds).noAck == AllSilent(frames, rounds, false)
    ensures Summarise(rounds).noResponse == AllSilent(frames, rounds, true)
  {
    hide Grouped, Stages, SilentFlows;
    if rounds != [] {
      var n := |rounds| - 1;
      SummaryUnanswered(frames[..n], rounds[..n]);
      GroupedFlows(frames[n], rounds[n]);
      SilentTally(frames[n], rounds[n]);
      TallyConcat(AllStages(rounds[..n]), Stages(rounds[n]), Sent);
      TallyConcat(AllStages(rounds[..n]), Stages(rounds[n]), Acked);
    }
  }
}
