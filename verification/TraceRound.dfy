/** What the flows of a round answered, the stage each reached, and the meter table drawn from them. */
module TraceRound {

  import opened Sorting
  import opened TraceFlow
  import opened Wrappers

  // ---------------------------------------------------------------------------
  // Answers
  // ---------------------------------------------------------------------------

  /** The word that stands for a meter: whether it is a denial, and the frame that brought it. */
  datatype Answer = Answer(denied: bool, frameId: int)

  type Answers = map<Address, Answer>

  datatype Report = Report(address: Address, answer: Answer)

  function ReportOf(item: Item, frameId: int): Report {
    Report(item.address, Answer(item.Marked? && item.denied, frameId))
  }

  function ItemReports(items: seq<Item>, frameId: int): seq<Report> {
    if items == [] then []
    else ItemReports(items[..|items| - 1], frameId) + [ReportOf(items[|items| - 1], frameId)]
  }

  /** Everything the answering frames say, in order. */
  function Reports(ups: seq<Frame>): seq<Report> {
    if ups == [] then []
    else Reports(ups[..|ups| - 1]) + ItemReports(ups[|ups| - 1].items, ups[|ups| - 1].id)
  }

  /** An item of an answering frame as the report it makes: a denial only where the item says so. */
  ghost predicate IsReportOf(up: Frame, item: Item, r: Report) {
    && r.address == item.address && r.answer.frameId == up.id
    && (r.answer.denied <==> item.Marked? && item.denied)
  }

  lemma {:induction false} ItemReportsMean(up: Frame, items: seq<Item>)
    ensures |ItemReports(items, up.id)| == |items|
    ensures forall i | 0 <= i < |items| :: IsReportOf(up, items[i], ItemReports(items, up.id)[i])
  {
    if items != [] {
      ItemReportsMean(up, items[..|items| - 1]);
    }
  }

  /** The reports are the items of the answering frames. */
  lemma {:induction false} ReportsMean(ups: seq<Frame>)
    ensures forall r | r in Reports(ups) :: exists up, item :: up in ups && item in up.items && IsReportOf(up, item, r)
    ensures forall up, item | up in ups && item in up.items :: exists r :: r in Reports(ups) && IsReportOf(up, item, r)
  {
    if ups != [] {
      var init, last := ups[..|ups| - 1], ups[|ups| - 1];
      ReportsMean(init);
      ItemReportsMean(last, last.items);
      assert ups == init + [last] && last in ups;
      var more := ItemReports(last.items, last.id);
      hide IsReportOf, ItemReports;
      forall r | r in Reports(ups) ensures exists up, item :: up in ups && item in up.items && IsReportOf(up, item, r) {
        if r in Reports(init) {
          var up, item :| up in init && item in up.items && IsReportOf(up, item, r);
          assert up in ups;
        } else {
          var i: nat :| i < |more| && more[i] == r;
          assert last.items[i] in last.items && IsReportOf(last, last.items[i], r);
        }
      }
      forall up, item | up in ups && item in up.items
        ensures exists r :: r in Reports(ups) && IsReportOf(up, item, r)
      {
        if up in init {
          var r :| r in Reports(init) && IsReportOf(up, item, r);
          assert r in Reports(ups);
        } else {
          var i: nat :| i < |last.items| && last.items[i] == item;
          assert more[i] in more && more[i] in Reports(ups);
        }
      }
    }
  }

  /** A normal answer always stands; a denial stands only where nothing was said before. */
  function Note(answers: Answers, r: Report): Answers {
    if r.address == "" then answers
    else if r.address !in answers || !r.answer.denied then answers[r.address := r.answer]
    else answers
  }

  function Fold(answers: Answers, reports: seq<Report>): Answers {
    if reports == [] then answers
    else Note(Fold(answers, reports[..|reports| - 1]), reports[|reports| - 1])
  }

  lemma {:induction false} FoldConcat(answers: Answers, a: seq<Report>, b: seq<Report>)
    ensures Fold(answers, a + b) == Fold(Fold(answers, a), b)
  {
    if b == [] {
      assert a + b == a;
    } else {
      FoldConcat(answers, a, b[..|b| - 1]);
      assert (a + b)[..|a + b| - 1] == a + b[..|b| - 1];
    }
  }

  lemma ItemsStep(answers: Answers, up: Frame, j: nat)
    requires j < |up.items|
    ensures Fold(answers, ItemReports(up.items[..j + 1], up.id)) ==
            Note(Fold(answers, ItemReports(up.items[..j], up.id)), ReportOf(up.items[j], up.id))
  {
    assert up.items[..j + 1][..j] == up.items[..j];
    assert ItemReports(up.items[..j + 1], up.id) == ItemReports(up.items[..j], up.id) + [ReportOf(up.items[j], up.id)];
  }

  method NoteItem(answers: Answers, item: Item, frameId: int) returns (r: Answers)
    ensures r == Note(answers, ReportOf(item, frameId))
  {
    r := answers;
    var denied := item.Marked? && item.denied;
    if item.address == "" {
      return;
    }
    if item.address !in r || !denied {
      r := r[item.address := Answer(denied, frameId)];
    }
  }

  method NoteFrame(answers: Answers, up: Frame) returns (r: Answers)
    ensures r == Fold(answers, ItemReports(up.items, up.id))
  {
    r := answers;
    for j := 0 to |up.items|
      invariant r == Fold(answers, ItemReports(up.items[..j], up.id))
    {
      hide *;
      ItemsStep(answers, up, j);
      r := NoteItem(r, up.items[j], up.id);
    }
    assert up.items[..|up.items|] == up.items;
  }

  /** `_flow_responses`. */
  method FlowResponses(flow: Flow) returns (answers: Answers)
    ensures answers == Fold(map[], Reports(flow.ups))
  {
    answers := map[];
    for i := 0 to |flow.ups|
      invariant answers == Fold(map[], Reports(flow.ups[..i]))
    {
      assert flow.ups[..i + 1][..i] == flow.ups[..i];
      FoldConcat(map[], Reports(flow.ups[..i]), ItemReports(flow.ups[i].items, flow.ups[i].id));
      answers := NoteFrame(answers, flow.ups[i]);
    }
    assert flow.ups[..|flow.ups|] == flow.ups;
  }

  ghost predicate HasReport(reports: seq<Report>, a: Address, denied: bool) {
    exists i :: 0 <= i < |reports| && reports[i].address == a && reports[i].answer.denied == denied
  }

  lemma HasReportAppend(reports: seq<Report>, r: Report, a: Address, denied: bool)
    ensures HasReport(reports + [r], a, denied) <==>
              HasReport(reports, a, denied) || (r.address == a && r.answer.denied == denied)
  {
    var longer := reports + [r];
    assert longer[|reports|] == r && forall i | 0 <= i < |reports| :: longer[i] == reports[i];
  }

  /** Folding answers a question about all reports: a meter has an answer when any report names it, and that
      answer is a denial exactly when every report of the meter is. */
  lemma {:induction false} FoldMeans(reports: seq<Report>, a: Address)
    ensures a in Fold(map[], reports) <==> a != "" && (HasReport(reports, a, true) || HasReport(reports, a, false))
    ensures a in Fold(map[], reports) ==> (Fold(map[], reports)[a].denied <==> !HasReport(reports, a, false))
  {
    if reports != [] {
      var init, r := reports[..|reports| - 1], reports[|reports| - 1];
      assert reports == init + [r];
      FoldMeans(init, a);
      HasReportAppend(init, r, a, true);
      HasReportAppend(init, r, a, false);
      hide HasReport;
    }
  }

  /** The frame kept for a meter: of a denial the first, of a normal answer the last normal one. */
  ghost predicate StandsAt(reports: seq<Report>, i: nat) {
    && i < |reports|
    && if reports[i].answer.denied then forall j | 0 <= j < i :: reports[j].address != reports[i].address
       else forall j | i < j < |reports| && reports[j].address == reports[i].address :: reports[j].answer.denied
  }

  lemma {:induction false} FoldFrame(reports: seq<Report>, a: Address) returns (i: nat)
    requires a in Fold(map[], reports)
    ensures StandsAt(reports, i) && reports[i] == Report(a, Fold(map[], reports)[a])
  {
    var init, r := reports[..|reports| - 1], reports[|reports| - 1];
    if a in Fold(map[], init) && (a != r.address || r.answer.denied) {
      i := FoldFrame(init, a);
    } else {
      i := |init|;
      FoldMeans(init, a);
    }
  }

  // ---------------------------------------------------------------------------
  // Answers of a round
  // ---------------------------------------------------------------------------

  /** The answers of a further flow brought into those of the round. */
  function Merge(answers: Answers, more: Answers): Answers {
    map a | a in answers.Keys + more.Keys ::
      if a in more && (a !in answers || !more[a].denied) then more[a] else answers[a]
  }

  lemma MergeNote(answers: Answers, more: Answers, r: Report)
    ensures Merge(answers, Note(more, r)) == Note(Merge(answers, more), r)
  {
  }

  /** Folding a flow by itself and merging the result is folding its reports into the round. */
  lemma {:induction false} MergeIsFold(answers: Answers, reports: seq<Report>)
    ensures Merge(answers, Fold(map[], reports)) == Fold(answers, reports)
  {
    if reports == [] {
      assert Merge(answers, map[]) == answers;
    } else {
      MergeIsFold(answers, reports[..|reports| - 1]);
      MergeNote(answers, Fold(map[], reports[..|reports| - 1]), reports[|reports| - 1]);
    }
  }

  function Only(more: Answers, addresses: set<Address>): Answers {
    map a | a in more && a in addresses :: more[a]
  }

  lemma MergeOne(answers: Answers, more: Answers, done: set<Address>, a: Address)
    requires a in more && a !in done
    ensures Merge(answers, Only(more, done + {a})) ==
            var m := Merge(answers, Only(more, done));
            if a !in m || !more[a].denied then m[a := more[a]] else m
  {
    assert Only(more, done + {a}) == Only(more, done)[a := more[a]];
  }

  lemma MergeEnds(answers: Answers, more: Answers)
    ensures Merge(answers, Only(more, {})) == answers
    ensures Merge(answers, Only(more, more.Keys)) == Merge(answers, more)
  {
    assert Only(more, more.Keys) == more;
  }

  method MergeInto(answers: Answers, more: Answers) returns (r: Answers)
    ensures r == Merge(answers, more)
  {
    hide Merge, Only;
    r := answers;
    var todo := more.Keys;
    MergeEnds(answers, more);
    assert more.Keys - todo == {};
    while todo != {}
      invariant todo <= more.Keys
      invariant r == Merge(answers, Only(more, more.Keys - todo))
      decreases |todo|
    {
      var a :| a in todo;
      MergeOne(answers, more, more.Keys - todo, a);
      assert more.Keys - (todo - {a}) == more.Keys - todo + {a};
      if a !in r || !more[a].denied {
        r := r[a := more[a]];
      }
      todo := todo - {a};
    }
    assert more.Keys - todo == more.Keys;
  }

  /** A flow of the round with its proxy, its target addresses and its answers. */
  datatype FlowReport = FlowReport(flow: Flow, via: string, targets: seq<Address>, answers: Answers)

  ghost predicate IsReport(r: FlowReport) {
    r.answers == Fold(map[], Reports(r.flow.ups))
  }

  function RoundReports(reports: seq<FlowReport>): seq<Report> {
    if reports == [] then []
    else RoundReports(reports[..|reports| - 1]) + Reports(reports[|reports| - 1].flow.ups)
  }

  /** The answers of a round are one fold over everything said in it. */
  method RoundAnswers(reports: seq<FlowReport>) returns (answers: Answers)
    requires forall k | 0 <= k < |reports| :: IsReport(reports[k])
    ensures answers == Fold(map[], RoundReports(reports))
  {
    answers := map[];
    for k := 0 to |reports|
      invariant answers == Fold(map[], RoundReports(reports[..k]))
    {
      hide Fold, Merge, Reports;
      assert reports[..k + 1][..k] == reports[..k] && IsReport(reports[k]);
      MergeIsFold(answers, Reports(reports[k].flow.ups));
      FoldConcat(map[], RoundReports(reports[..k]), Reports(reports[k].flow.ups));
      answers := MergeInto(answers, reports[k].answers);
    }
    assert reports[..|reports|] == reports;
  }

  // ---------------------------------------------------------------------------
  // The meter table
  // ---------------------------------------------------------------------------

  datatype Status = RowOk | RowDenied | RowMissing

  datatype Row = Row(address: Address, via: Option<string>, status: Status, flow: nat, extra: bool)

  datatype Meters = Meters(targets: nat, responded: nat, denied: nat, missing: nat)

  /** The first flow of a list that has the address among its addresses. */
  ghost function First(groups: seq<set<Address>>, a: Address): (k: nat)
    ensures k <= |groups| && (k < |groups| ==> a in groups[k]) && forall j | 0 <= j < k :: a !in groups[j]
  {
    if groups == [] then 0
    else
      var k := First(groups[..|groups| - 1], a);
      if k < |groups| - 1 || a in groups[|groups| - 1] then k else |groups|
  }

  method FindFirst(groups: seq<set<Address>>, a: Address) returns (k: nat)
    ensures k == First(groups, a)
  {
    k := 0;
    while k < |groups| && a !in groups[k]
      invariant k <= |groups| && forall j | 0 <= j < k :: a !in groups[j]
    {
      k := k + 1;
    }
    ghost var first := First(groups, a);
    assert !(first < k) && !(k < first);
  }

  function TargetSets(reports: seq<FlowReport>): (groups: seq<set<Address>>)
    ensures |groups| == |reports|
  {
    seq(|reports|, k requires 0 <= k < |reports| => set a | a in reports[k].targets)
  }

  function AnswerSets(reports: seq<FlowReport>): (groups: seq<set<Address>>)
    ensures |groups| == |reports|
  {
    seq(|reports|, k requires 0 <= k < |reports| => reports[k].answers.Keys)
  }

  lemma FirstAppend(groups: seq<set<Address>>, more: set<Address>, a: Address)
    ensures First(groups + [more], a) ==
            if First(groups, a) < |groups| || a in more then First(groups, a) else |groups| + 1
  {
    assert (groups + [more])[..|groups|] == groups;
  }

  /** The proxy that each target address is reached by: the one of its first flow. */
  ghost predicate IsTargetMap(reports: seq<FlowReport>, targets: map<Address, string>) {
    forall a: Address ::
      && (a in targets <==> First(TargetSets(reports), a) < |reports|)
      && (a in targets ==> targets[a] == reports[First(TargetSets(reports), a)].via)
  }

  ghost predicate Asks(downs: seq<Frame>, a: Address) {
    exists i :: 0 <= i < |downs| && Plain(a) in downs[i].items
  }

  ghost predicate EachOnce(addresses: seq<Address>) {
    forall i, j | 0 <= i < j < |addresses| :: addresses[i] != addresses[j]
  }

  method FrameTargets(targets: seq<Address>, items: seq<Item>) returns (r: seq<Address>)
    requires EachOnce(targets)
    ensures EachOnce(r) && forall a: Address :: a in r <==> a in targets || Plain(a) in items
  {
    r := targets;
    for j := 0 to |items|
      invariant EachOnce(r) && forall a: Address :: a in r <==> a in targets || Plain(a) in items[..j]
    {
      if items[j].Plain? && items[j].address !in r {
        r := r + [items[j].address];
      }
      assert items[..j + 1] == items[..j] + [items[j]];
    }
    assert items[..|items|] == items;
  }

  /** `_flow_targets`: each address asked in a request, once. */
  method FlowTargets(downs: seq<Frame>) returns (targets: seq<Address>)
    ensures EachOnce(targets) && forall a: Address :: a in targets <==> Asks(downs, a)
  {
    targets := [];
    for i := 0 to |downs|
      invariant EachOnce(targets) && forall a: Address :: a in targets <==> Asks(downs[..i], a)
    {
      forall a: Address ensures Asks(downs[..i + 1], a) <==> Asks(downs[..i], a) || Plain(a) in downs[i].items {
        AsksMore(downs, i, a);
      }
      hide *;
      targets := FrameTargets(targets, downs[i].items);
    }
    assert downs[..|downs|] == downs;
  }

  lemma AsksMore(downs: seq<Frame>, i: nat, a: Address)
    requires i < |downs|
    ensures Asks(downs[..i + 1], a) <==> Asks(downs[..i], a) || Plain(a) in downs[i].items
  {
    assert forall k | 0 <= k < i :: downs[..i + 1][k] == downs[..i][k];
    assert downs[..i + 1][i] == downs[i];
  }

  method AddTargets(targets: map<Address, string>, report: FlowReport) returns (r: map<Address, string>)
    ensures forall a: Address :: a in r <==> a in targets || a in report.targets
    ensures forall a: Address | a in r :: r[a] == if a in targets then targets[a] else report.via
  {
    r := targets;
    for i := 0 to |report.targets|
      invariant forall a: Address :: a in r <==> a in targets || a in report.targets[..i]
      invariant forall a: Address | a in r :: r[a] == if a in targets then targets[a] else report.via
    {
      if report.targets[i] !in r {
        r := r[report.targets[i] := report.via];
      }
      assert report.targets[..i + 1] == report.targets[..i] + [report.targets[i]];
    }
    assert report.targets[..|report.targets|] == report.targets;
  }

  lemma TargetMapGrows(reports: seq<FlowReport>, report: FlowReport, targets: map<Address, string>,
                       r: map<Address, string>)
    requires IsTargetMap(reports, targets)
    requires forall a: Address :: a in r <==> a in targets || a in report.targets
    requires forall a: Address | a in r :: r[a] == if a in targets then targets[a] else report.via
    ensures IsTargetMap(reports + [report], r)
  {
    var longer := reports + [report];
    var more := set a | a in report.targets;
    assert TargetSets(longer) == TargetSets(reports) + [more];
    forall a: Address
      ensures a in r <==> First(TargetSets(longer), a) < |longer|
      ensures a in r ==> r[a] == longer[First(TargetSets(longer), a)].via
    {
      FirstAppend(TargetSets(reports), more, a);
    }
  }

  method RoundTargets(reports: seq<FlowReport>) returns (targets: map<Address, string>)
    ensures IsTargetMap(reports, targets)
  {
    targets := map[];
    for k := 0 to |reports|
      invariant IsTargetMap(reports[..k], targets)
    {
      hide IsTargetMap;
      ghost var before := targets;
      assert reports[..k + 1] == reports[..k] + [reports[k]];
      targets := AddTargets(targets, reports[k]);
      TargetMapGrows(reports[..k], reports[k], before, targets);
    }
    assert reports[..|reports|] == reports;
  }

  /** A meter answered in the round exactly when it answered in a flow. */
  lemma {:induction false} AnsweredInFlow(reports: seq<FlowReport>, a: Address)
    requires forall k | 0 <= k < |reports| :: IsReport(reports[k])
    ensures a in Fold(map[], RoundReports(reports)) <==> First(AnswerSets(reports), a) < |reports|
  {
    if reports != [] {
      var init, last := reports[..|reports| - 1], reports[|reports| - 1];
      AnsweredInFlow(init, a);
      assert IsReport(last) && reports == init + [last];
      FoldConcat(map[], RoundReports(init), Reports(last.flow.ups));
      MergeIsFold(Fold(map[], RoundReports(init)), Reports(last.flow.ups));
      assert AnswerSets(reports) == AnswerSets(init) + [last.answers.Keys];
      FirstAppend(AnswerSets(init), last.answers.Keys, a);
    }
  }

  /** The address is asked in the round and not filtered out by the expected meters. */
  ghost predicate IsTarget(reports: seq<FlowReport>, expected: set<Address>, a: Address) {
    First(TargetSets(reports), a) < |reports| && (expected == {} || a in expected)
  }

  /** Somebody spoke for the meter in the round, denying or not. */
  ghost predicate Heard(reports: seq<FlowReport>, a: Address, denied: bool) {
    a != "" && HasReport(RoundReports(reports), a, denied)
  }

  /** A row speaks for all answers of its meter in the round and names the first flow that concerns it. */
  ghost predicate RowFits(reports: seq<FlowReport>, expected: set<Address>, row: Row) {
    && row.flow < |reports|
    && (row.extra <==> !IsTarget(reports, expected, row.address))
    && row.flow == (if row.extra then First(AnswerSets(reports), row.address)
                    else First(TargetSets(reports), row.address))
    && row.via == (if row.extra then None else Some(reports[row.flow].via))
    && (row.status == RowOk <==> Heard(reports, row.address, false))
    && (row.status == RowDenied <==> Heard(reports, row.address, true) && !Heard(reports, row.address, false))
  }

  function StatusOf(answers: Answers, a: Address): Status {
    if a !in answers then RowMissing else if answers[a].denied then RowDenied else RowOk
  }

  lemma StatusFits(reports: seq<FlowReport>, a: Address)
    ensures var status := StatusOf(Fold(map[], RoundReports(reports)), a);
            && (status == RowOk <==> Heard(reports, a, false))
            && (status == RowDenied <==> Heard(reports, a, true) && !Heard(reports, a, false))
  {
    FoldMeans(RoundReports(reports), a);
  }

  /** The rows list the addresses, each once and in order. */
  ghost predicate Lists(rows: seq<Row>, addresses: set<Address>) {
    && |rows| == |addresses|
    && (forall i | 0 <= i < |rows| :: rows[i].address in addresses)
    && (forall i, j | 0 <= i < j < |rows| ::
          rows[i].address != rows[j].address && StringLe(rows[i].address, rows[j].address))
    && (forall a | a in addresses :: exists i :: 0 <= i < |rows| && rows[i].address == a)
  }

  lemma ListsMore(rows: seq<Row>, addresses: set<Address>, row: Row)
    requires Lists(rows, addresses) && row.address !in addresses
             && forall a | a in addresses :: StringLe(a, row.address)
    ensures Lists(rows + [row], addresses + {row.address})
  {
    hide StringLe;
    var longer := rows + [row];
    assert longer[|rows|] == row;
    forall a | a in addresses + {row.address} ensures exists i :: 0 <= i < |longer| && longer[i].address == a {
      if a != row.address {
        var i :| 0 <= i < |rows| && rows[i].address == a;
        assert longer[i].address == a;
      }
    }
  }

  /** The addresses in order, each once. */
  ghost predicate IsListing(listing: seq<Address>, addresses: set<Address>) {
    && Distinct(listing) && Sorted(listing, StringLe)
    && forall a :: a in listing <==> a in addresses
  }

  /** `sorted` on the keys of a dictionary. */
  method SortedAddresses(addresses: set<Address>) returns (listing: seq<Address>)
    ensures IsListing(listing, addresses)
  {
    var any: seq<Address> := [];
    var todo := addresses;
    while todo != {}
      invariant todo <= addresses && Distinct(any)
      invariant forall a :: a in any <==> a in addresses && a !in todo
      decreases |todo|
    {
      var a :| a in todo;
      any := any + [a];
      todo := todo - {a};
    }
    StringOrder();
    SortSorted(any, StringLe);
    SortDistinct(any, StringLe);
    listing := Sort(any, StringLe);
  }

  /** The addresses listed before `k`. */
  ghost function Before(listing: seq<Address>, k: nat): (addresses: set<Address>)
    requires k <= |listing|
    ensures forall a :: a in addresses <==> a in listing[..k]
  {
    set a | a in listing[..k]
  }

  lemma BeforeMore(listing: seq<Address>, addresses: set<Address>, k: nat)
    requires IsListing(listing, addresses) && k < |listing|
    ensures listing[k] in addresses && listing[k] !in Before(listing, k)
    ensures Before(listing, k + 1) == Before(listing, k) + {listing[k]}
    ensures forall a | a in Before(listing, k) :: StringLe(a, listing[k])
  {
    hide StringLe;
    assert listing[k] in listing;
    assert listing[..k + 1] == listing[..k] + [listing[k]];
    forall a | a in Before(listing, k) ensures StringLe(a, listing[k]) && a != listing[k] {
      var i :| 0 <= i < k && listing[i] == a;
    }
  }

  lemma BeforeAll(listing: seq<Address>, addresses: set<Address>)
    requires IsListing(listing, addresses)
    ensures Before(listing, 0) == {} && Before(listing, |listing|) == addresses
  {
    hide StringLe;
    assert listing[..|listing|] == listing;
  }

  ghost predicate AllFit(reports: seq<FlowReport>, expected: set<Address>, rows: seq<Row>, extra: bool) {
    forall i | 0 <= i < |rows| :: RowFits(reports, expected, rows[i]) && rows[i].extra == extra
  }

  lemma NoRows(reports: seq<FlowReport>, expected: set<Address>, extra: bool)
    ensures Lists([], {}) && AllFit(reports, expected, [], extra)
  {
  }

  lemma FitMore(reports: seq<FlowReport>, expected: set<Address>, rows: seq<Row>, row: Row)
    requires AllFit(reports, expected, rows, row.extra) && RowFits(reports, expected, row)
    ensures AllFit(reports, expected, rows + [row], row.extra)
  {
    hide RowFits;
  }

  method TargetRow(reports: seq<FlowReport>, ghost expected: set<Address>, a: Address, via: string, answers: Answers)
    returns (row: Row)
    requires answers == Fold(map[], RoundReports(reports))
    requires IsTarget(reports, expected, a) && via == reports[First(TargetSets(reports), a)].via
    ensures RowFits(reports, expected, row) && row.address == a && !row.extra
  {
    hide Fold, Heard, StatusOf, First;
    var k := FindFirst(TargetSets(reports), a);
    StatusFits(reports, a);
    row := Row(a, Some(via), StatusOf(answers, a), k, false);
  }

  method ExtraRow(reports: seq<FlowReport>, ghost expected: set<Address>, a: Address, answers: Answers)
    returns (row: Row)
    requires forall k | 0 <= k < |reports| :: IsReport(reports[k])
    requires answers == Fold(map[], RoundReports(reports)) && a in answers && !IsTarget(reports, expected, a)
    ensures RowFits(reports, expected, row) && row.address == a && row.extra
  {
    hide Fold, Heard, StatusOf, First;
    AnsweredInFlow(reports, a);
    var k := FindFirst(AnswerSets(reports), a);
    StatusFits(reports, a);
    row := Row(a, None, StatusOf(answers, a), k, true);
  }

  method TargetRows(reports: seq<FlowReport>, ghost expected: set<Address>, targets: map<Address, string>,
                    answers: Answers)
    returns (rows: seq<Row>)
    requires answers == Fold(map[], RoundReports(reports))
    requires forall a | a in targets ::
               IsTarget(reports, expected, a) && targets[a] == reports[First(TargetSets(reports), a)].via
    ensures Lists(rows, targets.Keys) && AllFit(reports, expected, rows, false)
  {
    hide *;
    rows := [];
    NoRows(reports, expected, false);
    var listing := SortedAddresses(targets.Keys);
    BeforeAll(listing, targets.Keys);
    for k := 0 to |listing|
      invariant Lists(rows, Before(listing, k)) && AllFit(reports, expected, rows, false)
    {
      BeforeMore(listing, targets.Keys, k);
      var row := TargetRow(reports, expected, listing[k], targets[listing[k]], answers);
      FitMore(reports, expected, rows, row);
      ListsMore(rows, Before(listing, k), row);
      rows := rows + [row];
    }
  }

  /** The addresses listed before `k` that are no targets. */
  lemma BeforeOther(listing: seq<Address>, addresses: set<Address>, targets: set<Address>, k: nat)
    requires IsListing(listing, addresses) && k < |listing|
    ensures listing[k] in addresses && listing[k] !in Before(listing, k) - targets
    ensures Before(listing, k + 1) - targets ==
            if listing[k] in targets then Before(listing, k) - targets else Before(listing, k) - targets + {listing[k]}
    ensures forall a | a in Before(listing, k) - targets :: StringLe(a, listing[k])
  {
    hide StringLe, IsListing;
    BeforeMore(listing, addresses, k);
  }

  method ExtraRows(reports: seq<FlowReport>, ghost expected: set<Address>, targets: map<Address, string>,
                   answers: Answers)
    returns (rows: seq<Row>)
    requires forall k | 0 <= k < |reports| :: IsReport(reports[k])
    requires answers == Fold(map[], RoundReports(reports))
    requires forall a: Address :: a in targets <==> IsTarget(reports, expected, a)
    ensures Lists(rows, answers.Keys - targets.Keys) && AllFit(reports, expected, rows, true)
  {
    hide *;
    rows := [];
    NoRows(reports, expected, true);
    var listing := SortedAddresses(answers.Keys);
    BeforeAll(listing, answers.Keys);
    assert {} - targets.Keys == {};
    for k := 0 to |listing|
      invariant Lists(rows, Before(listing, k) - targets.Keys) && AllFit(reports, expected, rows, true)
    {
      BeforeOther(listing, answers.Keys, targets.Keys, k);
      var a := listing[k];
      if a !in targets {
        var row := ExtraRow(reports, expected, a, answers);
        FitMore(reports, expected, rows, row);
        ListsMore(rows, Before(listing, k) - targets.Keys, row);
        rows := rows + [row];
      }
    }
  }

  function Count(rows: seq<Row>, status: Status): nat {
    if rows == [] then 0
    else Count(rows[..|rows| - 1], status) + if rows[|rows| - 1].status == status then 1 else 0
  }

  function CountPlain(rows: seq<Row>, status: Status): nat {
    if rows == [] then 0
    else
      var last := rows[|rows| - 1];
      CountPlain(rows[..|rows| - 1], status) + if last.status == status && !last.extra then 1 else 0
  }

  /** The rows split by status. */
  lemma {:induction false} CountsClose(rows: seq<Row>)
    ensures Count(rows, RowOk) + Count(rows, RowDenied) + Count(rows, RowMissing) == |rows|
  {
    if rows != [] {
      CountsClose(rows[..|rows| - 1]);
    }
  }

  lemma {:induction false} CountConcat(a: seq<Row>, b: seq<Row>, status: Status)
    ensures Count(a + b, status) == Count(a, status) + Count(b, status)
    ensures CountPlain(a + b, status) == CountPlain(a, status) + CountPlain(b, status)
  {
    if b == [] {
      assert a + b == a;
    } else {
      CountConcat(a, b[..|b| - 1], status);
      assert (a + b)[..|a + b| - 1] == a + b[..|b| - 1];
    }
  }

  lemma {:induction false} CountKind(rows: seq<Row>, status: Status, extra: bool)
    requires forall i | 0 <= i < |rows| :: rows[i].extra == extra
    ensures CountPlain(rows, status) == if extra then 0 else Count(rows, status)
  {
    if rows != [] {
      CountKind(rows[..|rows| - 1], status, extra);
    }
  }

  lemma {:induction false} NoneMissing(rows: seq<Row>)
    requires forall i | 0 <= i < |rows| :: rows[i].status != RowMissing
    ensures Count(rows, RowMissing) == 0
  {
    if rows != [] {
      NoneMissing(rows[..|rows| - 1]);
    }
  }

  /** The table: the targets, each once, then the other meters that answered, each once, both in order of
      addresses. */
  ghost predicate IsTable(reports: seq<FlowReport>, expected: set<Address>, rows: seq<Row>, extras: seq<Row>) {
    && AllFit(reports, expected, rows, false) && AllFit(reports, expected, extras, true)
    && exists asked: set<Address>, others: set<Address> ::
         && Lists(rows, asked) && (forall a :: a in asked <==> IsTarget(reports, expected, a))
         && Lists(extras, others)
         && (forall a :: a in others <==>
               !IsTarget(reports, expected, a) && (Heard(reports, a, true) || Heard(reports, a, false)))
  }

  lemma ExtraHeard(reports: seq<FlowReport>, expected: set<Address>, extras: seq<Row>, others: set<Address>)
    requires AllFit(reports, expected, extras, true) && Lists(extras, others)
    requires forall a | a in others :: Heard(reports, a, true) || Heard(reports, a, false)
    ensures Count(extras, RowMissing) == 0
  {
    hide Heard, IsTarget, First;
    forall i | 0 <= i < |extras| ensures extras[i].status != RowMissing {
      assert RowFits(reports, expected, extras[i]) && extras[i].address in others;
    }
    NoneMissing(extras);
  }

  /** `_round_report`: the table and its counters. Targets close against the rows that are not extra; the
      denied counter also counts the extra rows. */
  method RoundReport(reports: seq<FlowReport>, expected: set<Address>)
    returns (rows: seq<Row>, extras: seq<Row>, meters: Meters)
    requires forall k | 0 <= k < |reports| :: IsReport(reports[k])
    ensures IsTable(reports, expected, rows, extras)
    ensures meters.targets == |rows|
    ensures meters.targets == Count(rows, RowOk) + Count(rows, RowDenied) + Count(rows, RowMissing)
    ensures meters.responded == Count(rows, RowOk) && meters.missing == Count(rows, RowMissing)
    ensures meters.denied == Count(rows, RowDenied) + Count(extras, RowDenied)
    ensures meters.responded + meters.denied + meters.missing == meters.targets + Count(extras, RowDenied)
  {
    var targets := RoundTargets(reports);
    var answers := RoundAnswers(reports);
    if expected != {} {
      targets := map a | a in targets && a in expected :: targets[a];
    }
    assert forall a: Address :: a in targets <==> IsTarget(reports, expected, a);
    rows := TargetRows(reports, expected, targets, answers);
    extras := ExtraRows(reports, expected, targets, answers);
    ghost var others := answers.Keys - targets.Keys;
    forall a ensures a in answers <==> Heard(reports, a, true) || Heard(reports, a, false) {
      FoldMeans(RoundReports(reports), a);
    }
    hide *;
    Closing(reports, expected, rows, extras, others);
    var table := rows + extras;
    meters := Meters(|targets|, CountPlain(table, RowOk), Count(table, RowDenied), Count(table, RowMissing));
    assert IsTable(reports, expected, rows, extras) by {
      TableIs(reports, expected, rows, extras, targets.Keys, others);
    }
  }

  lemma TableIs(reports: seq<FlowReport>, expected: set<Address>, rows: seq<Row>, extras: seq<Row>,
                asked: set<Address>, others: set<Address>)
    requires AllFit(reports, expected, rows, false) && AllFit(reports, expected, extras, true)
    requires Lists(rows, asked) && forall a :: a in asked <==> IsTarget(reports, expected, a)
    requires Lists(extras, others)
    requires forall a :: a in others <==>
               !IsTarget(reports, expected, a) && (Heard(reports, a, true) || Heard(reports, a, false))
    ensures IsTable(reports, expected, rows, extras)
    ensures |rows| == |asked|
  {
    hide AllFit, IsTarget, Heard;
  }

  lemma Closing(reports: seq<FlowReport>, expected: set<Address>, rows: seq<Row>, extras: seq<Row>,
                others: set<Address>)
    requires AllFit(reports, expected, rows, false) && AllFit(reports, expected, extras, true) && Lists(extras, others)
    requires forall a | a in others :: Heard(reports, a, true) || Heard(reports, a, false)
    ensures CountPlain(rows + extras, RowOk) == Count(rows, RowOk)
    ensures Count(rows + extras, RowDenied) == Count(rows, RowDenied) + Count(extras, RowDenied)
    ensures Count(rows + extras, RowMissing) == Count(rows, RowMissing)
    ensures Count(rows, RowOk) + Count(rows, RowDenied) + Count(rows, RowMissing) == |rows|
  {
    hide Count, CountPlain, Lists, RowFits, Heard;
    CountConcat(rows, extras, RowOk);
    CountConcat(rows, extras, RowDenied);
    CountConcat(rows, extras, RowMissing);
    CountKind(rows, RowOk, false);
    CountKind(extras, RowOk, true);
    CountsClose(rows);
    ExtraHeard(reports, expected, extras, others);
  }
}
