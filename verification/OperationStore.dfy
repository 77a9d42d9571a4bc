/** The operation store: idempotent creation, absorbing terminal states, persistence and reload. */
module OperationStore {

  import opened Wrappers

  type Json = string

  datatype State =
    | Created | Waiting | Running | Other(name: string)
    | Matched | Succeeded | TimedOut | Cancelled | SourceStopped | Error | Interrupted
  {
    predicate Terminal() {
      Matched? || Succeeded? || TimedOut? || Cancelled? || SourceStopped? || Error? || Interrupted?
    }
  }

  datatype Operation = Operation(
    id: string, kind: string, actor: string, payload: Json,
    state: State, version: nat, result: Option<Json>, error: Option<string>,
    requestId: Option<string>, fingerprint: Option<string>)
  {
    /** What no change of state may touch. */
    predicate SameIdentity(other: Operation) {
      && id == other.id && kind == other.kind && actor == other.actor && payload == other.payload
      && requestId == other.requestId && fingerprint == other.fingerprint
    }
  }

  datatype Store = Store(operations: map<string, Operation>, requestIds: map<string, string>)

  const EMPTY := Store(map[], map[])

  const RESTARTED := "服务重启，未完成操作已中断"

  // ---------------------------------------------------------------------------
  // What the operations of the store do
  // ---------------------------------------------------------------------------

  /** The arguments of `create`; the request id "" means none. */
  datatype Request = Request(kind: string, actor: string, payload: Json, requestId: string, fingerprint: string)

  datatype Creation = New(operation: Operation) | Replay(operation: Operation) | Conflict

  function NewOperation(q: Request, newId: string): Operation {
    Operation(newId, q.kind, q.actor, q.payload, Created, 1, None, None,
              if q.requestId == "" then None else Some(q.requestId),
              if q.requestId == "" then None else Some(q.fingerprint))
  }

  /** `create`, given the fresh id. */
  function Creating(s: Store, q: Request, newId: string): (Store, Creation)
    requires Valid(s)
  {
    if q.requestId != "" && q.requestId in s.requestIds then
      var existing := s.operations[s.requestIds[q.requestId]];
      (s, if existing.fingerprint == Some(q.fingerprint) then Replay(existing) else Conflict)
    else
      var operation := NewOperation(q, newId);
      (Store(s.operations[newId := operation],
             if q.requestId == "" then s.requestIds else s.requestIds[q.requestId := newId]),
       New(operation))
  }

  /** What an accepted change of state does to an operation. */
  function Changed(op: Operation, state: State, result: Option<Json>, error: Option<string>): Operation {
    op.(state := state,
        result := if result.Some? then result else op.result,
        error := if error.Some? then error else op.error,
        version := op.version + 1)
  }

  /** `set_state`; None for an unknown operation. */
  function Setting(s: Store, id: string, state: State, result: Option<Json>, error: Option<string>):
    Option<(Store, Operation)>
  {
    if id !in s.operations then None
    else
      var op := s.operations[id];
      if op.state.Terminal() then Some((s, op))
      else
        var op' := Changed(op, state, result, error);
        Some((s.(operations := s.operations[id := op']), op'))
  }

  /** What reloading does to one operation. */
  function Restored(op: Operation): Operation {
    if op.state.Terminal() then op else op.(state := Interrupted, error := Some(RESTARTED), version := op.version + 1)
  }

  function Reloaded(s: Store): Store {
    s.(operations := map id | id in s.operations :: Restored(s.operations[id]))
  }

  // ---------------------------------------------------------------------------
  // The invariant
  // ---------------------------------------------------------------------------

  /** Ids name their operations, and request ids and operations point at each other. */
  ghost predicate Valid(s: Store) {
    && (forall id | id in s.operations :: WellKept(s, id))
    && (forall r | r in s.requestIds :: Indexed(s, r))
  }

  ghost predicate WellKept(s: Store, id: string)
    requires id in s.operations
  {
    var op := s.operations[id];
    && op.id == id && id != "" && op.version >= 1
    && (op.requestId.Some? <==> op.fingerprint.Some?)
    && (op.requestId.Some? ==>
          op.requestId.value != "" && op.requestId.value in s.requestIds && s.requestIds[op.requestId.value] == id)
  }

  ghost predicate Indexed(s: Store, r: string)
    requires r in s.requestIds
  {
    r != "" && s.requestIds[r] in s.operations && s.operations[s.requestIds[r]].requestId == Some(r)
  }

  // ---------------------------------------------------------------------------
  // What a caller is promised
  // ---------------------------------------------------------------------------

  /** The operation has not ended. */
  predicate Unfinished(op: Operation) {
    op.state.Created? || op.state.Waiting? || op.state.Running? || op.state.Other?
  }

  /** An operation that has ended stays; any other takes on the state, and the result and the error that are given. */
  ghost predicate IsChanged(op: Operation, state: State, result: Option<Json>, error: Option<string>, op': Operation) {
    if Unfinished(op) then
      && op'.SameIdentity(op) && op'.version == op.version + 1 && op'.state == state
      && (if result.Some? then op'.result == result else op'.result == op.result)
      && (if error.Some? then op'.error == error else op'.error == op.error)
    else op' == op
  }

  /** A restart interrupts what has not ended and says so; results stay. */
  ghost predicate IsInterrupted(op: Operation, op': Operation) {
    if Unfinished(op) then
      && op'.SameIdentity(op) && op'.version == op.version + 1 && op'.result == op.result
      && op'.state == Interrupted && op'.error == Some("服务重启，未完成操作已中断")
    else op' == op
  }

  /** A new operation carries the request and nothing else; it keeps the digest only under a request id. */
  ghost predicate IsNew(q: Request, newId: string, op: Operation) {
    && op.id == newId && op.kind == q.kind && op.actor == q.actor && op.payload == q.payload
    && op.state == Created && op.version == 1 && op.result.None? && op.error.None?
    && (if q.requestId == "" then op.requestId.None? && op.fingerprint.None?
        else op.requestId == Some(q.requestId) && op.fingerprint == Some(q.fingerprint))
  }

  // ---------------------------------------------------------------------------
  // The class
  // ---------------------------------------------------------------------------

  /** The list has all operations but those left, each once. */
  ghost predicate Listed(file: seq<Operation>, operations: map<string, Operation>, left: set<string>) {
    && (forall i | 0 <= i < |file| ::
          file[i].id in operations && file[i].id !in left && operations[file[i].id] == file[i])
    && (forall i, j | 0 <= i < j < |file| :: file[i].id != file[j].id)
    && (forall id | id in operations && id !in left :: exists i :: 0 <= i < |file| && file[i].id == id)
  }

  /** The stored list holds each operation once. */
  ghost predicate Lists(file: seq<Operation>, operations: map<string, Operation>) {
    Listed(file, operations, {})
  }

  lemma ListOne(file: seq<Operation>, operations: map<string, Operation>, left: set<string>, id: string)
    requires Listed(file, operations, left) && id in left && id in operations && operations[id].id == id
    ensures Listed(file + [operations[id]], operations, left - {id})
  {
    var longer := file + [operations[id]];
    forall other | other in operations && other !in left - {id}
      ensures exists i :: 0 <= i < |longer| && longer[i].id == other
    {
      if other == id {
        assert longer[|file|].id == id;
      } else {
        var i :| 0 <= i < |file| && file[i].id == other;
        assert longer[i].id == other;
      }
    }
  }

  class OperationStore {
    var operations: map<string, Operation>
    var requestIds: map<string, string>
    var file: seq<Operation>

    function View(): Store
      reads this
    {
      Store(operations, requestIds)
    }

    ghost predicate Sound()
      reads this
    {
      Valid(View()) && Lists(file, operations)
    }

    constructor ()
      ensures Sound() && View() == EMPTY
    {
      operations, requestIds, file := map[], map[], [];
    }

    /** `create`; `newId` is the fresh uuid. */
    method Create(q: Request, newId: string) returns (r: Creation)
      requires Sound() && newId !in operations && newId != ""
      modifies this
      ensures Sound() && (View(), r) == Creating(old(View()), q, newId)
      ensures r.New? <==> q.requestId == "" || q.requestId !in old(requestIds)
      ensures r.New? ==>
                && IsNew(q, newId, r.operation) && operations == old(operations)[newId := r.operation]
                && requestIds ==
                   if q.requestId == "" then old(requestIds) else old(requestIds)[q.requestId := newId]
      ensures !r.New? ==>
                && operations == old(operations) && requestIds == old(requestIds)
                && (r.Replay? <==> operations[requestIds[q.requestId]].fingerprint == Some(q.fingerprint))
                && (r.Replay? ==> r.operation == operations[requestIds[q.requestId]])
      ensures !r.Conflict? ==> r.operation.id in operations && operations[r.operation.id] == r.operation
    {
      if q.requestId != "" && q.requestId in requestIds {
        var existing := operations[requestIds[q.requestId]];
        if existing.fingerprint != Some(q.fingerprint) {
          return Conflict;
        }
        return Replay(existing);
      }
      CreatingValid(View(), q, newId);
      var operation := NewOperation(q, newId);
      operations := operations[newId := operation];
      if q.requestId != "" {
        requestIds := requestIds[q.requestId := newId];
      }
      Persist();
      return New(operation);
    }

    /** `set_state`; None stands for the KeyError. */
    method SetState(id: string, state: State, result: Option<Json>, error: Option<string>)
      returns (r: Option<Operation>)
      requires Sound()
      modifies this
      ensures Sound()
      ensures match Setting(old(View()), id, state, result, error)
              case None => r == None && View() == old(View())
              case Some(p) => r == Some(p.1) && View() == p.0
      ensures r.None? <==> id !in old(operations)
      ensures requestIds == old(requestIds)
      ensures if r.None? then operations == old(operations)
              else operations == old(operations)[id := r.value]
                   && IsChanged(old(operations[id]), state, result, error, r.value)
    {
      hide Valid, Lists;
      if id !in operations {
        return None;
      }
      var operation := operations[id];
      if operation.state.Terminal() {
        return Some(operation);
      }
      SettingValid(View(), id, state, result, error);
      operation := operation.(state := state);
      if result.Some? {
        operation := operation.(result := result);
      }
      if error.Some? {
        operation := operation.(error := error);
      }
      operation := operation.(version := operation.version + 1);
      operations := operations[id := operation];
      Persist();
      return Some(operation);
    }

    /** `_persist_locked`: the list of all operations replaces the file. */
    method Persist()
      requires Valid(View())
      modifies this`file
      ensures Lists(file, operations)
    {
      var left := operations.Keys;
      file := [];
      while left != {}
        invariant left <= operations.Keys
        invariant Listed(file, operations, left)
        decreases left
      {
        var id :| id in left;
        assert operations[id].id == id by { assert WellKept(View(), id); }
        ListOne(file, operations, left, id);
        file := file + [operations[id]];
        left := left - {id};
      }
    }

    /** `_load`: a restarted service reads the file back. */
    method Load()
      requires Sound()
      modifies this
      ensures Sound() && View() == Reloaded(old(View()))
      ensures requestIds == old(requestIds) && operations.Keys == old(operations.Keys)
      ensures forall id | id in operations :: IsInterrupted(old(operations)[id], operations[id])
    {
      ReloadedMeans(View());
      LoadIsReload(View(), file);
      hide Valid, Lists, Loaded, Reloaded, IsInterrupted;
      var s, changed := ReadOperations(file);
      operations, requestIds := s.operations, s.requestIds;
      if changed {
        Persist();
      }
    }
  }

  /** The loop of `_load`: every operation that had not ended is interrupted. */
  method ReadOperations(file: seq<Operation>) returns (s: Store, changed: bool)
    ensures s == Loaded(file)
    ensures changed <==> exists k :: 0 <= k < |file| && !file[k].state.Terminal()
  {
    var operations: map<string, Operation> := map[];
    var requestIds: map<string, string> := map[];
    changed := false;
    for i := 0 to |file|
      invariant Store(operations, requestIds) == Loaded(file[..i])
      invariant changed <==> exists k :: 0 <= k < i && !file[k].state.Terminal()
    {
      LoadedOneMore(file, i);
      var restored := file[i];
      if !restored.state.Terminal() {
        restored := restored.(state := Interrupted, error := Some(RESTARTED), version := restored.version + 1);
        changed := true;
      }
      operations := operations[restored.id := restored];
      if restored.requestId.Some? {
        requestIds := requestIds[restored.requestId.value := restored.id];
      }
    }
    assert file[..|file|] == file;
    s := Store(operations, requestIds);
  }

  /** The store read back from a list of operations, one after the other. */
  function Loaded(file: seq<Operation>): Store {
    if file == [] then EMPTY
    else
      var s, op := Loaded(file[..|file| - 1]), file[|file| - 1];
      Store(s.operations[op.id := Restored(op)],
            if op.requestId.Some? then s.requestIds[op.requestId.value := op.id] else s.requestIds)
  }

  lemma LoadedOneMore(file: seq<Operation>, i: nat)
    requires i < |file|
    ensures var s, op := Loaded(file[..i]), file[i];
            Loaded(file[..i + 1]) ==
            Store(s.operations[op.id := Restored(op)],
                  if op.requestId.Some? then s.requestIds[op.requestId.value := op.id] else s.requestIds)
  {
    assert file[..i + 1][..i] == file[..i];
  }

  /** Reading back finds exactly the operations of the list, restored. */
  ghost predicate Reads(file: seq<Operation>, operations: map<string, Operation>) {
    && (forall i | 0 <= i < |file| :: file[i].id in operations && operations[file[i].id] == Restored(file[i]))
    && (forall id | id in operations :: exists i :: 0 <= i < |file| && file[i].id == id)
  }

  lemma ReadsMore(file: seq<Operation>, operations: map<string, Operation>, op: Operation)
    requires Reads(file, operations) && forall i | 0 <= i < |file| :: file[i].id != op.id
    ensures Reads(file + [op], operations[op.id := Restored(op)])
  {
    var longer := file + [op];
    assert longer[|file|] == op && forall i | 0 <= i < |file| :: longer[i] == file[i];
  }

  lemma {:induction false} LoadedOperations(file: seq<Operation>)
    requires forall i, j | 0 <= i < j < |file| :: file[i].id != file[j].id
    ensures Reads(file, Loaded(file).operations)
  {
    if file != [] {
      var init, last := file[..|file| - 1], file[|file| - 1];
      LoadedOperations(init);
      assert file == init + [last];
      hide Reads;
      ReadsMore(init, Loaded(init).operations, last);
    }
  }

  lemma {:induction false} LoadedRequestIds(file: seq<Operation>)
    ensures forall i | 0 <= i < |file| && file[i].requestId.Some? :: file[i].requestId.value in Loaded(file).requestIds
    ensures forall r | r in Loaded(file).requestIds ::
              exists i :: 0 <= i < |file| && file[i].requestId == Some(r) && Loaded(file).requestIds[r] == file[i].id
  {
    if file != [] {
      var init := file[..|file| - 1];
      LoadedRequestIds(init);
      forall r | r in Loaded(file).requestIds
        ensures exists i :: 0 <= i < |file| && file[i].requestId == Some(r) && Loaded(file).requestIds[r] == file[i].id
      {
        if file[|file| - 1].requestId != Some(r) {
          var i :| 0 <= i < |init| && init[i].requestId == Some(r) && Loaded(init).requestIds[r] == init[i].id;
          assert file[i].requestId == Some(r);
        }
      }
    }
  }

  lemma LoadedOperationsAre(s: Store, file: seq<Operation>)
    requires Lists(file, s.operations)
    ensures Loaded(file).operations == Reloaded(s).operations
  {
    LoadedOperations(file);
    hide Loaded, Restored;
    RestoredFromList(s.operations, file, Loaded(file).operations);
  }

  lemma RestoredFromList(operations: map<string, Operation>, file: seq<Operation>, m: map<string, Operation>)
    requires Lists(file, operations) && Reads(file, m)
    ensures m == map id | id in operations :: Restored(operations[id])
  {
    hide Restored;
    forall id | id in operations ensures id in m && m[id] == Restored(operations[id]) {
      var i :| 0 <= i < |file| && file[i].id == id;
    }
    forall id | id in m ensures id in operations {
      var i :| 0 <= i < |file| && file[i].id == id;
    }
  }

  lemma LoadedRequestIdsAre(s: Store, file: seq<Operation>)
    requires Valid(s) && Lists(file, s.operations)
    ensures Loaded(file).requestIds == s.requestIds
  {
    LoadedRequestIds(file);
    hide Loaded;
    var m := Loaded(file).requestIds;
    forall r | r in s.requestIds ensures r in m {
      assert Indexed(s, r);
      var i :| 0 <= i < |file| && file[i].id == s.requestIds[r];
      assert file[i].requestId == Some(r);
    }
    forall r | r in m ensures r in s.requestIds && m[r] == s.requestIds[r] {
      var i :| 0 <= i < |file| && file[i].requestId == Some(r) && m[r] == file[i].id;
      assert WellKept(s, file[i].id);
    }
  }

  lemma AllTerminal(s: Store, file: seq<Operation>)
    requires Lists(file, s.operations) && forall k | 0 <= k < |file| :: file[k].state.Terminal()
    ensures Reloaded(s).operations == s.operations
  {
    forall id | id in s.operations ensures Restored(s.operations[id]) == s.operations[id] {
      var i :| 0 <= i < |file| && file[i].id == id;
    }
  }

  /** Reading back a list of all operations, in any order, is reloading the store. */
  lemma LoadIsReload(s: Store, file: seq<Operation>)
    requires Valid(s) && Lists(file, s.operations)
    ensures Loaded(file) == Reloaded(s)
    ensures (forall k | 0 <= k < |file| :: file[k].state.Terminal()) ==> Lists(file, Loaded(file).operations)
  {
    hide Loaded, Valid, Lists, Restored;
    LoadedOperationsAre(s, file);
    LoadedRequestIdsAre(s, file);
    if forall k | 0 <= k < |file| :: file[k].state.Terminal() {
      AllTerminal(s, file);
    }
  }

  lemma CreatingValid(s: Store, q: Request, newId: string)
    requires Valid(s) && newId !in s.operations && newId != ""
    ensures Valid(Creating(s, q, newId).0)
  {
  }

  lemma SettingValid(s: Store, id: string, state: State, result: Option<Json>, error: Option<string>)
    requires Valid(s) && id in s.operations
    ensures Valid(Setting(s, id, state, result, error).value.0)
  {
  }

  lemma ReloadedValid(s: Store)
    requires Valid(s)
    ensures Valid(Reloaded(s))
  {
  }

  lemma ReloadedMeans(s: Store)
    requires Valid(s)
    ensures Valid(Reloaded(s))
    ensures Reloaded(s).requestIds == s.requestIds && Reloaded(s).operations.Keys == s.operations.Keys
    ensures forall id | id in s.operations :: IsInterrupted(s.operations[id], Reloaded(s).operations[id])
  {
    ReloadedValid(s);
    hide Valid;
  }

  // ---------------------------------------------------------------------------
  // Runs
  // ---------------------------------------------------------------------------

  datatype Step =
    | Create(request: Request, newId: string)
    | SetState(id: string, state: State, result: Option<Json>, error: Option<string>)
    | Reload

  /** A new id is fresh. */
  ghost predicate Possible(s: Store, step: Step) {
    Valid(s) && (step.Create? ==> step.newId !in s.operations && step.newId != "")
  }

  function After(s: Store, step: Step): Store
    requires Possible(s, step)
  {
    match step
    case Create(q, newId) => Creating(s, q, newId).0
    case SetState(id, state, result, error) =>
      var r := Setting(s, id, state, result, error);
      if r.Some? then r.value.0 else s
    case Reload => Reloaded(s)
  }

  ghost predicate IsRun(run: seq<Store>, steps: seq<Step>) {
    && |run| == |steps| + 1
    && forall i | 0 <= i < |steps| :: Possible(run[i], steps[i]) && run[i + 1] == After(run[i], steps[i])
  }

  /** Whether a step is an accepted change of state of the operation. */
  predicate Accepted(s: Store, step: Step, id: string) {
    && id in s.operations && !s.operations[id].state.Terminal()
    && (step.Reload? || (step.SetState? && step.id == id))
  }

  /** What an accepted step writes: the state, and the result and the error where it gives one. */
  ghost predicate Writes(op: Operation, step: Step, op': Operation) {
    && op'.state == (if step.SetState? then step.state else Interrupted)
    && op'.result == (if GivesResult(step) then step.result else op.result)
    && op'.error == (if GivesError(step) then ErrorOf(step) else op.error)
  }

  predicate AnyStep(step: Step) {
    true
  }

  predicate GivesResult(step: Step) {
    step.SetState? && step.result.Some?
  }

  /** A restart gives an error of its own. */
  predicate GivesError(step: Step) {
    step.Reload? || (step.SetState? && step.error.Some?)
  }

  function ErrorOf(step: Step): Option<string>
    requires GivesError(step)
  {
    if step.Reload? then Some("服务重启，未完成操作已中断") else step.error
  }

  /** What one step may do to an operation that exists. */
  ghost predicate Evolves(s: Store, step: Step, s': Store, id: string)
    requires id in s.operations
  {
    && id in s'.operations
    && s'.operations[id].SameIdentity(s.operations[id])
    && (if Accepted(s, step, id)
        then s'.operations[id].version == s.operations[id].version + 1
             && Writes(s.operations[id], step, s'.operations[id])
        else s'.operations[id] == s.operations[id])
    && (forall r | r in s.requestIds :: r in s'.requestIds && s'.requestIds[r] == s.requestIds[r])
  }

  lemma StepEvolves(s: Store, step: Step, id: string)
    requires Possible(s, step) && id in s.operations
    ensures Valid(After(s, step)) && Evolves(s, step, After(s, step), id)
  {
    match step
    case Create(q, newId) => CreatingValid(s, q, newId);
    case SetState(other, state, result, error) =>
      if other in s.operations {
        SettingValid(s, other, state, result, error);
      }
    case Reload => ReloadedValid(s);
  }

  function AcceptedChanges(run: seq<Store>, steps: seq<Step>, id: string): nat
    requires |run| == |steps| + 1
  {
    if steps == [] then 0
    else
      var n := |steps| - 1;
      AcceptedChanges(run[..n + 1], steps[..n], id) + if Accepted(run[n], steps[n], id) then 1 else 0
  }

  lemma {:induction false} RunEvolves(run: seq<Store>, steps: seq<Step>, id: string)
    requires IsRun(run, steps) && Valid(run[0]) && id in run[0].operations
    ensures var s, s' := run[0], run[|steps|];
            && Valid(s') && id in s'.operations && s'.operations[id].SameIdentity(s.operations[id])
            && s'.operations[id].version == s.operations[id].version + AcceptedChanges(run, steps, id)
            && (AcceptedChanges(run, steps, id) == 0 ==> s'.operations[id] == s.operations[id])
            && (forall r | r in s.requestIds :: r in s'.requestIds && s'.requestIds[r] == s.requestIds[r])
  {
    if steps != [] {
      var n := |steps| - 1;
      RunEvolves(run[..n + 1], steps[..n], id);
      StepEvolves(run[n], steps[n], id);
    }
  }

  /** The last of some steps: `n` is one of them, and no later step is. */
  ghost predicate IsLastStep(run: seq<Store>, steps: seq<Step>, id: string, n: int, wanted: Step -> bool)
    requires |run| == |steps| + 1
  {
    && 0 <= n < |steps| && Accepted(run[n], steps[n], id) && wanted(steps[n])
    && forall m | n < m < |steps| :: !(Accepted(run[m], steps[m], id) && wanted(steps[m]))
  }

  ghost predicate NoStep(run: seq<Store>, steps: seq<Step>, id: string, wanted: Step -> bool)
    requires |run| == |steps| + 1
  {
    forall m | 0 <= m < |steps| :: !(Accepted(run[m], steps[m], id) && wanted(steps[m]))
  }

  /** After any run an operation has the state of the last accepted change, the result of the last one that gave a
      result, and the error of the last one that gave an error; without such a step what it had before. */
  ghost predicate Remembers(run: seq<Store>, steps: seq<Step>, id: string)
    requires |run| == |steps| + 1 && id in run[0].operations && id in run[|steps|].operations
  {
    var op, op' := run[0].operations[id], run[|steps|].operations[id];
    && (forall n | IsLastStep(run, steps, id, n, AnyStep) ::
          op'.state == if steps[n].SetState? then steps[n].state else Interrupted)
    && (forall n | IsLastStep(run, steps, id, n, GivesResult) :: op'.result == steps[n].result)
    && (forall n | IsLastStep(run, steps, id, n, GivesError) :: op'.error == ErrorOf(steps[n]))
    && (NoStep(run, steps, id, AnyStep) ==> op'.state == op.state)
    && (NoStep(run, steps, id, GivesResult) ==> op'.result == op.result)
    && (NoStep(run, steps, id, GivesError) ==> op'.error == op.error)
  }

  lemma LastStepSplits(run: seq<Store>, steps: seq<Step>, id: string, n: int, wanted: Step -> bool)
    requires |run| == |steps| + 1 && steps != [] && IsLastStep(run, steps, id, n, wanted)
    ensures 0 <= n < |steps|
    ensures var last := |steps| - 1;
            if Accepted(run[last], steps[last], id) && wanted(steps[last]) then n == last
            else n < last && IsLastStep(run[..last + 1], steps[..last], id, n, wanted)
  {
    hide Accepted;
  }

  lemma NoStepSplits(run: seq<Store>, steps: seq<Step>, id: string, wanted: Step -> bool)
    requires |run| == |steps| + 1 && steps != [] && NoStep(run, steps, id, wanted)
    ensures var last := |steps| - 1;
            && NoStep(run[..last + 1], steps[..last], id, wanted)
            && !(Accepted(run[last], steps[last], id) && wanted(steps[last]))
  {
    hide Accepted;
    var last := |steps| - 1;
    forall m | 0 <= m < last ensures !(Accepted(run[..last + 1][m], steps[..last][m], id) && wanted(steps[..last][m])) {
      assert run[..last + 1][m] == run[m] && steps[..last][m] == steps[m];
    }
  }

  lemma RemembersNext(run: seq<Store>, steps: seq<Step>, id: string)
    requires |run| == |steps| + 1 && steps != []
    requires id in run[0].operations && id in run[|steps| - 1].operations
    requires Remembers(run[..|steps|], steps[..|steps| - 1], id)
    requires Evolves(run[|steps| - 1], steps[|steps| - 1], run[|steps|], id)
    ensures Remembers(run, steps, id)
  {
    hide Accepted, IsLastStep, NoStep;
    forall n, wanted: Step -> bool | IsLastStep(run, steps, id, n, wanted)
      ensures 0 <= n < |steps|
      ensures var last := |steps| - 1;
              if Accepted(run[last], steps[last], id) && wanted(steps[last]) then n == last
              else n < last && IsLastStep(run[..last + 1], steps[..last], id, n, wanted)
    {
      LastStepSplits(run, steps, id, n, wanted);
    }
    forall wanted: Step -> bool | NoStep(run, steps, id, wanted)
      ensures var last := |steps| - 1;
              && NoStep(run[..last + 1], steps[..last], id, wanted)
              && !(Accepted(run[last], steps[last], id) && wanted(steps[last]))
    {
      NoStepSplits(run, steps, id, wanted);
    }
  }

  lemma {:induction false} RunRemembers(run: seq<Store>, steps: seq<Step>, id: string)
    requires IsRun(run, steps) && Valid(run[0]) && id in run[0].operations
    ensures id in run[|steps|].operations && Remembers(run, steps, id)
  {
    if steps != [] {
      var n := |steps| - 1;
      hide Remembers, Evolves, Valid;
      RunRemembers(run[..n + 1], steps[..n], id);
      RunEvolves(run[..n + 1], steps[..n], id);
      StepEvolves(run[n], steps[n], id);
      RemembersNext(run, steps, id);
    }
  }

  /** A terminal operation never changes again, whatever is done to the store. */
  lemma {:induction false} TerminalFrozen(run: seq<Store>, steps: seq<Step>, id: string)
    requires IsRun(run, steps) && Valid(run[0])
    requires id in run[0].operations && run[0].operations[id].state.Terminal()
    ensures id in run[|steps|].operations && run[|steps|].operations[id] == run[0].operations[id]
  {
    if steps != [] {
      var n := |steps| - 1;
      TerminalFrozen(run[..n + 1], steps[..n], id);
      RunEvolves(run[..n + 1], steps[..n], id);
      StepEvolves(run[n], steps[n], id);
    }
  }

  /** Once a request id has been used, however long ago, repeating the request gives back the
      operation made for it and any other request with that id is refused; the store does not change. */
  lemma ReplayForever(run: seq<Store>, steps: seq<Step>, q: Request, newId: string, again: Request, otherId: string)
    requires steps != [] && IsRun(run, steps) && Valid(run[0])
    requires steps[0] == Create(q, newId) && Creating(run[0], q, newId).1.New?
    requires q.requestId != "" && again.requestId == q.requestId
    ensures var s := run[|steps|];
            && Valid(s) && newId in s.operations
            && Creating(s, again, otherId).0 == s
            && Creating(s, again, otherId).1 ==
               if again.fingerprint == q.fingerprint then Replay(s.operations[newId]) else Conflict
  {
    CreatingValid(run[0], q, newId);
    var rest := run[1..];
    assert rest[0] == After(run[0], steps[0]);
    forall i | 0 <= i < |steps[1..]|
      ensures Possible(rest[i], steps[1..][i]) && rest[i + 1] == After(rest[i], steps[1..][i])
    {
      assert rest[i] == run[i + 1] && steps[1..][i] == steps[i + 1];
    }
    RunEvolves(rest, steps[1..], newId);
  }

  /** Reloading interrupts exactly the operations that had not ended, and reloading again changes nothing. */
  lemma ReloadInterrupts(s: Store)
    requires Valid(s)
    ensures var t := Reloaded(s);
            && Valid(t) && t.operations.Keys == s.operations.Keys && t.requestIds == s.requestIds
            && Reloaded(t) == t
            && forall id | id in s.operations ::
                 && t.operations[id].state.Terminal()
                 && (s.operations[id].state.Terminal() <==> t.operations[id] == s.operations[id])
                 && IsInterrupted(s.operations[id], t.operations[id])
  {
    ReloadedMeans(s);
    hide Valid;
    var t := Reloaded(s);
    assert Reloaded(t).operations == t.operations;
  }
}
