/** The guard of the verify lane: submitters, worker threads and watchdog timers that race over
    a running flag, a generation number and the operation store. */
module VerifyGuard {

  import opened OperationStore
  import opened Wrappers

  const VERIFY := "simcon_verify"

  // ---------------------------------------------------------------------------
  // What happens under the lock
  // ---------------------------------------------------------------------------

  /** The fields the gate protects, and the store. */
  datatype Lane = Lane(store: Store, running: bool, generation: nat, watchdogs: set<nat>)

  datatype Submission = Busy | Refused | Repeated(operation: Operation) | Started(operation: Operation, generation: nat)

  /** The lock region of `simcon_verify`. */
  function Submitting(lane: Lane, q: Request, newId: string): (Lane, Submission)
    requires Valid(lane.store)
  {
    if lane.running then (lane, Busy)
    else
      var (s, creation) := Creating(lane.store, q, newId);
      if creation.Conflict? then (lane, Refused)
      else if creation.operation.state != Created then (lane, Repeated(creation.operation))
      else
        var put := Setting(s, creation.operation.id, Waiting, None, None);
        if put.None? then (lane, Refused)
        else (lane.(store := put.value.0, running := true, generation := lane.generation + 1),
              Started(put.value.1, lane.generation + 1))
  }

  /** The lock region of `_expire_simcon_verify`: true when the watchdog releases the guard. */
  function Expiring(lane: Lane, generation: nat): (Lane, bool) {
    var popped := lane.(watchdogs := lane.watchdogs - {generation});
    if generation != lane.generation || !lane.running then (popped, false)
    else (popped.(running := false), true)
  }

  /** The lock region at the end of `_run_simcon_verify`: true when a watchdog is taken out to cancel. */
  function Finishing(lane: Lane, generation: nat): (Lane, bool) {
    if generation != lane.generation then (lane, false)
    else (lane.(running := false, watchdogs := lane.watchdogs - {generation}), generation in lane.watchdogs)
  }

  /** The request id has been used. */
  predicate Known(lane: Lane, q: Request) {
    q.requestId != "" && q.requestId in lane.store.requestIds
  }

  function KnownAs(lane: Lane, q: Request): Operation
    requires Valid(lane.store) && Known(lane, q)
  {
    assert Indexed(lane.store, q.requestId);
    lane.store.operations[lane.store.requestIds[q.requestId]]
  }

  class VerifyLane {
    const store: OperationStore
    var running: bool
    var generation: nat
    var watchdogs: set<nat>

    function View(): Lane
      reads this, store
    {
      Lane(store.View(), running, generation, watchdogs)
    }

    constructor (store: OperationStore)
      ensures this.store == store && !running && generation == 0 && watchdogs == {}
    {
      this.store := store;
      running, generation, watchdogs := false, 0, {};
    }

    method Submit(q: Request, newId: string) returns (r: Submission)
      requires store.Sound() && newId !in store.operations && newId != ""
      modifies this, store
      ensures store.Sound() && (View(), r) == Submitting(old(View()), q, newId)
      ensures r.Busy? <==> old(running)
      ensures !r.Started? ==> View() == old(View())
      ensures r.Started? ==>
                && running && generation == r.generation == old(generation) + 1 && watchdogs == old(watchdogs)
                && r.operation.state == Waiting
                && store.operations == old(store.operations)[r.operation.id := r.operation]
      ensures !old(running) && !Known(old(View()), q) ==>
                r.Started? && IsNew(q, newId, r.operation.(state := Created, version := 1))
      ensures !old(running) && Known(old(View()), q) ==>
                var op := KnownAs(old(View()), q);
                && (r.Refused? <==> op.fingerprint != Some(q.fingerprint))
                && (r.Repeated? <==> op.fingerprint == Some(q.fingerprint) && op.state != Created)
                && (r.Repeated? ==> r.operation == op)
    {
      hide Valid, Lists, Creating, Setting;
      if running {
        return Busy;
      }
      var creation := store.Create(q, newId);
      if creation.Conflict? {
        return Refused;
      }
      var operation := creation.operation;
      if operation.state != Created {
        return Repeated(operation);
      }
      running := true;
      generation := generation + 1;
      var started := store.SetState(operation.id, Waiting, None, None);
      return Started(started.value, generation);
    }

    method Register(generation: nat)
      modifies this`watchdogs
      ensures View() == old(View()).(watchdogs := old(watchdogs) + {generation})
    {
      watchdogs := watchdogs + {generation};
    }

    method Expire(generation: nat) returns (released: bool)
      modifies this`watchdogs, this`running
      ensures (View(), released) == Expiring(old(View()), generation)
      ensures released <==> old(running) && generation == this.generation
      ensures running == (old(running) && !released) && watchdogs == old(watchdogs) - {generation}
    {
      watchdogs := watchdogs - {generation};
      if generation != this.generation || !running {
        return false;
      }
      running := false;
      return true;
    }

    method Finish(generation: nat) returns (cancels: bool)
      modifies this`watchdogs, this`running
      ensures (View(), cancels) == Finishing(old(View()), generation)
      ensures cancels <==> generation == this.generation && generation in old(watchdogs)
      ensures running == (old(running) && generation != this.generation)
      ensures watchdogs == if cancels then old(watchdogs) - {generation} else old(watchdogs)
    {
      cancels := false;
      if generation == this.generation {
        running := false;
        cancels := generation in watchdogs;
        watchdogs := watchdogs - {generation};
      }
    }
  }

  // ---------------------------------------------------------------------------
  // The transition system
  // ---------------------------------------------------------------------------

  /** A submitter whose thread or timer did not start ends there, with an exception. */
  datatype Submitter = Starting | Arming | Registering | Returned | NoThread | NoTimer
  datatype Worker = Unstarted | Verifying | Written | Cancelling | Done
  /** A timer past the point where cancelling helps is `Woken`; one that found nothing to do is `Void`. */
  datatype Timer = Unarmed | Armed | Woken | Disarmed | Void | Releasing | Expired

  /** One generation: its operation and the three threads of control that handle it. */
  datatype Verify = Verify(operation: string, submitter: Submitter, worker: Worker, timer: Timer)

  datatype System = System(lane: Lane, verifies: seq<Verify>)

  datatype Outcome = Success(result: Json) | Failure(error: string)

  datatype Action =
    | Submit(request: Request, newId: string)
    | StartThread(g: nat)
    | ThreadFails(g: nat)
    | ArmWatchdog(g: nat)
    | WatchdogFails(g: nat)
    | RegisterWatchdog(g: nat)
    | WorkerWrites(g: nat, outcome: Outcome)
    | WorkerFinishes(g: nat)
    | WorkerCancels(g: nat)
    | WatchdogWakes(g: nat)
    | WatchdogFires(g: nat)
    | WatchdogWrites(g: nat, error: string)
    | OtherLane(step: Step)

  /** Generation `g` exists; generations count from 1. */
  predicate Exists(s: System, g: int) {
    1 <= g <= |s.verifies|
  }

  function Of(s: System, g: nat): Verify
    requires Exists(s, g)
  {
    s.verifies[g - 1]
  }

  function With(s: System, g: nat, v: Verify): System
    requires Exists(s, g)
  {
    s.(verifies := s.verifies[g - 1 := v])
  }

  /** A store step of some other lane: it makes operations of other kinds and leaves those of this lane alone. */
  ghost predicate IsForeign(s: System, step: Step) {
    && Possible(s.lane.store, step)
    && match step
       case Create(q, _) => q.kind != VERIFY
       case SetState(id, _, _, _) => id in s.lane.store.operations ==> s.lane.store.operations[id].kind != VERIFY
       case Reload => false
  }

  /** The digest of a request covers its kind. */
  ghost predicate DigestsSeparateKinds(s: System, q: Request) {
    forall id | id in s.lane.store.operations && s.lane.store.operations[id].fingerprint == Some(q.fingerprint) ::
      s.lane.store.operations[id].kind == q.kind
  }

  ghost predicate Enabled(s: System, a: Action) {
    match a
    case Submit(q, newId) =>
      && Valid(s.lane.store) && newId !in s.lane.store.operations && newId != ""
      && q.kind == VERIFY && DigestsSeparateKinds(s, q)
    case StartThread(g) => Exists(s, g) && Of(s, g).submitter == Starting
    case ThreadFails(g) => Exists(s, g) && Of(s, g).submitter == Starting
    case ArmWatchdog(g) => Exists(s, g) && Of(s, g).submitter == Arming
    case WatchdogFails(g) => Exists(s, g) && Of(s, g).submitter == Arming
    case RegisterWatchdog(g) => Exists(s, g) && Of(s, g).submitter == Registering
    case WorkerWrites(g, _) => Exists(s, g) && Of(s, g).worker == Verifying
    case WorkerFinishes(g) => Exists(s, g) && Of(s, g).worker == Written
    case WorkerCancels(g) => Exists(s, g) && Of(s, g).worker == Cancelling
    case WatchdogWakes(g) => Exists(s, g) && Of(s, g).timer == Armed
    case WatchdogFires(g) => Exists(s, g) && Of(s, g).timer == Woken
    case WatchdogWrites(g, _) => Exists(s, g) && Of(s, g).timer == Releasing
    case OtherLane(step) => IsForeign(s, step)
  }

  /** A store write outside the lock. */
  function Write(s: System, g: nat, state: State, result: Option<Json>, error: Option<string>): System
    requires Exists(s, g)
  {
    var put := Setting(s.lane.store, Of(s, g).operation, state, result, error);
    if put.None? then s else s.(lane := s.lane.(store := put.value.0))
  }

  ghost function Next(s: System, a: Action): System
    requires Enabled(s, a)
  {
    match a
    case Submit(q, newId) =>
      var (lane, submission) := Submitting(s.lane, q, newId);
      if submission.Started?
      then System(lane, s.verifies + [Verify(submission.operation.id, Starting, Unstarted, Unarmed)])
      else s.(lane := lane)
    case StartThread(g) => With(s, g, Of(s, g).(submitter := Arming, worker := Verifying))
    case ThreadFails(g) => With(s, g, Of(s, g).(submitter := NoThread))
    case WatchdogFails(g) => With(s, g, Of(s, g).(submitter := NoTimer))
    case ArmWatchdog(g) => With(s, g, Of(s, g).(submitter := Registering, timer := Armed))
    case RegisterWatchdog(g) =>
      With(s, g, Of(s, g).(submitter := Returned)).(lane := s.lane.(watchdogs := s.lane.watchdogs + {g}))
    case WorkerWrites(g, outcome) =>
      var s' := if outcome.Success? then Write(s, g, Succeeded, Some(outcome.result), None)
                else Write(s, g, Error, None, Some(outcome.error));
      With(s', g, Of(s', g).(worker := Written))
    case WorkerFinishes(g) =>
      var (lane, cancels) := Finishing(s.lane, g);
      With(s, g, Of(s, g).(worker := if cancels then Cancelling else Done)).(lane := lane)
    case WorkerCancels(g) =>
      With(s, g, Of(s, g).(worker := Done, timer := if Of(s, g).timer == Armed then Disarmed else Of(s, g).timer))
    case WatchdogWakes(g) => With(s, g, Of(s, g).(timer := Woken))
    case WatchdogFires(g) =>
      var (lane, released) := Expiring(s.lane, g);
      With(s, g, Of(s, g).(timer := if released then Releasing else Void)).(lane := lane)
    case WatchdogWrites(g, error) =>
      var s' := Write(s, g, Error, None, Some(error));
      With(s', g, Of(s', g).(timer := Expired))
    case OtherLane(step) => s.(lane := s.lane.(store := After(s.lane.store, step)))
  }

  // ---------------------------------------------------------------------------
  // What every interleaving keeps
  // ---------------------------------------------------------------------------

  /** The worker or the watchdog of the generation has let go of the guard. */
  predicate Released(v: Verify) {
    v.worker == Cancelling || v.worker == Done || v.timer == Releasing || v.timer == Expired
  }

  predicate IsTerminal(s: System, v: Verify) {
    v.operation in s.lane.store.operations && s.lane.store.operations[v.operation].state.Terminal()
  }

  /** The submitter has not got to arming the watchdog, or never will. */
  predicate IsEarly(submitter: Submitter) {
    submitter == Starting || submitter == Arming || submitter == NoThread || submitter == NoTimer
  }

  /** How the three threads of control of one generation fit together. */
  ghost predicate Consistent(s: System, g: nat)
    requires Exists(s, g)
  {
    var v := Of(s, g);
    && v.operation in s.lane.store.operations && s.lane.store.operations[v.operation].kind == VERIFY
    && (v.worker == Unstarted <==> v.submitter == Starting || v.submitter == NoThread)
    && (v.timer == Unarmed <==> IsEarly(v.submitter))
    && (v.worker == Written || v.worker == Cancelling || v.worker == Done || v.timer == Expired ==> IsTerminal(s, v))
    && (v.timer == Disarmed || v.timer == Void ==> Released(v))
  }

  ghost predicate Inv(s: System) {
    && Valid(s.lane.store)
    && s.lane.generation == |s.verifies|
    && (forall g: nat | Exists(s, g) :: Consistent(s, g))
    && (forall g: nat | Exists(s, g) && g < s.lane.generation :: Released(Of(s, g)))
    && (s.lane.running <==> s.verifies != [] && !Released(s.verifies[|s.verifies| - 1]))
    && NoneCreated(s.lane.store)
  }

  /** Operations of this lane leave their first state under the lock that makes them. */
  ghost predicate NoneCreated(store: Store) {
    forall id | id in store.operations && store.operations[id].kind == VERIFY :: store.operations[id].state != Created
  }

  /** A service that has just been started, on any store it may have loaded. */
  ghost predicate IsInitial(s: System) {
    && s == System(Lane(s.lane.store, false, 0, {}), [])
    && Valid(s.lane.store) && NoneCreated(s.lane.store)
  }

  ghost predicate IsExecution(states: seq<System>, actions: seq<Action>) {
    && |states| == |actions| + 1
    && forall i | 0 <= i < |actions| :: Enabled(states[i], actions[i]) && states[i + 1] == Next(states[i], actions[i])
  }

  /** Operations stay, keep their kind, and stay terminal. */
  ghost predicate Keeps(store: Store, store': Store) {
    && Valid(store') && NoneCreated(store')
    && forall id | id in store.operations ::
         && id in store'.operations && store'.operations[id].SameIdentity(store.operations[id])
         && (store.operations[id].state.Terminal() ==> store'.operations[id] == store.operations[id])
  }

  /** A step of one generation keeps the invariant when it keeps that generation consistent, takes back
      no release, and clears the flag exactly when the newest generation is released. */
  lemma InvLocal(s: System, g: nat, s': System)
    requires Inv(s) && Exists(s, g) && |s'.verifies| == |s.verifies|
    requires s'.verifies == s.verifies[g - 1 := s'.verifies[g - 1]]
    requires Keeps(s.lane.store, s'.lane.store) && s'.lane.generation == s.lane.generation
    requires Exists(s', g) && Consistent(s', g) && (Released(Of(s, g)) ==> Released(Of(s', g)))
    requires s'.lane.running <==> !Released(s'.verifies[|s'.verifies| - 1])
    ensures Inv(s')
  {
    hide Valid, NoneCreated;
    forall h: nat | Exists(s', h)
      ensures Consistent(s', h) && (h < s'.lane.generation ==> Released(Of(s', h)))
    {
      assert Exists(s, h) && Consistent(s, h);
    }
  }

  lemma KeepsItself(store: Store)
    requires Valid(store) && NoneCreated(store)
    ensures Keeps(store, store)
  {
  }

  /** One thread of control moves and the lane's flag and store stay. */
  lemma InvMove(s: System, a: Action)
    requires Inv(s) && Enabled(s, a)
    requires a.StartThread? || a.ThreadFails? || a.ArmWatchdog? || a.WatchdogFails? || a.RegisterWatchdog?
             || a.WatchdogWakes? || a.WorkerCancels?
    ensures Inv(Next(s, a))
  {
    hide Valid, NoneCreated, Keeps;
    assert Consistent(s, a.g);
    KeepsItself(s.lane.store);
    var s' := Next(s, a);
    assert Consistent(s', a.g) && (Released(Of(s, a.g)) <==> Released(Of(s', a.g)));
    hide Next, Enabled, Consistent;
    InvLocal(s, a.g, s');
  }

  lemma InvFinish(s: System, g: nat)
    requires Inv(s) && Enabled(s, WorkerFinishes(g))
    ensures Inv(Next(s, WorkerFinishes(g)))
  {
    assert Consistent(s, g);
    KeepsItself(s.lane.store);
    hide Valid, NoneCreated, Keeps;
    InvLocal(s, g, Next(s, WorkerFinishes(g)));
  }

  lemma InvFire(s: System, g: nat)
    requires Inv(s) && Enabled(s, WatchdogFires(g))
    ensures Inv(Next(s, WatchdogFires(g)))
  {
    assert Consistent(s, g);
    KeepsItself(s.lane.store);
    var s' := Next(s, WatchdogFires(g));
    assert g < s.lane.generation ==> Released(Of(s, g));
    assert Consistent(s', g);
    hide Valid, NoneCreated, Keeps, Consistent;
    InvLocal(s, g, s');
  }

  lemma SettingKeeps(store: Store, id: string, state: State, result: Option<Json>, error: Option<string>)
    requires Valid(store) && NoneCreated(store) && id in store.operations && state != Created
    ensures var put := Setting(store, id, state, result, error);
            put.Some? && Keeps(store, put.value.0) && (state.Terminal() ==> put.value.0.operations[id].state.Terminal())
  {
    var step := Step.SetState(id, state, result, error);
    forall other | other in store.operations
      ensures var store' := After(store, step);
              && other in store'.operations && store'.operations[other].SameIdentity(store.operations[other])
              && (store.operations[other].state.Terminal() ==> store'.operations[other] == store.operations[other])
    {
      StepEvolves(store, step, other);
    }
    StepEvolves(store, step, id);
    hide Valid;
    assert Setting(store, id, state, result, error).value.0 == After(store, step);
  }

  /** A terminal state is written to the operation of `g`, whose threads move to `v`. */
  lemma InvWriteBy(s: System, g: nat, state: State, result: Option<Json>, error: Option<string>, v: Verify)
    requires Inv(s) && Exists(s, g) && state.Terminal()
    requires v == Of(s, g).(worker := v.worker, timer := v.timer)
    requires v.worker == Unstarted <==> Of(s, g).worker == Unstarted
    requires v.timer == Unarmed <==> Of(s, g).timer == Unarmed
    requires Released(v) <==> Released(Of(s, g))
    requires v.timer == Disarmed || v.timer == Void ==> Released(v)
    ensures var s' := With(Write(s, g, state, result, error), g, v); Inv(s') && IsTerminal(s', v)
  {
    hide Valid, NoneCreated, Keeps, Setting;
    assert Consistent(s, g);
    var s' := With(Write(s, g, state, result, error), g, v);
    EndingWrite(s, g, state, result, error, v);
    assert Consistent(s', g);
    hide Inv, Consistent, IsTerminal;
    InvLocal(s, g, s');
  }

  lemma EndingWrite(s: System, g: nat, state: State, result: Option<Json>, error: Option<string>, v: Verify)
    requires Inv(s) && Exists(s, g) && state.Terminal() && v.operation == Of(s, g).operation
    ensures var s' := With(Write(s, g, state, result, error), g, v);
            && Keeps(s.lane.store, s'.lane.store) && IsTerminal(s', v)
            && s'.lane.store.operations[v.operation].kind == VERIFY
            && s' == System(s.lane.(store := s'.lane.store), s.verifies[g - 1 := v])
  {
    hide Valid, NoneCreated;
    assert Consistent(s, g);
    SettingKeeps(s.lane.store, v.operation, state, result, error);
    hide Keeps, Setting, Inv;
  }

  lemma InvWrite(s: System, a: Action)
    requires Inv(s) && Enabled(s, a) && (a.WorkerWrites? || a.WatchdogWrites?)
    ensures Inv(Next(s, a))
    ensures IsTerminal(Next(s, a), Of(Next(s, a), a.g))
  {
    assert Consistent(s, a.g);
    hide Inv, Consistent, Setting;
    match a {
      case WorkerWrites(g, outcome) =>
        var v := Of(s, g).(worker := Written);
        if outcome.Success? {
          InvWriteBy(s, g, Succeeded, Some(outcome.result), None, v);
        } else {
          InvWriteBy(s, g, Error, None, Some(outcome.error), v);
        }
      case WatchdogWrites(g, error) =>
        InvWriteBy(s, g, Error, None, Some(error), Of(s, g).(timer := Expired));
    }
  }

  lemma ForeignKeeps(s: System, step: Step)
    requires Inv(s) && IsForeign(s, step)
    ensures Keeps(s.lane.store, After(s.lane.store, step))
  {
    var store := s.lane.store;
    forall id | id in store.operations
      ensures var store' := After(store, step);
              && id in store'.operations && store'.operations[id].SameIdentity(store.operations[id])
              && (store.operations[id].state.Terminal() ==> store'.operations[id] == store.operations[id])
    {
      StepEvolves(store, step, id);
    }
    match step
    case Create(q, newId) => CreatingValid(store, q, newId);
    case SetState(id, state, result, error) =>
      if id in store.operations {
        SettingValid(store, id, state, result, error);
      }
  }

  lemma InvOther(s: System, step: Step)
    requires Inv(s) && Enabled(s, OtherLane(step))
    ensures Inv(Next(s, OtherLane(step)))
  {
    ForeignKeeps(s, step);
    var s' := Next(s, OtherLane(step));
    hide Valid, NoneCreated;
    forall h: nat | Exists(s', h)
      ensures Consistent(s', h) && (h < s'.lane.generation ==> Released(Of(s', h)))
    {
      assert Exists(s, h) && Consistent(s, h);
    }
  }

  /** A submission that starts a verify makes a new operation of this lane, already waiting. */
  lemma StartedIsNew(s: System, q: Request, newId: string)
    requires Inv(s) && Enabled(s, Submit(q, newId))
    ensures var (lane, r) := Submitting(s.lane, q, newId);
            && (!r.Started? ==> lane == s.lane)
            && (r.Started? ==>
                  && !s.lane.running && lane == Lane(lane.store, true, s.lane.generation + 1, s.lane.watchdogs)
                  && Keeps(s.lane.store, lane.store)
                  && r.operation.id in lane.store.operations && lane.store.operations[r.operation.id].kind == VERIFY
                  && newId == r.operation.id && newId !in s.lane.store.operations
                  && lane.store.operations == s.lane.store.operations[newId := r.operation]
                  && r.operation.state == Waiting)
  {
    var (store, creation) := Creating(s.lane.store, q, newId);
    assert q.requestId in s.lane.store.requestIds ==> Indexed(s.lane.store, q.requestId);
    hide Valid;
    if creation.New? {
      CreatingValid(s.lane.store, q, newId);
      SettingValid(store, newId, Waiting, None, None);
    }
  }

  /** A free lane takes on one more generation. */
  lemma InvGrow(s: System, s': System, v: Verify)
    requires Inv(s) && !s.lane.running && s'.verifies == s.verifies + [v]
    requires s'.lane.running && s'.lane.generation == s.lane.generation + 1 && Keeps(s.lane.store, s'.lane.store)
    requires v == Verify(v.operation, Starting, Unstarted, Unarmed)
    requires v.operation in s'.lane.store.operations && s'.lane.store.operations[v.operation].kind == VERIFY
    ensures Inv(s')
  {
    hide Valid, NoneCreated;
    assert s.verifies != [] ==> Of(s, s.lane.generation) == s.verifies[|s.verifies| - 1];
    forall h: nat | Exists(s', h)
      ensures Consistent(s', h) && (h < s'.lane.generation ==> Released(Of(s', h)))
    {
      if h < s'.lane.generation {
        assert Exists(s, h) && Consistent(s, h) && Of(s', h) == Of(s, h);
      } else {
        assert Of(s', h) == v;
      }
    }
  }

  lemma InvSubmit(s: System, q: Request, newId: string)
    requires Inv(s) && Enabled(s, Submit(q, newId))
    ensures Inv(Next(s, Submit(q, newId)))
  {
    StartedIsNew(s, q, newId);
    hide Valid, NoneCreated, Submitting, Inv;
    var r := Submitting(s.lane, q, newId).1;
    if r.Started? {
      InvGrow(s, Next(s, Submit(q, newId)), Verify(r.operation.id, Starting, Unstarted, Unarmed));
    } else {
      assert Next(s, Submit(q, newId)) == s;
    }
  }

  lemma InvNext(s: System, a: Action)
    requires Inv(s) && Enabled(s, a)
    ensures Inv(Next(s, a))
  {
    match a
    case Submit(q, newId) => InvSubmit(s, q, newId);
    case WorkerFinishes(g) => InvFinish(s, g);
    case WatchdogFires(g) => InvFire(s, g);
    case WorkerWrites(_, _) => InvWrite(s, a);
    case WatchdogWrites(_, _) => InvWrite(s, a);
    case OtherLane(step) => InvOther(s, step);
    case _ => InvMove(s, a);
  }

  lemma StepKeeps(s: System, a: Action)
    requires Inv(s) && Enabled(s, a)
    ensures Inv(Next(s, a)) && Keeps(s.lane.store, Next(s, a).lane.store)
  {
    InvNext(s, a);
    hide Inv, Valid, NoneCreated;
    match a
    case Submit(q, newId) => SubmitKeeps(s, q, newId);
    case OtherLane(step) => ForeignKeeps(s, step);
    case WorkerWrites(g, outcome) => WriteKeeps(s, g);
    case WatchdogWrites(g, _) => WriteKeeps(s, g);
    case _ => LaneKeeps(s);
  }

  lemma LaneKeeps(s: System)
    requires Inv(s)
    ensures Keeps(s.lane.store, s.lane.store)
  {
    KeepsItself(s.lane.store);
  }

  lemma SubmitKeeps(s: System, q: Request, newId: string)
    requires Inv(s) && Enabled(s, Submit(q, newId))
    ensures Keeps(s.lane.store, Next(s, Submit(q, newId)).lane.store)
  {
    StartedIsNew(s, q, newId);
    LaneKeeps(s);
  }

  lemma WriteKeeps(s: System, g: nat)
    requires Inv(s) && Exists(s, g)
    ensures forall state: State, result, error | state != Created ::
              Keeps(s.lane.store, Write(s, g, state, result, error).lane.store)
  {
    assert Consistent(s, g);
    forall state: State, result, error | state != Created
      ensures Keeps(s.lane.store, Write(s, g, state, result, error).lane.store)
    {
      SettingKeeps(s.lane.store, Of(s, g).operation, state, result, error);
    }
  }

  lemma {:induction false} ExecutionInv(states: seq<System>, actions: seq<Action>, i: nat)
    requires IsExecution(states, actions) && i <= |actions| && IsInitial(states[0])
    ensures Inv(states[i])
  {
    if i > 0 {
      ExecutionInv(states, actions, i - 1);
      InvNext(states[i - 1], actions[i - 1]);
    }
  }

  /** The lane may start on an empty store, and on what a restart makes of any store, with its interrupted
      verifies and their request ids. */
  lemma RestartIsInitial(store: Store)
    requires Valid(store)
    ensures IsInitial(System(Lane(EMPTY, false, 0, {}), []))
    ensures IsInitial(System(Lane(Reloaded(store), false, 0, {}), []))
  {
    ReloadInterrupts(store);
    hide Valid, Reloaded;
    assert Valid(EMPTY) by { EmptyIsValid(); }
  }

  lemma EmptyIsValid()
    ensures Valid(EMPTY)
  {
  }

  // ---------------------------------------------------------------------------
  // The properties
  // ---------------------------------------------------------------------------

  /** In every interleaving the flag is set exactly while neither the worker nor the watchdog of the newest
      generation has let go of it, and no older generation still holds it. */
  lemma GuardIsExact(states: seq<System>, actions: seq<Action>, i: nat)
    requires IsExecution(states, actions) && i <= |actions| && IsInitial(states[0])
    ensures var s := states[i];
            && s.lane.generation == |s.verifies|
            && (s.lane.running <==> s.lane.generation > 0 && !Released(Of(s, s.lane.generation)))
            && forall g: nat | Exists(s, g) && !Released(Of(s, g)) :: g == s.lane.generation && s.lane.running
  {
    ExecutionInv(states, actions, i);
  }

  /** A worker or watchdog of an older generation never touches the flag, the generation or the newest verify. */
  lemma StaleIsHarmless(s: System, a: Action)
    requires Inv(s) && Enabled(s, a) && !a.Submit? && !a.OtherLane? && a.g < s.lane.generation
    ensures var s' := Next(s, a);
            && s'.lane.running == s.lane.running && s'.lane.generation == s.lane.generation
            && Of(s', s.lane.generation) == Of(s, s.lane.generation)
  {
    assert Released(Of(s, a.g));
  }

  /** No verify is forgotten: once released its operation has ended, unless its watchdog stands between
      releasing and writing; and while the flag is set the newest watchdog is armed and not disarmed, or still
      to be armed, unless starting the thread or the watchdog failed. */
  lemma NoneForgotten(states: seq<System>, actions: seq<Action>, i: nat, g: nat)
    requires IsExecution(states, actions) && i <= |actions| && IsInitial(states[0]) && Exists(states[i], g)
    ensures var s := states[i]; var v := Of(s, g);
            && (Released(v) ==> IsTerminal(s, v) || v.timer == Releasing)
            && (s.lane.running && g == s.lane.generation ==>
                  v.timer == Armed || v.timer == Woken
                  || (v.timer == Unarmed && IsEarly(v.submitter)))
  {
    ExecutionInv(states, actions, i);
    assert Consistent(states[i], g);
  }

  /** What a verify ended with stays, whatever its late worker, its watchdog or anyone else does. */
  lemma {:induction false} EndedStays(states: seq<System>, actions: seq<Action>, i: nat, j: nat, g: nat)
    requires IsExecution(states, actions) && i <= j <= |actions| && IsInitial(states[0])
    requires Exists(states[i], g) && IsTerminal(states[i], Of(states[i], g))
    ensures Exists(states[j], g) && Of(states[j], g).operation == Of(states[i], g).operation
    ensures var id := Of(states[i], g).operation;
            && id in states[j].lane.store.operations
            && states[j].lane.store.operations[id] == states[i].lane.store.operations[id]
  {
    if i < j {
      EndedStays(states, actions, i, j - 1, g);
      ExecutionInv(states, actions, j - 1);
      StepKeeps(states[j - 1], actions[j - 1]);
      VerifiesStay(states[j - 1], actions[j - 1], g);
    }
  }

  lemma VerifiesStay(s: System, a: Action, g: nat)
    requires Enabled(s, a) && Exists(s, g)
    ensures Exists(Next(s, a), g) && Of(Next(s, a), g).operation == Of(s, g).operation
    ensures Released(Of(s, g)) && Inv(s) ==> Released(Of(Next(s, a), g))
  {
  }

  // ---------------------------------------------------------------------------
  // What a verify ends with
  // ---------------------------------------------------------------------------

  /** Every verify has an operation of its own. */
  ghost predicate OwnOperations(s: System) {
    forall g: nat, h: nat | Exists(s, g) && Exists(s, h) && g != h :: Of(s, g).operation != Of(s, h).operation
  }

  lemma OwnNext(s: System, a: Action)
    requires Inv(s) && OwnOperations(s) && Enabled(s, a)
    ensures OwnOperations(Next(s, a))
  {
    var s' := Next(s, a);
    if a.Submit? {
      StartedIsNew(s, a.request, a.newId);
      hide Valid, NoneCreated, Submitting, Keeps;
      forall g: nat, h: nat | Exists(s', g) && Exists(s', h) && g < h
        ensures Of(s', g).operation != Of(s', h).operation
      {
        assert Exists(s, g) && Consistent(s, g) && Of(s', g) == Of(s, g);
        assert h <= |s.verifies| ==> Exists(s, h) && Of(s', h) == Of(s, h);
      }
    } else {
      hide Valid, NoneCreated, Inv;
      forall g: nat | Exists(s', g) ensures Exists(s, g) && Of(s', g).operation == Of(s, g).operation {
        assert |s'.verifies| == |s.verifies|;
        VerifiesStay(s, a, g);
      }
    }
  }

  /** The first write of the worker or the watchdog ends the operation: with a result or an error of the worker, or
      with the error of the watchdog. */
  ghost predicate EndsAs(a: Action, g: nat, op: Operation) {
    match a
    case WorkerWrites(h, Success(result)) => h == g && op.state == Succeeded && op.result == Some(result)
    case WorkerWrites(h, Failure(error)) => h == g && op.state == Error && op.error == Some(error)
    case WatchdogWrites(h, error) => h == g && op.state == Error && op.error == Some(error)
    case _ => false
  }

  ghost predicate HasEnded(s: System, g: nat) {
    Exists(s, g) && IsTerminal(s, Of(s, g))
  }

  function OperationOf(s: System, g: nat): Operation
    requires HasEnded(s, g)
  {
    s.lane.store.operations[Of(s, g).operation]
  }

  /** A write to the operation of `h`. */
  lemma WriteEnds(s: System, h: nat, state: State, result: Option<Json>, error: Option<string>, g: nat)
    requires Inv(s) && OwnOperations(s) && Exists(s, g) && Exists(s, h) && !HasEnded(s, g) && state.Terminal()
    ensures var store := Write(s, h, state, result, error).lane.store;
            var id := Of(s, g).operation;
            && id in store.operations && id in s.lane.store.operations
            && (h != g ==> store.operations[id] == s.lane.store.operations[id])
            && (h == g ==>
                  && store.operations[id].state == state
                  && (result.Some? ==> store.operations[id].result == result)
                  && (error.Some? ==> store.operations[id].error == error))
  {
    assert Consistent(s, g) && Consistent(s, h);
    hide Valid, NoneCreated;
  }

  /** No other step ends a verify. */
  lemma OthersDoNotEnd(s: System, a: Action, g: nat)
    requires Inv(s) && Enabled(s, a) && !a.WorkerWrites? && !a.WatchdogWrites? && !HasEnded(s, g)
    ensures !HasEnded(Next(s, a), g)
  {
    hide Valid, NoneCreated;
    if Exists(s, g) {
      assert Consistent(s, g);
    }
    if a.Submit? {
      StartedIsNew(s, a.request, a.newId);
      hide Submitting, Keeps;
    }
  }

  /** Only a write of its own worker or watchdog ends a verify. */
  lemma StepEnds(s: System, a: Action, g: nat)
    requires Inv(s) && OwnOperations(s) && Enabled(s, a) && !HasEnded(s, g)
    ensures HasEnded(Next(s, a), g) ==> Exists(s, g) && EndsAs(a, g, OperationOf(Next(s, a), g))
  {
    hide Valid, NoneCreated;
    if a.WorkerWrites? || a.WatchdogWrites? {
      if Exists(s, g) {
        match a
        case WorkerWrites(h, Success(result)) => WriteEnds(s, h, Succeeded, Some(result), None, g);
        case WorkerWrites(h, Failure(error)) => WriteEnds(s, h, Error, None, Some(error), g);
        case WatchdogWrites(h, error) => WriteEnds(s, h, Error, None, Some(error), g);
      }
    } else {
      OthersDoNotEnd(s, a, g);
    }
  }

  /** Every verify that has ended did so by the first write of its own worker or watchdog, and its operation is
      what that write said: a success with its result, a failure or a time-out with its error. */
  lemma {:induction false} EndedBecause(states: seq<System>, actions: seq<Action>, i: nat, g: nat) returns (j: nat)
    requires IsExecution(states, actions) && i <= |actions| && IsInitial(states[0]) && HasEnded(states[i], g)
    ensures j < i && Exists(states[j], g) && !HasEnded(states[j], g) && HasEnded(states[j + 1], g)
    ensures EndsAs(actions[j], g, OperationOf(states[i], g))
  {
    hide Inv, Next, Enabled, OwnOperations, EndsAs;
    ExecutionOwns(states, actions, i);
    if i == 0 {
      assert false;
    } else {
      ExecutionOwns(states, actions, i - 1);
      if HasEnded(states[i - 1], g) {
        j := EndedBecause(states, actions, i - 1, g);
        EndedStays(states, actions, i - 1, i, g);
      } else {
        j := i - 1;
        StepEnds(states[j], actions[j], g);
      }
    }
  }

  lemma {:induction false} ExecutionOwns(states: seq<System>, actions: seq<Action>, i: nat)
    requires IsExecution(states, actions) && i <= |actions| && IsInitial(states[0])
    ensures Inv(states[i]) && OwnOperations(states[i])
  {
    ExecutionInv(states, actions, i);
    if i > 0 {
      ExecutionOwns(states, actions, i - 1);
      OwnNext(states[i - 1], actions[i - 1]);
    }
  }

  // ---------------------------------------------------------------------------
  // Freeing the guard
  // ---------------------------------------------------------------------------

  /** Steps the newest submitter and timer still need before the watchdog has fired. */
  function StepsToFire(v: Verify): nat {
    match v.timer
    case Unarmed => if v.submitter == Starting then 4 else 3
    case Armed => 2
    case _ => 1
  }

  /** The next step of the newest submitter or timer. */
  function StepToFire(v: Verify, g: nat): Action {
    match v.timer
    case Unarmed => if v.submitter == Starting then StartThread(g) else ArmWatchdog(g)
    case Armed => WatchdogWakes(g)
    case _ => WatchdogFires(g)
  }

  predicate IsStepToFire(a: Action, g: nat) {
    (a.StartThread? || a.ArmWatchdog? || a.WatchdogWakes? || a.WatchdogFires?) && a.g == g
  }

  /** It brings the watchdog nearer to firing, or clears the flag. */
  lemma StepsNearer(s: System)
    requires Inv(s) && s.lane.running
    requires var submitter := Of(s, s.lane.generation).submitter; submitter != NoThread && submitter != NoTimer
    ensures var g := s.lane.generation; var v := Of(s, g); var a := StepToFire(v, g);
            && Enabled(s, a) && IsStepToFire(a, g)
            && var s' := Next(s, a);
               && s'.lane.generation == g
               && if StepsToFire(v) == 1 then !s'.lane.running
                  else && s'.lane.running && Of(s', g).submitter != NoThread && Of(s', g).submitter != NoTimer
                       && StepsToFire(Of(s', g)) < StepsToFire(v)
  {
    hide Valid, NoneCreated;
    assert Consistent(s, s.lane.generation);
  }

  /** A stuck worker cannot keep the lane: from any reachable state with the flag set, unless starting the
      thread or the watchdog failed, at most four steps of the submitter and the timer alone clear it. */
  lemma {:induction false} GuardCanBeFreed(s: System) returns (states: seq<System>, actions: seq<Action>)
    requires Inv(s) && s.lane.running
    requires var submitter := Of(s, s.lane.generation).submitter; submitter != NoThread && submitter != NoTimer
    ensures IsExecution(states, actions) && states[0] == s && |actions| <= StepsToFire(Of(s, s.lane.generation))
    ensures forall a | a in actions :: IsStepToFire(a, s.lane.generation)
    ensures !states[|actions|].lane.running
    decreases StepsToFire(Of(s, s.lane.generation))
  {
    var g := s.lane.generation;
    var v := Of(s, g);
    var a := StepToFire(v, g);
    StepsNearer(s);
    InvNext(s, a);
    hide Inv, Next, Enabled, IsExecution, StepToFire, IsStepToFire, StepsToFire;
    var s' := Next(s, a);
    if StepsToFire(v) == 1 {
      ExecutionOne(s, a);
      states, actions := [s, s'], [a];
    } else {
      var later, rest := GuardCanBeFreed(s');
      states, actions := [s] + later, [a] + rest;
      ExecutionCons(s, a, later, rest);
    }
  }

  lemma ExecutionOne(s: System, a: Action)
    requires Enabled(s, a)
    ensures IsExecution([s, Next(s, a)], [a])
  {
    hide Enabled, Next;
  }

  lemma ExecutionCons(s: System, a: Action, states: seq<System>, actions: seq<Action>)
    requires Enabled(s, a) && IsExecution(states, actions) && states[0] == Next(s, a)
    ensures IsExecution([s] + states, [a] + actions)
  {
  }

  /** A worker that was started clears the flag by itself once its verify returns: at most two steps. */
  lemma WorkerFrees(s: System) returns (states: seq<System>, actions: seq<Action>)
    requires Inv(s) && s.lane.running && Of(s, s.lane.generation).worker != Unstarted
    ensures IsExecution(states, actions) && states[0] == s && |actions| <= 2 && !states[|actions|].lane.running
    ensures forall a | a in actions :: (a.WorkerWrites? || a.WorkerFinishes?) && a.g == s.lane.generation
  {
    var g := s.lane.generation;
    var write, finish := WorkerWrites(g, Failure("")), WorkerFinishes(g);
    hide Valid, NoneCreated, Consistent;
    if Of(s, g).worker == Written {
      states, actions := [s, Next(s, finish)], [finish];
    } else {
      assert Enabled(s, write);
      var written := Next(s, write);
      states, actions := [s, written, Next(written, finish)], [write, finish];
    }
  }

  /** The newest verify waits for a thread or a watchdog that could not be started. */
  ghost predicate IsStuck(s: System, submitter: Submitter) {
    && s.lane.running && s.verifies != [] && Of(s, |s.verifies|).submitter == submitter
    && (submitter == NoThread || submitter == NoTimer)
  }

  /** Then no step clears the flag or takes a submission, except that a worker which was started may end. */
  lemma StuckStays(s: System, a: Action, submitter: Submitter)
    requires Inv(s) && Enabled(s, a) && IsStuck(s, submitter)
    requires submitter == NoTimer ==> a != WorkerFinishes(s.lane.generation)
    ensures IsStuck(Next(s, a), submitter) && Next(s, a).lane.generation == s.lane.generation
  {
    hide Valid, NoneCreated;
    var g := s.lane.generation;
    assert Consistent(s, g);
    if !a.Submit? && !a.OtherLane? && a.g < g {
      StaleIsHarmless(s, a);
    }
  }

  lemma {:induction false} StuckForever(states: seq<System>, actions: seq<Action>, submitter: Submitter, i: nat)
    requires IsExecution(states, actions) && i <= |actions| && Inv(states[0]) && IsStuck(states[0], submitter)
    requires submitter == NoTimer ==> WorkerFinishes(states[0].lane.generation) !in actions
    ensures Inv(states[i]) && IsStuck(states[i], submitter)
    ensures states[i].lane.generation == states[0].lane.generation
  {
    hide Inv, IsStuck, Next, Enabled;
    if i > 0 {
      StuckForever(states, actions, submitter, i - 1);
      assert actions[i - 1] in actions;
      InvNext(states[i - 1], actions[i - 1]);
      StuckStays(states[i - 1], actions[i - 1], submitter);
    }
  }

  ghost predicate Clears(s: System, states: seq<System>, actions: seq<Action>) {
    IsExecution(states, actions) && states[0] == s && !states[|actions|].lane.running
  }

  ghost predicate CanClear(s: System) {
    exists states: seq<System>, actions: seq<Action> :: Clears(s, states, actions)
  }

  /** Some run clears the flag although the newest worker does not end. */
  ghost predicate CanClearAlone(s: System) {
    exists states: seq<System>, actions: seq<Action> ::
      Clears(s, states, actions) && WorkerFinishes(s.lane.generation) !in actions
  }

  /** From a reachable state with the flag set some run of the lane clears it if and only if the thread of the
      newest verify could be started; otherwise only a restart does. */
  lemma GuardIsFreeable(s: System)
    requires Inv(s) && s.lane.running
    ensures CanClear(s) <==> Of(s, s.lane.generation).submitter != NoThread
  {
    var v := Of(s, s.lane.generation);
    assert Consistent(s, s.lane.generation);
    hide Valid, NoneCreated, Next, Enabled, Consistent;
    if v.submitter == NoThread {
      if states: seq<System>, actions: seq<Action> :| Clears(s, states, actions) {
        StuckForever(states, actions, NoThread, |actions|);
      }
    } else {
      var states, actions;
      if v.submitter == NoTimer {
        states, actions := WorkerFrees(s);
      } else {
        states, actions := GuardCanBeFreed(s);
      }
      assert Clears(s, states, actions);
    }
  }

  /** It can be cleared without the worker if and only if the watchdog could be started too. */
  lemma GuardIsFreeableAlone(s: System)
    requires Inv(s) && s.lane.running
    ensures CanClearAlone(s) <==>
            Of(s, s.lane.generation).submitter != NoThread && Of(s, s.lane.generation).submitter != NoTimer
  {
    var v := Of(s, s.lane.generation);
    hide Valid, NoneCreated, Next, Enabled, Consistent;
    if v.submitter == NoThread || v.submitter == NoTimer {
      if states: seq<System>, actions: seq<Action> :|
          Clears(s, states, actions) && WorkerFinishes(s.lane.generation) !in actions {
        StuckForever(states, actions, v.submitter, |actions|);
      }
    } else {
      var states, actions := GuardCanBeFreed(s);
      assert Clears(s, states, actions);
    }
  }

  // ---------------------------------------------------------------------------
  // Both failures happen
  // ---------------------------------------------------------------------------

  /** A service with one verify that waits for its thread. */
  ghost predicate IsWaiting(s: System, id: string) {
    Inv(s) && s.lane.running && s.lane.generation == 1 && s.verifies == [Verify(id, Starting, Unstarted, Unarmed)]
  }

  /** A new request on a service that was just started gets a generation. */
  lemma FirstSubmission(s: System, q: Request, newId: string)
    requires IsInitial(s) && Enabled(s, Submit(q, newId)) && q.requestId !in s.lane.store.requestIds
    ensures IsWaiting(Next(s, Submit(q, newId)), newId)
  {
    InvNext(s, Submit(q, newId));
    StartedIsNew(s, q, newId);
  }

  lemma ThreadFailsNext(s: System, id: string)
    requires IsWaiting(s, id)
    ensures Enabled(s, ThreadFails(1))
    ensures var stuck := Next(s, ThreadFails(1));
            Inv(stuck) && IsStuck(stuck, NoThread) && !CanClear(stuck)
  {
    InvNext(s, ThreadFails(1));
    hide Inv, CanClear;
    GuardIsFreeable(Next(s, ThreadFails(1)));
  }

  lemma WatchdogFailsNext(s: System, id: string)
    requires Inv(s) && s.lane.running && s.lane.generation == 1
    requires s.verifies == [Verify(id, Arming, Verifying, Unarmed)]
    ensures Enabled(s, WatchdogFails(1))
    ensures var stuck := Next(s, WatchdogFails(1));
            Inv(stuck) && IsStuck(stuck, NoTimer) && CanClear(stuck) && !CanClearAlone(stuck)
  {
    InvNext(s, WatchdogFails(1));
    hide Inv, CanClear, CanClearAlone;
    var stuck := Next(s, WatchdogFails(1));
    GuardIsFreeable(stuck);
    GuardIsFreeableAlone(stuck);
  }

  lemma StartsNext(s: System, id: string)
    requires IsWaiting(s, id)
    ensures Enabled(s, StartThread(1))
    ensures var t := Next(s, StartThread(1));
            Inv(t) && t.lane.running && t.lane.generation == 1 && t.verifies == [Verify(id, Arming, Verifying, Unarmed)]
  {
    InvNext(s, StartThread(1));
    hide Inv;
  }

  /** From every start any new request may end in either failure: its thread cannot be started, and only a
      restart clears the flag; or its watchdog cannot, and only the worker does. */
  lemma ThreadCanFail(s: System, q: Request, newId: string) returns (states: seq<System>, actions: seq<Action>)
    requires IsInitial(s) && Enabled(s, Submit(q, newId)) && q.requestId !in s.lane.store.requestIds
    ensures IsExecution(states, actions) && states[0] == s
    ensures Inv(states[|actions|]) && IsStuck(states[|actions|], NoThread) && !CanClear(states[|actions|])
  {
    FirstSubmission(s, q, newId);
    hide *;
    var waiting := Next(s, Submit(q, newId));
    ThreadFailsNext(waiting, newId);
    var stuck := Next(waiting, ThreadFails(1));
    ExecutionOne(waiting, ThreadFails(1));
    ExecutionCons(s, Submit(q, newId), [waiting, stuck], [ThreadFails(1)]);
    states, actions := [s] + [waiting, stuck], [Submit(q, newId)] + [ThreadFails(1)];
  }

  lemma WatchdogCanFail(s: System, q: Request, newId: string) returns (states: seq<System>, actions: seq<Action>)
    requires IsInitial(s) && Enabled(s, Submit(q, newId)) && q.requestId !in s.lane.store.requestIds
    ensures IsExecution(states, actions) && states[0] == s
    ensures Inv(states[|actions|]) && IsStuck(states[|actions|], NoTimer)
    ensures CanClear(states[|actions|]) && !CanClearAlone(states[|actions|])
  {
    FirstSubmission(s, q, newId);
    hide *;
    var waiting := Next(s, Submit(q, newId));
    StartsNext(waiting, newId);
    var arming := Next(waiting, StartThread(1));
    WatchdogFailsNext(arming, newId);
    var stuck := Next(arming, WatchdogFails(1));
    ExecutionOne(arming, WatchdogFails(1));
    ExecutionCons(waiting, StartThread(1), [arming, stuck], [WatchdogFails(1)]);
    var later, rest := [waiting] + [arming, stuck], [StartThread(1)] + [WatchdogFails(1)];
    ExecutionCons(s, Submit(q, newId), later, rest);
    states, actions := [s] + later, [Submit(q, newId)] + rest;
  }
}
