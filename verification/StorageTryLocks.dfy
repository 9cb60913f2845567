/**
 The refusing locks of app/storageLifecycle.ts: withStorageControlTaskLock, withStorageTaskLock and
 withStorageWorker. All of them probe an exclusive session advisory lock with
 pg_try_advisory_lock, run a callback, and give the lock and the connection back.
 */
module StorageTryLocks {
  import opened Counting
  import opened Wrappers

  const NAMESPACE := 17419
  const STORAGE_KEY := 9301
  const POOL_MAX := 2

  datatype Kind = Control(taskNamespace: bool) | Task | Worker

  /** The pair of integers that names one advisory lock. */
  datatype LockId = LockId(space: int, key: int)

  datatype Place = CheckedOut(call: nat) | Idle | Destroyed | Leaked

  /** `lock` is the advisory lock the server records for the session. */
  datatype Session = Session(process: nat, kind: Kind, alive: bool, place: Place, lock: Option<LockId>)

  datatype Outcome = Returned | Refused | NothingToDo | NestingForbidden | Failed

  datatype Phase =
    | Connecting
    | Trying(sid: nat)
    | Running(sid: nat)
    | Probing(sid: nat)                     // awaiting the final assertHeld
    | Leaving(sid: nat, outcome: Outcome)   // in the finally block, before the unlock
    | Handing(sid: nat, outcome: Outcome)   // in the finally block, after the unlock
    | NestedProbing                         // nested control call awaiting assertHeld
    | NestedRunning
    | Done(outcome: Outcome)

  /** `store` is the outermost control call in whose async context this call was made. */
  datatype Call = Call(kind: Kind, process: nat, identity: string, lock: LockId, store: Option<nat>,
                       phase: Phase, locked: bool, broken: bool)

  datatype State = State(calls: seq<Call>, sessions: seq<Session>)

  const INITIAL := State([], [])

  datatype Step =
    | Begin(kind: Kind, process: nat, identity: string, store: Option<nat>)
    | ConnectIdle(call: nat, sid: nat)
    | ConnectFresh(call: nat)
    | ConnectError(call: nat)
    | Try(call: nat)
    | TryError(call: nat)
    | Finish(call: nat, ok: bool)
    | ProbeOk(call: nat)
    | ProbeError(call: nat)
    | NestedProbeOk(call: nat)
    | NestedProbeError(call: nat)
    | NestedFinish(call: nat, ok: bool)
    | Unlock(call: nat)
    | Hand(call: nat)
    | ErrorEvent(call: nat)
    | SessionEnd(sid: nat)

  /** The lock a call asks for; `hash` is the first 32 bits of SHA-256 read as a signed integer. */
  function LockOf(hash: string -> int, kind: Kind, identity: string): LockId {
    match kind
    case Control(taskNamespace) => LockId(if taskNamespace then NAMESPACE + 1 else NAMESPACE + 2, hash(identity))
    case Task => LockId(NAMESPACE + 1, hash(identity))
    case Worker => LockId(NAMESPACE, STORAGE_KEY + 1)
  }

  /** The pool a kind of call connects through: control and task-namespace calls share the control pool. */
  predicate SamePool(a: Kind, b: Kind) {
    (a.Control? && b.Control?) || a == b
  }

  function Clients(sessions: seq<Session>, process: nat, kind: Kind): set<nat> {
    set sid | 0 <= sid < |sessions| && sessions[sid].process == process && SamePool(sessions[sid].kind, kind)
              && !sessions[sid].place.Destroyed?
  }

  function SidOf(p: Phase): Option<nat> {
    match p
    case Trying(sid) => Some(sid)
    case Running(sid) => Some(sid)
    case Probing(sid) => Some(sid)
    case Leaving(sid, _) => Some(sid)
    case Handing(sid, _) => Some(sid)
    case _ => None
  }

  predicate HasSession(s: State, k: nat) {
    k < |s.calls| && SidOf(s.calls[k].phase).Some? && SidOf(s.calls[k].phase).value < |s.sessions|
  }

  function SessionOf(s: State, k: nat): Session
    requires HasSession(s, k)
  {
    s.sessions[SidOf(s.calls[k].phase).value]
  }

  /** The finally block of the call sends its unlock statement. */
  predicate SendsUnlock(s: State, k: nat)
    requires k < |s.calls|
  {
    s.calls[k].locked && !s.calls[k].broken
  }

  /** No nested call still awaits its probe on the connection of `o`. */
  predicate NoNestedProbe(s: State, o: nat) {
    forall k :: 0 <= k < |s.calls| && s.calls[k].phase.NestedProbing? ==> s.calls[k].store != Some(o)
  }

  /** The control context is visible to the callback and not yet deactivated by the finally block. */
  predicate OpenContext(s: State, o: nat) {
    o < |s.calls| && (s.calls[o].phase.Running? || s.calls[o].phase.Probing?)
  }

  predicate Available(s: State, sid: nat, lock: LockId) {
    forall other :: 0 <= other < |s.sessions| && other != sid ==> s.sessions[other].lock != Some(lock)
  }

  predicate Enabled(s: State, step: Step) {
    match step
    case Begin(kind, process, _, store) =>
      store.Some? ==> store.value < |s.calls| && s.calls[store.value].kind.Control?
                      && s.calls[store.value].process == process && s.calls[store.value].locked
    case ConnectIdle(k, sid) =>
      && k < |s.calls| && s.calls[k].phase.Connecting? && sid < |s.sessions| && s.sessions[sid].place.Idle?
      && s.sessions[sid].process == s.calls[k].process && SamePool(s.sessions[sid].kind, s.calls[k].kind)
    case ConnectFresh(k) =>
      && k < |s.calls| && s.calls[k].phase.Connecting?
      && (!s.calls[k].kind.Task? ==> |Clients(s.sessions, s.calls[k].process, s.calls[k].kind)| < POOL_MAX)
    case ConnectError(k) => k < |s.calls| && s.calls[k].phase.Connecting?
    case Try(k) => HasSession(s, k) && s.calls[k].phase.Trying? && s.sessions[s.calls[k].phase.sid].alive
    case TryError(k) => HasSession(s, k) && s.calls[k].phase.Trying?
    case Finish(k, _) => HasSession(s, k) && s.calls[k].phase.Running?
    case ProbeOk(k) => HasSession(s, k) && s.calls[k].phase.Probing? && s.sessions[s.calls[k].phase.sid].alive
    case ProbeError(k) => HasSession(s, k) && s.calls[k].phase.Probing?
    case NestedProbeOk(k) =>
      && k < |s.calls| && s.calls[k].phase.NestedProbing? && s.calls[k].store.Some?
      && HasSession(s, s.calls[k].store.value) && SessionOf(s, s.calls[k].store.value).alive
    case NestedProbeError(k) => k < |s.calls| && s.calls[k].phase.NestedProbing?
    case NestedFinish(k, _) => k < |s.calls| && s.calls[k].phase.NestedRunning?
    case Unlock(k) =>
      && HasSession(s, k) && s.calls[k].phase.Leaving?
         // statements on one connection run in order, so probes sent before the unlock answer first
      && (SendsUnlock(s, k) && SessionOf(s, k).alive ==> NoNestedProbe(s, k))
    case Hand(k) => HasSession(s, k) && s.calls[k].phase.Handing?
    case ErrorEvent(k) => HasSession(s, k) && !s.calls[k].kind.Task?
    case SessionEnd(sid) => sid < |s.sessions| && s.sessions[sid].alive
  }

  function WithPhase(s: State, k: nat, p: Phase): State
    requires k < |s.calls|
  {
    s.(calls := s.calls[k := s.calls[k].(phase := p)])
  }

  function WithSession(s: State, sid: nat, x: Session): State
    requires sid < |s.sessions|
  {
    s.(sessions := s.sessions[sid := x])
  }

  function AfterBegin(hash: string -> int, s: State, kind: Kind, process: nat, identity: string, store: Option<nat>): State {
    var lock := LockOf(hash, kind, identity);
    var phase :=
      if kind.Control? && store.Some? && OpenContext(s, store.value) then
        var outer := s.calls[store.value];
        if outer.identity != identity || outer.lock.space != lock.space then Done(NestingForbidden)
        else if outer.broken then Done(Failed)
        else NestedProbing
      else Connecting;
    s.(calls := s.calls + [Call(kind, process, identity, lock, store, phase, false, false)])
  }

  /** pg_try_advisory_lock: granted exactly when no other session holds the lock. */
  function AfterTry(s: State, k: nat): State
    requires HasSession(s, k) && s.calls[k].phase.Trying?
  {
    var call := s.calls[k];
    var sid := call.phase.sid;
    if Available(s, sid, call.lock) then
      State(s.calls[k := call.(phase := Running(sid), locked := true)],
            s.sessions[sid := s.sessions[sid].(lock := Some(call.lock))])
    else
      WithPhase(s, k, Leaving(sid, if call.kind.Worker? then NothingToDo else Refused))
  }

  function AfterFinish(s: State, k: nat, ok: bool): State
    requires HasSession(s, k) && s.calls[k].phase.Running?
  {
    var call := s.calls[k];
    var sid := call.phase.sid;
    if !ok then WithPhase(s, k, Leaving(sid, Failed))
    else if !call.kind.Control? then WithPhase(s, k, Leaving(sid, Returned))
    else if call.broken then WithPhase(s, k, Leaving(sid, Failed))
    else WithPhase(s, k, Probing(sid))
  }

  /** The unlock of the finally block. withStorageTaskLock does not release its connection when the unlock throws. */
  function AfterUnlock(s: State, k: nat): State
    requires HasSession(s, k) && s.calls[k].phase.Leaving?
  {
    var call := s.calls[k];
    var sid := call.phase.sid;
    if !call.locked || call.broken then WithPhase(s, k, Handing(sid, call.phase.outcome))
    else if s.sessions[sid].alive then
      WithSession(WithPhase(s, k, Handing(sid, call.phase.outcome)), sid, s.sessions[sid].(lock := None))
    else if call.kind.Task? then
      WithSession(WithPhase(s, k, Done(Failed)), sid, s.sessions[sid].(place := Leaked))
    else WithPhase(s, k, Handing(sid, Failed))
  }

  function AfterHand(s: State, k: nat): State
    requires HasSession(s, k) && s.calls[k].phase.Handing?
  {
    var call := s.calls[k];
    var sid := call.phase.sid;
    WithSession(WithPhase(s, k, Done(call.phase.outcome)), sid,
                s.sessions[sid].(place := if call.broken then Destroyed else Idle))
  }

  function Apply(hash: string -> int, s: State, step: Step): State
    requires Enabled(s, step)
  {
    match step
    case Begin(kind, process, identity, store) => AfterBegin(hash, s, kind, process, identity, store)
    case ConnectIdle(k, sid) =>
      WithSession(WithPhase(s, k, Trying(sid)), sid, s.sessions[sid].(place := CheckedOut(k)))
    case ConnectFresh(k) =>
      WithPhase(s, k, Trying(|s.sessions|))
      .(sessions := s.sessions + [Session(s.calls[k].process, s.calls[k].kind, true, CheckedOut(k), None)])
    case ConnectError(k) => WithPhase(s, k, Done(Failed))
    case Try(k) => AfterTry(s, k)
    case TryError(k) => WithPhase(s, k, Leaving(s.calls[k].phase.sid, Failed))
    case Finish(k, ok) => AfterFinish(s, k, ok)
    case ProbeOk(k) => WithPhase(s, k, Leaving(s.calls[k].phase.sid, Returned))
    case ProbeError(k) => WithPhase(s, k, Leaving(s.calls[k].phase.sid, Failed))
    case NestedProbeOk(k) => WithPhase(s, k, NestedRunning)
    case NestedProbeError(k) => WithPhase(s, k, Done(Failed))
    case NestedFinish(k, ok) => WithPhase(s, k, Done(if ok then Returned else Failed))
    case Unlock(k) => AfterUnlock(s, k)
    case Hand(k) => AfterHand(s, k)
    case ErrorEvent(k) => s.(calls := s.calls[k := s.calls[k].(broken := true)])
    case SessionEnd(sid) => WithSession(s, sid, s.sessions[sid].(alive := false, lock := None))
  }

  ghost predicate IsRun(hash: string -> int, states: seq<State>, steps: seq<Step>) {
    && |states| == |steps| + 1
    && states[0] == INITIAL
    && forall i :: 0 <= i < |steps| ==> Enabled(states[i], steps[i]) && states[i + 1] == Apply(hash, states[i], steps[i])
  }

  // ---------------------------------------------------------------- invariant

  ghost predicate CallOk(hash: string -> int, s: State, k: nat)
    requires k < |s.calls|
  {
    var call := s.calls[k];
    && call.lock == LockOf(hash, call.kind, call.identity)
    && (call.kind.Task? ==> !call.broken)
    && (call.phase.Connecting? || call.phase.NestedProbing? || call.phase.NestedRunning? ==> !call.locked)
    && (SidOf(call.phase).Some? ==>
          var sid := SidOf(call.phase).value;
          && sid < |s.sessions| && s.sessions[sid].place == CheckedOut(k)
          && (call.phase.Trying? ==> !call.locked && s.sessions[sid].lock.None?)
          && (call.phase.Running? || call.phase.Probing? ==> call.locked)
          && (!call.locked ==> s.sessions[sid].lock.None?)
          && (call.locked && s.sessions[sid].alive && !call.phase.Handing? ==> s.sessions[sid].lock == Some(call.lock))
          && (call.phase.Handing? ==> s.sessions[sid].lock.None? || (call.broken && s.sessions[sid].lock == Some(call.lock)))
          && (call.phase.Leaving? && call.phase.outcome.Returned? ==> call.locked))
  }

  ghost predicate SessionOk(s: State, sid: nat)
    requires sid < |s.sessions|
  {
    var x := s.sessions[sid];
    && (!x.alive || x.place.Idle? || x.place.Leaked? ==> x.lock.None?)
    && (x.place.CheckedOut? ==> x.place.call < |s.calls| && SidOf(s.calls[x.place.call].phase) == Some(sid))
  }

  /** One session at most holds a given lock. */
  ghost predicate TableOk(s: State) {
    forall a, b :: 0 <= a < |s.sessions| && 0 <= b < |s.sessions| && a != b && s.sessions[a].lock.Some?
      ==> s.sessions[a].lock != s.sessions[b].lock
  }

  ghost predicate Inv(hash: string -> int, s: State) {
    && (forall k :: 0 <= k < |s.calls| ==> CallOk(hash, s, k))
    && (forall sid :: 0 <= sid < |s.sessions| ==> SessionOk(s, sid))
    && TableOk(s)
  }

  lemma StepKeepsOwnCall(hash: string -> int, s: State, step: Step)
    requires Inv(hash, s) && Enabled(s, step) && !step.Begin? && !step.SessionEnd?
    ensures CallOk(hash, Apply(hash, s, step), step.call)
  {
    hide LockOf, Available, Clients, TableOk;
    assert CallOk(hash, s, step.call);
    if SidOf(s.calls[step.call].phase).Some? { assert SessionOk(s, SidOf(s.calls[step.call].phase).value); }
    if step.ConnectIdle? { assert SessionOk(s, step.sid); }
  }

  lemma StepKeepsOtherCall(hash: string -> int, s: State, step: Step, k: nat)
    requires Inv(hash, s) && Enabled(s, step) && !step.Begin? && !step.SessionEnd? && k < |s.calls| && k != step.call
    ensures k < |Apply(hash, s, step).calls| && CallOk(hash, Apply(hash, s, step), k)
  {
    assert CallOk(hash, s, k) && CallOk(hash, s, step.call);
    hide LockOf, Available, Clients, TableOk, SessionOk, NoNestedProbe, OpenContext;
  }

  lemma StepKeepsCalls(hash: string -> int, s: State, step: Step, k: nat)
    requires Inv(hash, s) && Enabled(s, step) && k < |Apply(hash, s, step).calls|
    ensures CallOk(hash, Apply(hash, s, step), k)
  {
    hide LockOf, Available, Clients, TableOk, NoNestedProbe;
    if step.Begin? || step.SessionEnd? {
      if k < |s.calls| { assert CallOk(hash, s, k); }
    } else if step.call == k {
      StepKeepsOwnCall(hash, s, step);
    } else {
      StepKeepsOtherCall(hash, s, step, k);
    }
  }

  lemma StepKeepsSession(hash: string -> int, s: State, step: Step, sid: nat)
    requires Inv(hash, s) && Enabled(s, step) && sid < |Apply(hash, s, step).sessions|
    ensures SessionOk(Apply(hash, s, step), sid)
  {
    if !step.Begin? && !step.SessionEnd? { assert CallOk(hash, s, step.call); }
    if sid < |s.sessions| { assert SessionOk(s, sid); }
    hide LockOf, Available, Clients, TableOk, Inv, NoNestedProbe, OpenContext;
  }

  lemma StepKeepsTable(hash: string -> int, s: State, step: Step)
    requires Inv(hash, s) && Enabled(s, step)
    ensures TableOk(Apply(hash, s, step))
  {
    hide LockOf, Clients, CallOk, SessionOk;
  }

  lemma StepKeepsSessions(hash: string -> int, s: State, step: Step)
    requires Inv(hash, s) && Enabled(s, step)
    ensures var t := Apply(hash, s, step);
            TableOk(t) && forall sid :: 0 <= sid < |t.sessions| ==> SessionOk(t, sid)
  {
    forall sid | 0 <= sid < |Apply(hash, s, step).sessions| ensures SessionOk(Apply(hash, s, step), sid) {
      StepKeepsSession(hash, s, step, sid);
    }
    StepKeepsTable(hash, s, step);
  }

  lemma {:induction false} RunKeepsInv(hash: string -> int, states: seq<State>, steps: seq<Step>, i: nat)
    requires IsRun(hash, states, steps) && i < |states|
    ensures Inv(hash, states[i])
  {
    if i == 0 {
    } else {
      RunKeepsInv(hash, states, steps, i - 1);
      forall k | 0 <= k < |states[i].calls| ensures CallOk(hash, states[i], k) {
        StepKeepsCalls(hash, states[i - 1], steps[i - 1], k);
      }
      StepKeepsSessions(hash, states[i - 1], steps[i - 1]);
    }
  }

  // ---------------------------------------------------------------- exclusion

  /** The session of call `k` lives, holds its lock, and no other session holds it. */
  ghost predicate HoldsAlone(s: State, k: nat) {
    && HasSession(s, k)
    && s.sessions[SidOf(s.calls[k].phase).value].alive
    && s.sessions[SidOf(s.calls[k].phase).value].lock == Some(s.calls[k].lock)
    && Available(s, SidOf(s.calls[k].phase).value, s.calls[k].lock)
  }

  /**
   An outermost control call that returns normally held its lock alone from its grant to its
   final check. Step i is the answer of that check; j is any moment between the grant and it. The
   lock covers withStorageTaskLock callers too when taskLockNamespace is given, because their lock is the same pair.
   */
  lemma {:induction false} ControlLockHeldThroughout(hash: string -> int, states: seq<State>, steps: seq<Step>, i: nat, k: nat, j: nat)
    requires IsRun(hash, states, steps) && i < |steps| && steps[i] == ProbeOk(k)
    requires j <= i && k < |states[j].calls| && states[j].calls[k].locked
    ensures HoldsAlone(states[j], k)
  {
    RunKeepsInv(hash, states, steps, i);
    RunKeepsInv(hash, states, steps, j);
    StillInside(hash, states, steps, j, i, k);
    assert CallOk(hash, states[j], k);
  }

  /** The call runs or probes on a session that lives. */
  ghost predicate Inside(s: State, k: nat) {
    && k < |s.calls| && (s.calls[k].phase.Running? || s.calls[k].phase.Probing?)
    && HasSession(s, k) && s.sessions[s.calls[k].phase.sid].alive
  }

  lemma InsideBefore(hash: string -> int, s: State, step: Step, k: nat)
    requires Inv(hash, s) && Enabled(s, step) && k < |s.calls| && s.calls[k].locked
    requires Inside(Apply(hash, s, step), k)
    ensures Inside(s, k)
  {
    assert CallOk(hash, s, k);
    hide LockOf, Available, Clients, TableOk, SessionOk, CallOk, OpenContext;
  }

  lemma LockedStays(hash: string -> int, s: State, step: Step, k: nat)
    requires Enabled(s, step) && k < |s.calls| && s.calls[k].locked
    ensures k < |Apply(hash, s, step).calls| && Apply(hash, s, step).calls[k].locked
  {
    hide LockOf, Available, Clients, OpenContext;
  }

  /** Going back from the final probe: since its grant the call has been inside its callback on the same living session. */
  lemma {:induction false} StillInside(hash: string -> int, states: seq<State>, steps: seq<Step>, j: nat, i: nat, k: nat)
    requires IsRun(hash, states, steps) && j <= i < |states|
    requires Inside(states[i], k) && k < |states[j].calls| && states[j].calls[k].locked
    ensures Inside(states[j], k)
    decreases i - j
  {
    hide Inv, Apply, Enabled, Inside;
    if j == i {
    } else {
      RunKeepsInv(hash, states, steps, j);
      LockedStays(hash, states[j], steps[j], k);
      StillInside(hash, states, steps, j + 1, i, k);
      InsideBefore(hash, states[j], steps[j], k);
    }
  }

  /** The call has left its callback normally. */
  ghost predicate LeftNormally(s: State, k: nat) {
    && k < |s.calls| && s.calls[k].kind.Control? && s.calls[k].locked
    && (s.calls[k].phase.Leaving? || s.calls[k].phase.Handing? || s.calls[k].phase.Done?)
    && s.calls[k].phase.outcome == Returned
  }

  lemma LeavesNormallyByProbe(hash: string -> int, s: State, step: Step, k: nat)
    requires Inv(hash, s) && Enabled(s, step) && LeftNormally(Apply(hash, s, step), k)
    ensures LeftNormally(s, k) || (step == ProbeOk(k) && HoldsAlone(s, k))
  {
    if k < |s.calls| { assert CallOk(hash, s, k); }
  }

  /** A control call only returns normally through a successful final check made while its lock was held alone. */
  lemma {:induction false} NormalReturnWasChecked(hash: string -> int, states: seq<State>, steps: seq<Step>, n: nat, k: nat)
    returns (i: nat)
    requires IsRun(hash, states, steps) && n < |states| && LeftNormally(states[n], k)
    ensures i < n && steps[i] == ProbeOk(k) && HoldsAlone(states[i], k)
  {
    i := n - 1;
    RunKeepsInv(hash, states, steps, i);
    LeavesNormallyByProbe(hash, states[i], steps[i], k);
    if LeftNormally(states[i], k) {
      i := NormalReturnWasChecked(hash, states, steps, i, k);
    }
  }

  /** The task lock and the control lock with taskLockNamespace exclude each other. */
  predicate OnTasks(kind: Kind) {
    kind.Task? || kind == Control(true)
  }

  /**
   Which calls exclude each other: the two kinds of calls on tasks by the hash of their identity, the other
   control calls by theirs, and all workers. The numbers are those every process of an installation uses; the
   fence has key 9301 in namespace 17419.
   */
  lemma LocksAre(hash: string -> int, a: Kind, x: string, b: Kind, y: string)
    ensures LockOf(hash, a, x) == LockOf(hash, b, y) <==>
            (a.Worker? && b.Worker?)
            || (!a.Worker? && !b.Worker? && OnTasks(a) == OnTasks(b) && hash(x) == hash(y))
    ensures LockOf(hash, a, x) == if a.Worker? then LockId(17419, 9302) else LockId(if OnTasks(a) then 17420 else 17421, hash(x))
  {}

  /**
   Two living callbacks never work for one identity in the same namespace, task callers included, and never are two
   workers; a hash collision can only refuse.
   */
  lemma OneCallbackPerIdentity(hash: string -> int, states: seq<State>, steps: seq<Step>, i: nat, j: nat, k: nat)
    requires IsRun(hash, states, steps) && i < |states|
    requires j < |states[i].calls| && k < |states[i].calls| && j != k
    requires states[i].calls[j].phase.Running? && states[i].calls[k].phase.Running?
    requires HasSession(states[i], j) && states[i].sessions[states[i].calls[j].phase.sid].alive
    requires HasSession(states[i], k) && states[i].sessions[states[i].calls[k].phase.sid].alive
    ensures var a, b := states[i].calls[j], states[i].calls[k];
            && a.lock != b.lock && !(a.kind.Worker? && b.kind.Worker?)
            && (!a.kind.Worker? && !b.kind.Worker? && OnTasks(a.kind) == OnTasks(b.kind) ==> a.identity != b.identity)
  {
    RunKeepsInv(hash, states, steps, i);
    assert CallOk(hash, states[i], j) && CallOk(hash, states[i], k);
  }

  /** A refusal always has a reason: another session holds the very same pair of integers. */
  lemma RefusalHasHolder(hash: string -> int, s: State, k: nat) returns (holder: nat)
    requires Inv(hash, s) && Enabled(s, Try(k)) && !Apply(hash, s, Try(k)).calls[k].locked
    ensures holder < |s.sessions| && s.sessions[holder].alive && s.sessions[holder].lock == Some(s.calls[k].lock)
  {
    assert CallOk(hash, s, k);
    holder :| 0 <= holder < |s.sessions| && holder != s.calls[k].phase.sid && s.sessions[holder].lock == Some(s.calls[k].lock);
    assert SessionOk(s, holder);
  }

  // ---------------------------------------------------------------- connections

  ghost predicate ConnectsCall(step: Step, k: nat) {
    (step.ConnectFresh? || step.ConnectIdle?) && step.call == k
  }

  ghost function Connects(steps: seq<Step>, n: nat, k: nat): nat
    requires n <= |steps|
  {
    if n == 0 then 0 else Connects(steps, n - 1, k) + One(ConnectsCall(steps[n - 1], k))
  }

  ghost function Hands(steps: seq<Step>, n: nat, k: nat): nat
    requires n <= |steps|
  {
    if n == 0 then 0 else Hands(steps, n - 1, k) + One(steps[n - 1] == Hand(k))
  }

  ghost function UnlockThrew(states: seq<State>, steps: seq<Step>, n: nat, k: nat): nat
    requires n <= |steps| && n <= |states|
  {
    if n == 0 then 0
    else UnlockThrew(states, steps, n - 1, k)
         + One(Throws(states[n - 1], steps[n - 1], k))
  }

  /** The unlock statement of a task call fails: it is sent on a session that has ended. */
  ghost predicate Throws(s: State, step: Step, k: nat) {
    && step == Unlock(k) && HasSession(s, k) && s.calls[k].kind.Task?
    && SendsUnlock(s, k) && !SessionOf(s, k).alive
  }

  lemma StepConserves(hash: string -> int, s: State, step: Step, k: nat)
    requires Inv(hash, s) && Enabled(s, step)
    ensures var t := Apply(hash, s, step);
            && One(ConnectsCall(step, k)) + One(k < |s.calls| && SidOf(s.calls[k].phase).Some?)
               == One(step == Hand(k)) + One(Throws(s, step, k)) + One(k < |t.calls| && SidOf(t.calls[k].phase).Some?)
            && (Throws(s, step, k) ==> t.sessions[SidOf(s.calls[k].phase).value].place.Leaked?)
            && One(ConnectsCall(step, k)) + One(k < |s.calls| && !s.calls[k].phase.Connecting?)
               <= One(k < |t.calls| && !t.calls[k].phase.Connecting?)
            && (k < |s.calls| ==> t.calls[k].kind == s.calls[k].kind)
  {
    hide LockOf, Available, Clients, TableOk, SessionOk;
  }

  /**
   Conservation of connections. A connect is matched by exactly one release, with one exception the
   code really has: a withStorageTaskLock call whose unlock statement throws keeps its connection.
   */
  lemma {:induction false} ConnectionsAreConserved(hash: string -> int, states: seq<State>, steps: seq<Step>, n: nat, k: nat)
    requires IsRun(hash, states, steps) && n <= |steps|
    ensures Connects(steps, n, k)
         == Hands(steps, n, k) + UnlockThrew(states, steps, n, k)
            + One(k < |states[n].calls| && SidOf(states[n].calls[k].phase).Some?)
    ensures UnlockThrew(states, steps, n, k) > 0 ==> k < |states[n].calls| && states[n].calls[k].kind.Task?
    ensures Connects(steps, n, k) <= One(k < |states[n].calls| && !states[n].calls[k].phase.Connecting?)
  {
    if n == 0 {
    } else {
      RunKeepsInv(hash, states, steps, n - 1);
      ConnectionsAreConserved(hash, states, steps, n - 1, k);
      StepConserves(hash, states[n - 1], steps[n - 1], k);
    }
  }

  /** What comes back to a pool undestroyed carries no advisory lock. */
  lemma IdleCarriesNoLock(hash: string -> int, states: seq<State>, steps: seq<Step>, i: nat, sid: nat)
    requires IsRun(hash, states, steps) && i < |states| && sid < |states[i].sessions|
    requires states[i].sessions[sid].place.Idle?
    ensures states[i].sessions[sid].lock == None
  {
    RunKeepsInv(hash, states, steps, i);
    assert SessionOk(states[i], sid);
  }

  ghost predicate PoolOk(s: State) {
    forall p: nat, kind: Kind :: !kind.Task? ==> |Clients(s.sessions, p, kind)| <= POOL_MAX
  }

  /** The pooled clients of one process for control calls of either namespace. */
  function ControlClients(s: State, process: nat): set<nat> {
    set sid | 0 <= sid < |s.sessions| && s.sessions[sid].process == process && s.sessions[sid].kind.Control?
              && !s.sessions[sid].place.Destroyed?
  }

  function WorkerClients(s: State, process: nat): set<nat> {
    set sid | 0 <= sid < |s.sessions| && s.sessions[sid].process == process && s.sessions[sid].kind.Worker?
              && !s.sessions[sid].place.Destroyed?
  }

  lemma DestroyedStays(hash: string -> int, s: State, step: Step, sid: nat)
    requires Inv(hash, s) && Enabled(s, step) && sid < |s.sessions|
    ensures var t := Apply(hash, s, step);
            && |s.sessions| <= |t.sessions| && (!step.ConnectFresh? ==> |s.sessions| == |t.sessions|)
            && t.sessions[sid].process == s.sessions[sid].process && t.sessions[sid].kind == s.sessions[sid].kind
            && (s.sessions[sid].place.Destroyed? ==> t.sessions[sid].place.Destroyed?)
  {
    if !step.Begin? && !step.SessionEnd? { assert CallOk(hash, s, step.call); }
  }

  lemma {:induction false} RunKeepsPool(hash: string -> int, states: seq<State>, steps: seq<Step>, i: nat)
    requires IsRun(hash, states, steps) && i < |states|
    ensures PoolOk(states[i])
  {
    if i == 0 {
      forall p: nat, kind: Kind ensures |Clients(states[0].sessions, p, kind)| <= POOL_MAX {
        assert Clients(states[0].sessions, p, kind) == {};
      }
    } else {
      RunKeepsPool(hash, states, steps, i - 1);
      RunKeepsInv(hash, states, steps, i - 1);
      StepKeepsPool(hash, states[i - 1], steps[i - 1]);
    }
  }

  /** The control pool, which serves both namespaces, and the worker pool of a process never exceed two clients each. */
  lemma PoolsAreBounded(hash: string -> int, states: seq<State>, steps: seq<Step>, i: nat, p: nat)
    requires IsRun(hash, states, steps) && i < |states|
    ensures |ControlClients(states[i], p)| <= 2 && |WorkerClients(states[i], p)| <= 2
  {
    RunKeepsPool(hash, states, steps, i);
    assert ControlClients(states[i], p) == Clients(states[i].sessions, p, Control(false));
    assert WorkerClients(states[i], p) == Clients(states[i].sessions, p, Worker);
  }

  lemma StepKeepsPool(hash: string -> int, s: State, step: Step)
    requires Inv(hash, s) && Enabled(s, step) && PoolOk(s)
    ensures PoolOk(Apply(hash, s, step))
  {
    hide Inv, LockOf, Available, OpenContext;
    var t := Apply(hash, s, step);
    forall p: nat, kind: Kind | !kind.Task? ensures |Clients(t.sessions, p, kind)| <= POOL_MAX {
      var a, b := Clients(t.sessions, p, kind), Clients(s.sessions, p, kind);
      forall sid | sid in a && sid < |s.sessions| ensures sid in b { DestroyedStays(hash, s, step, sid); }
      if step.ConnectFresh? && s.calls[step.call].process == p && SamePool(s.calls[step.call].kind, kind) {
        assert Clients(s.sessions, p, s.calls[step.call].kind) == b;
        assert a <= b + {|s.sessions|};
        SubsetSize(a, b + {|s.sessions|});
      } else {
        forall sid | sid in a ensures sid in b {
          if |s.sessions| > 0 { DestroyedStays(hash, s, step, 0); }
        }
        SubsetSize(a, b);
      }
    }
  }

  // ---------------------------------------------------------------- nested control calls

  /** The call is an outermost control call that was granted its lock; every call made inside it names such a store. */
  ghost predicate Granted(s: State, o: nat) {
    o < |s.calls| && s.calls[o].kind.Control? && s.calls[o].locked
  }

  lemma GrantedStays(hash: string -> int, s: State, step: Step, o: nat)
    requires Enabled(s, step) && Granted(s, o)
    ensures Granted(Apply(hash, s, step), o)
  {
    LockedStays(hash, s, step, o);
    hide LockOf, Available, Clients, OpenContext, NoNestedProbe;
  }

  lemma StoreStep(hash: string -> int, s: State, step: Step, k: nat)
    requires Enabled(s, step) && k < |Apply(hash, s, step).calls| && Apply(hash, s, step).calls[k].store.Some?
    ensures if k < |s.calls| then s.calls[k].store == Apply(hash, s, step).calls[k].store
            else Granted(s, Apply(hash, s, step).calls[k].store.value)
  {
    hide LockOf, Available, Clients, OpenContext, NoNestedProbe;
  }

  lemma {:induction false} StoresAreGranted(hash: string -> int, states: seq<State>, steps: seq<Step>, n: nat, k: nat)
    requires IsRun(hash, states, steps) && n < |states| && k < |states[n].calls| && states[n].calls[k].store.Some?
    ensures Granted(states[n], states[n].calls[k].store.value)
  {
    hide Enabled, Apply, Granted;
    if n == 0 {
    } else {
      StoreStep(hash, states[n - 1], steps[n - 1], k);
      if k < |states[n - 1].calls| { StoresAreGranted(hash, states, steps, n - 1, k); }
      GrantedStays(hash, states[n - 1], steps[n - 1], states[n].calls[k].store.value);
    }
  }

  /** The step sends the unlock statement of call `o`. */
  ghost predicate IsUnlockOf(s: State, step: Step, o: nat) {
    step == Unlock(o) && o < |s.calls| && SendsUnlock(s, o)
  }

  ghost predicate UnlockSent(states: seq<State>, steps: seq<Step>, n: nat, o: nat)
    requires n <= |steps| && n <= |states|
  {
    exists j :: 0 <= j < n && IsUnlockOf(states[j], steps[j], o)
  }

  lemma UnlockSentStep(states: seq<State>, steps: seq<Step>, n: nat, o: nat)
    requires 0 < n <= |steps| && n <= |states|
    ensures UnlockSent(states, steps, n, o) <==> UnlockSent(states, steps, n - 1, o) || IsUnlockOf(states[n - 1], steps[n - 1], o)
  {
    hide IsUnlockOf;
  }

  /** The call is behind its unlock. */
  ghost predicate BehindUnlock(s: State, o: nat) {
    o < |s.calls| && (s.calls[o].phase.Handing? || s.calls[o].phase.Done?)
  }

  lemma BehindStep(hash: string -> int, s: State, step: Step, o: nat)
    requires Enabled(s, step) && (BehindUnlock(s, o) || step == Unlock(o))
    ensures BehindUnlock(Apply(hash, s, step), o)
  {
    hide LockOf, Available, Clients, OpenContext, NoNestedProbe;
  }

  lemma {:induction false} SentIsBehind(hash: string -> int, states: seq<State>, steps: seq<Step>, n: nat, o: nat)
    requires IsRun(hash, states, steps) && n < |states| && UnlockSent(states, steps, n, o)
    ensures BehindUnlock(states[n], o)
  {
    hide Enabled, Apply, BehindUnlock;
    if n == 0 {
    } else {
      UnlockSentStep(states, steps, n, o);
      if UnlockSent(states, steps, n - 1, o) { SentIsBehind(hash, states, steps, n - 1, o); }
      BehindStep(hash, states[n - 1], steps[n - 1], o);
    }
  }

  /** The call still has its connection, and the session behind it lives. */
  ghost predicate OnLiveSession(s: State, o: nat) {
    HasSession(s, o) && SessionOf(s, o).alive
  }

  /** The session of the call has the lock of the call. */
  ghost predicate HasLock(s: State, o: nat) {
    HasSession(s, o) && SessionOf(s, o).lock == Some(s.calls[o].lock)
  }

  lemma SameSession(hash: string -> int, s: State, step: Step, o: nat)
    requires Enabled(s, step) && o < |s.calls| && s.calls[o].locked && CallOk(hash, s, o)
    requires HasSession(Apply(hash, s, step), o)
    ensures HasSession(s, o) && SidOf(s.calls[o].phase) == SidOf(Apply(hash, s, step).calls[o].phase)
    ensures Apply(hash, s, step).calls[o].lock == s.calls[o].lock
  {
    hide LockOf, Available, Clients, OpenContext, NoNestedProbe;
  }

  lemma HasLockStep(hash: string -> int, s: State, step: Step, o: nat)
    requires Inv(hash, s) && Enabled(s, step) && o < |s.calls| && s.calls[o].locked && OnLiveSession(Apply(hash, s, step), o)
    ensures OnLiveSession(s, o) && SidOf(s.calls[o].phase) == SidOf(Apply(hash, s, step).calls[o].phase)
    ensures HasLock(Apply(hash, s, step), o) <==> HasLock(s, o) && !IsUnlockOf(s, step, o)
  {
    assert CallOk(hash, s, o);
    if !step.Begin? && !step.SessionEnd? { assert CallOk(hash, s, step.call); }
    SameSession(hash, s, step, o);
    hide LockOf, Available, Clients, TableOk, SessionOk, CallOk, OpenContext, NoNestedProbe;
  }

  lemma GrantHasLock(hash: string -> int, s: State, step: Step, o: nat)
    requires Inv(hash, s) && Enabled(s, step) && o < |Apply(hash, s, step).calls| && Apply(hash, s, step).calls[o].locked
    requires !(o < |s.calls| && s.calls[o].locked)
    ensures HasLock(Apply(hash, s, step), o) && !BehindUnlock(Apply(hash, s, step), o)
  {
    hide LockOf, Available, Clients, TableOk, SessionOk, OpenContext, NoNestedProbe;
  }

  lemma {:induction false} HasLockUntilUnlock(hash: string -> int, states: seq<State>, steps: seq<Step>, n: nat, o: nat)
    requires IsRun(hash, states, steps) && n < |states| && o < |states[n].calls| && states[n].calls[o].locked
    requires OnLiveSession(states[n], o)
    ensures HasLock(states[n], o) <==> !UnlockSent(states, steps, n, o)
  {
    hide Inv, Enabled, Apply, BehindUnlock, UnlockSent, IsUnlockOf, HasLock, OnLiveSession;
    if n == 0 {
    } else {
      RunKeepsInv(hash, states, steps, n - 1);
      UnlockSentStep(states, steps, n, o);
      if o < |states[n - 1].calls| && states[n - 1].calls[o].locked {
        HasLockStep(hash, states[n - 1], steps[n - 1], o);
        HasLockUntilUnlock(hash, states, steps, n - 1, o);
      } else {
        GrantHasLock(hash, states[n - 1], steps[n - 1], o);
        if UnlockSent(states, steps, n, o) { SentIsBehind(hash, states, steps, n, o); }
      }
    }
  }

  /** The session of call `o` lives and alone holds this lock. */
  ghost predicate Covers(s: State, o: nat, lock: LockId) {
    && HasSession(s, o) && SessionOf(s, o).alive && SessionOf(s, o).lock == Some(lock)
    && Available(s, SidOf(s.calls[o].phase).value, lock)
  }

  /** The call was let into the context of `o` without a connection of its own. */
  predicate IsNested(s: State, k: nat) {
    k < |s.calls| && (s.calls[k].phase.NestedProbing? || s.calls[k].phase.NestedRunning?)
  }

  /** It asks for what the outermost call has: the same identity in the same namespace. */
  ghost predicate SameAsOuter(s: State, k: nat) {
    && k < |s.calls| && s.calls[k].store.Some? && s.calls[k].store.value < |s.calls|
    && var outer := s.calls[s.calls[k].store.value];
    && s.calls[k].kind == outer.kind && s.calls[k].identity == outer.identity && s.calls[k].lock == outer.lock
  }

  lemma StepKeepsNames(hash: string -> int, s: State, step: Step, k: nat)
    requires Enabled(s, step) && k < |s.calls|
    ensures var t := Apply(hash, s, step);
            && k < |t.calls| && t.calls[k].kind == s.calls[k].kind && t.calls[k].identity == s.calls[k].identity
            && t.calls[k].lock == s.calls[k].lock && t.calls[k].store == s.calls[k].store
  {
    hide LockOf, Available, Clients, OpenContext, NoNestedProbe;
  }

  lemma NestsStep(hash: string -> int, s: State, step: Step, k: nat)
    requires Inv(hash, s) && Enabled(s, step) && IsNested(Apply(hash, s, step), k)
    ensures IsNested(s, k) || SameAsOuter(Apply(hash, s, step), k)
  {
    hide Available, Clients, NoNestedProbe, SessionOk, TableOk;
    if step.Begin? && step.store.Some? { assert CallOk(hash, s, step.store.value); }
  }

  /** A nested call never runs under another lock than the one it asked for. */
  lemma {:induction false} NestedIsSameAsOuter(hash: string -> int, states: seq<State>, steps: seq<Step>, n: nat, k: nat)
    requires IsRun(hash, states, steps) && n < |states| && IsNested(states[n], k)
    ensures SameAsOuter(states[n], k)
  {
    hide Enabled, Apply, Inv;
    if n == 0 {
    } else {
      var s, step := states[n - 1], steps[n - 1];
      RunKeepsInv(hash, states, steps, n - 1);
      NestsStep(hash, s, step, k);
      if IsNested(s, k) {
        NestedIsSameAsOuter(hash, states, steps, n - 1, k);
        StepKeepsNames(hash, s, step, k);
        StepKeepsNames(hash, s, step, s.calls[k].store.value);
      }
    }
  }

  /**
   A control call made inside an open control context is refused exactly when its identity or its namespace
   is another one; otherwise it goes on to the check of that context, or fails at once if the
   connection is known to be broken.
   */
  lemma NestsIff(hash: string -> int, states: seq<State>, steps: seq<Step>, n: nat, taskNamespace: bool, o: nat)
    requires IsRun(hash, states, steps) && n < |steps| && steps[n].Begin? && steps[n].kind == Control(taskNamespace)
    requires steps[n].store == Some(o)
    ensures var s, t := states[n], states[n + 1];
            && |t.calls| == |s.calls| + 1 && o < |s.calls| && s.calls[o].kind.Control?
            && var phase, outer := t.calls[|s.calls|].phase, s.calls[o];
               var other := outer.identity != steps[n].identity || outer.kind != Control(taskNamespace);
            && (phase.Connecting? <==> !OpenContext(s, o))
            && (phase == Phase.Done(NestingForbidden) <==> OpenContext(s, o) && other)
            && (phase == Phase.Done(Failed) <==> OpenContext(s, o) && !other && outer.broken)
            && (phase.NestedProbing? <==> OpenContext(s, o) && !other && !outer.broken)
  {
    RunKeepsInv(hash, states, steps, n);
    assert Enabled(states[n], steps[n]);
    assert CallOk(hash, states[n], o);
  }

  /**
   What covers a nested control callback, at any moment of any run: the session of the outermost call alone
   holds the lock that the nested call asked for exactly as long as the outermost call still has a
   living connection and has not sent its unlock.
   */
  lemma NestedIsCoveredByOuter(hash: string -> int, states: seq<State>, steps: seq<Step>, n: nat, k: nat, o: nat)
    requires IsRun(hash, states, steps) && n < |states| && IsNested(states[n], k) && states[n].calls[k].store == Some(o)
    ensures Covers(states[n], o, states[n].calls[k].lock) <==>
            OnLiveSession(states[n], o) && !UnlockSent(states, steps, n, o)
  {
    StoresAreGranted(hash, states, steps, n, k);
    NestedIsSameAsOuter(hash, states, steps, n, k);
    RunKeepsInv(hash, states, steps, n);
    if OnLiveSession(states[n], o) { HasLockUntilUnlock(hash, states, steps, n, o); }
    hide IsRun, CallOk, SessionOk, UnlockSent;
  }

  /** The call is a nested control call that is not over. */
  ghost predicate NestedIn(s: State, k: int, o: nat) {
    0 <= k && IsNested(s, k) && s.calls[k].store == Some(o)
  }

  /**
   What a caller has to keep: the callback of `o` settles only when its nested calls are over, and
   nothing it left behind starts another one during the final check.
   */
  ghost predicate AwaitsNested(s: State, step: Step, o: nat) {
    && (step.Finish? && step.call == o ==> forall k :: !NestedIn(s, k, o))
    && (step.Begin? && step.kind.Control? && step.store == Some(o) ==> o < |s.calls| && !s.calls[o].phase.Probing?)
  }

  lemma NestedStep(hash: string -> int, s: State, step: Step, o: nat, k: nat)
    requires Enabled(s, step) && NestedIn(Apply(hash, s, step), k, o)
    ensures NestedIn(s, k, o) || (step.Begin? && step.kind.Control? && step.store == Some(o) && OpenContext(s, o))
  {
    hide LockOf, Available, Clients, NoNestedProbe, OpenContext;
  }

  lemma RunningStep(hash: string -> int, s: State, step: Step, o: nat)
    requires Enabled(s, step) && o < |s.calls| && s.calls[o].phase.Running? && !(step.Finish? && step.call == o)
    ensures o < |Apply(hash, s, step).calls| && Apply(hash, s, step).calls[o].phase.Running?
  {
    hide LockOf, Available, Clients, NoNestedProbe, OpenContext;
  }

  lemma AwaitedStep(hash: string -> int, s: State, step: Step, o: nat, k: nat)
    requires Enabled(s, step) && AwaitsNested(s, step, o) && NestedIn(Apply(hash, s, step), k, o)
    requires NestedIn(s, k, o) ==> o < |s.calls| && s.calls[o].phase.Running?
    ensures o < |Apply(hash, s, step).calls| && Apply(hash, s, step).calls[o].phase.Running?
  {
    NestedStep(hash, s, step, o, k);
    hide Apply, Enabled, NestedIn;
    RunningStep(hash, s, step, o);
  }

  lemma {:induction false} OuterStillRuns(hash: string -> int, states: seq<State>, steps: seq<Step>, n: nat, k: nat, o: nat)
    requires IsRun(hash, states, steps) && n < |states| && NestedIn(states[n], k, o)
    requires forall j :: 0 <= j < n ==> AwaitsNested(states[j], steps[j], o)
    ensures o < |states[n].calls| && states[n].calls[o].phase.Running?
  {
    hide Enabled, Apply, AwaitsNested;
    if n == 0 {
    } else {
      if NestedIn(states[n - 1], k, o) { OuterStillRuns(hash, states, steps, n - 1, k, o); }
      AwaitedStep(hash, states[n - 1], steps[n - 1], o, k);
    }
  }

  /** With such a caller every nested callback that is running has its lock for as long as the session lives. */
  lemma AwaitedNestedIsCovered(hash: string -> int, states: seq<State>, steps: seq<Step>, n: nat, k: nat, o: nat)
    requires IsRun(hash, states, steps) && n < |states| && NestedIn(states[n], k, o)
    requires forall j :: 0 <= j < n ==> AwaitsNested(states[j], steps[j], o)
    ensures HasSession(states[n], o)
    ensures SessionOf(states[n], o).alive <==> Covers(states[n], o, states[n].calls[k].lock)
  {
    OuterStillRuns(hash, states, steps, n, k, o);
    NestedIsSameAsOuter(hash, states, steps, n, k);
    RunKeepsInv(hash, states, steps, n);
    hide IsRun, SessionOk, AwaitsNested, Available;
    assert CallOk(hash, states[n], o);
    if SessionOf(states[n], o).alive {
      NoOtherHolds(states[n], o);
    }
  }

  lemma NoOtherHolds(s: State, o: nat)
    requires TableOk(s) && HasLock(s, o)
    ensures Available(s, SidOf(s.calls[o].phase).value, s.calls[o].lock)
  {}

  // ---------------------------------------------------------------- the check of a nested call

  lemma PendingStep(hash: string -> int, s: State, step: Step, k: nat, o: nat)
    requires Enabled(s, step) && k < |Apply(hash, s, step).calls|
    requires Apply(hash, s, step).calls[k].phase.NestedProbing? && Apply(hash, s, step).calls[k].store == Some(o)
    requires OnLiveSession(Apply(hash, s, step), o)
    ensures !IsUnlockOf(s, step, o)
    ensures k < |s.calls| ==> s.calls[k].phase.NestedProbing? && s.calls[k].store == Some(o)
    ensures k >= |s.calls| ==> OpenContext(s, o) && OpenContext(Apply(hash, s, step), o)
  {
    hide LockOf, Available, Clients;
  }

  lemma LiveBefore(hash: string -> int, s: State, step: Step, o: nat)
    requires Inv(hash, s) && Enabled(s, step) && Granted(s, o) && OnLiveSession(Apply(hash, s, step), o)
    ensures OnLiveSession(s, o)
  {
    HasLockStep(hash, s, step, o);
    hide Inv, Enabled, Apply, OnLiveSession, HasLock, IsUnlockOf;
  }

  /** While a nested probe is under way on a living session, the unlock of that session has not been sent. */
  lemma {:induction false} PendingBeforeUnlock(hash: string -> int, states: seq<State>, steps: seq<Step>, n: nat, k: nat, o: nat)
    requires IsRun(hash, states, steps) && n < |states| && k < |states[n].calls|
    requires states[n].calls[k].phase.NestedProbing? && states[n].calls[k].store == Some(o) && OnLiveSession(states[n], o)
    ensures !UnlockSent(states, steps, n, o)
  {
    hide Inv, Enabled, Apply, UnlockSent, IsUnlockOf, OnLiveSession, Granted;
    if n == 0 {
    } else {
      UnlockSentStep(states, steps, n, o);
      PendingStep(hash, states[n - 1], steps[n - 1], k, o);
      if k < |states[n - 1].calls| {
        StoresAreGranted(hash, states, steps, n - 1, k);
        RunKeepsInv(hash, states, steps, n - 1);
        LiveBefore(hash, states[n - 1], steps[n - 1], o);
        PendingBeforeUnlock(hash, states, steps, n - 1, k, o);
      } else if UnlockSent(states, steps, n - 1, o) {
        SentIsBehind(hash, states, steps, n - 1, o);
      }
    }
  }

  /** Back from a living connection: since the grant the call has had that connection, alive. */
  lemma {:induction false} LiveSinceGrant(hash: string -> int, states: seq<State>, steps: seq<Step>, j: nat, i: nat, o: nat)
    requires IsRun(hash, states, steps) && j <= i < |states| && Granted(states[j], o) && OnLiveSession(states[i], o)
    ensures OnLiveSession(states[j], o)
    decreases i - j
  {
    hide Inv, Enabled, Apply, OnLiveSession, Granted;
    if j == i {
    } else {
      RunKeepsInv(hash, states, steps, j);
      GrantedStays(hash, states[j], steps[j], o);
      LiveSinceGrant(hash, states, steps, j + 1, i, o);
      LiveBefore(hash, states[j], steps[j], o);
    }
  }

  /**
   The check a nested call makes before its callback is as good as the final one: when it answers, the
   session of the outermost call alone held the lock the nested call asked for, at every moment since the grant.
   */
  lemma NestedCheckMeansHeld(hash: string -> int, states: seq<State>, steps: seq<Step>, i: nat, k: nat, o: nat, j: nat)
    requires IsRun(hash, states, steps) && i < |steps| && steps[i] == NestedProbeOk(k)
    requires k < |states[i].calls| && states[i].calls[k].store == Some(o) && j <= i && Granted(states[j], o)
    ensures Covers(states[j], o, states[i].calls[k].lock)
  {
    assert Enabled(states[i], steps[i]);
    PendingBeforeUnlock(hash, states, steps, i, k, o);
    LiveSinceGrant(hash, states, steps, j, i, o);
    RunKeepsInv(hash, states, steps, j);
    NestedIsSameAsOuter(hash, states, steps, i, k);
    NamesStay(hash, states, steps, j, i, o);
    if UnlockSent(states, steps, j, o) { SentStays(states, steps, j, i, o); }
    HasLockUntilUnlock(hash, states, steps, j, o);
    hide IsRun, CallOk, SessionOk, UnlockSent, Enabled, Available;
    NoOtherHolds(states[j], o);
  }

  lemma {:induction false} NamesStay(hash: string -> int, states: seq<State>, steps: seq<Step>, j: nat, i: nat, o: nat)
    requires IsRun(hash, states, steps) && j <= i < |states| && o < |states[j].calls|
    ensures o < |states[i].calls| && states[i].calls[o].lock == states[j].calls[o].lock
  {
    hide Enabled, Apply;
    if j == i {
    } else {
      NamesStay(hash, states, steps, j, i - 1, o);
      StepKeepsNames(hash, states[i - 1], steps[i - 1], o);
    }
  }

  lemma SentStays(states: seq<State>, steps: seq<Step>, j: nat, i: nat, o: nat)
    requires j <= i <= |steps| && i <= |states| && UnlockSent(states, steps, j, o)
    ensures UnlockSent(states, steps, i, o)
  {
    hide IsUnlockOf;
  }

  lemma Extend(hash: string -> int, states: seq<State>, steps: seq<Step>, step: Step)
    returns (moreStates: seq<State>, moreSteps: seq<Step>)
    requires IsRun(hash, states, steps) && Enabled(states[|steps|], step)
    ensures IsRun(hash, moreStates, moreSteps) && |moreSteps| == |steps| + 1
    ensures moreStates[|moreSteps|] == Apply(hash, states[|steps|], step) && moreSteps == steps + [step]
  {
    moreStates, moreSteps := states + [Apply(hash, states[|steps|], step)], steps + [step];
  }

  /** A run in which a control call holds its lock and its callback has started a nested call. */
  lemma NestedStarts(hash: string -> int) returns (states: seq<State>, steps: seq<Step>)
    ensures IsRun(hash, states, steps)
    ensures states[|steps|] == NestedState(hash, Running(0), true, Some(LockOf(hash, Control(false), "root")))
  {
    states, steps := [INITIAL], [];
    states, steps := Extend(hash, states, steps, Begin(Control(false), 0, "root", None));
    states, steps := Extend(hash, states, steps, ConnectFresh(0)) by {
      assert Clients([], 0, Control(false)) == {};
    }
    states, steps := Extend(hash, states, steps, Try(0));
    states, steps := Extend(hash, states, steps, Begin(Control(false), 0, "root", Some(0)));
    states, steps := Extend(hash, states, steps, NestedProbeOk(1));
  }

  ghost function NestedState(hash: string -> int, outer: Phase, locked: bool, held: Option<LockId>): State {
    var lock := LockOf(hash, Control(false), "root");
    State([Call(Control(false), 0, "root", lock, None, outer, locked, false),
           Call(Control(false), 0, "root", lock, Some(0), NestedRunning, false, false)],
          [Session(0, Control(false), true, CheckedOut(0), held)])
  }

  /** The outer call finishes first, as it does when its callback did not await the nested one. */
  lemma OuterUnlocks(hash: string -> int) returns (states: seq<State>, steps: seq<Step>)
    ensures IsRun(hash, states, steps)
    ensures states[|steps|] == NestedState(hash, Handing(0, Returned), true, None)
  {
    states, steps := NestedStarts(hash);
    states, steps := Extend(hash, states, steps, Finish(0, true));
    states, steps := Extend(hash, states, steps, ProbeOk(0));
    states, steps := Extend(hash, states, steps, Unlock(0));
  }

  /**
   Unlike the fence, a control context does not count its users. A nested callback that the outer callback
   did not await outlives the lock, and another process can run under the same lock meanwhile.
   */
  lemma NestedCanOutliveTheLock(hash: string -> int) returns (states: seq<State>, steps: seq<Step>)
    ensures IsRun(hash, states, steps)
    ensures var s := states[|steps|];
            && |s.calls| == 3 && s.calls[1].phase.NestedRunning? && s.calls[1].store == Some(0)
            && s.calls[1].lock == s.calls[2].lock && s.calls[2].phase.Running? && HoldsAlone(s, 2)
  {
    states, steps := OuterUnlocks(hash);
    states, steps := Extend(hash, states, steps, Begin(Control(false), 1, "root", None));
    var s := states[|steps|];
    states, steps := Extend(hash, states, steps, ConnectFresh(2)) by {
      assert Clients(s.sessions, 1, Control(false)) == {};
    }
    states, steps := Extend(hash, states, steps, Try(2));
  }

  ghost function TaskState(hash: string -> int, phase: Phase, session: Session): State {
    State([Call(Task, 0, "image", LockOf(hash, Task, "image"), None, phase, true, false)], [session])
  }

  lemma TaskSettles(hash: string -> int) returns (states: seq<State>, steps: seq<Step>)
    ensures IsRun(hash, states, steps) && Hand(0) !in steps
    ensures states[|steps|] == TaskState(hash, Leaving(0, Returned),
              Session(0, Task, true, CheckedOut(0), Some(LockOf(hash, Task, "image"))))
  {
    states, steps := [INITIAL], [];
    states, steps := Extend(hash, states, steps, Begin(Task, 0, "image", None));
    states, steps := Extend(hash, states, steps, ConnectFresh(0));
    states, steps := Extend(hash, states, steps, Try(0));
    states, steps := Extend(hash, states, steps, Finish(0, true));
  }

  /** A task callback returns, its session ends, and the unlock throws: the connection is never given back. */
  lemma TaskUnlockLeaks(hash: string -> int) returns (states: seq<State>, steps: seq<Step>)
    ensures IsRun(hash, states, steps) && Hand(0) !in steps
    ensures states[|steps|] == TaskState(hash, Done(Failed), Session(0, Task, false, Leaked, None))
  {
    states, steps := TaskSettles(hash);
    hide IsRun;
    states, steps := Extend(hash, states, steps, SessionEnd(0));
    states, steps := Extend(hash, states, steps, Unlock(0));
  }
}
