/**
 The storage fence of app/storageLifecycle.ts: a shared/exclusive fence over one PostgreSQL
 session advisory lock, with re-entrant async contexts and a bounded pool per process.

 The protocol is a transition system. Several processes share one database; each process has
 its own pool. A step is either one uninterrupted stretch of the JavaScript code (between two
 awaits) or one action of the database server or the network.
 */
module StorageFence {
  import opened Wrappers

  const POOL_MAX := 10

  datatype Mode = Shared | Exclusive

  /** What the server knows about one session and the fence key. */
  datatype Lock =
    | NoLock
    | Asked(mode: Mode, wait: bool)  // the statement is under way
    | Queued(mode: Mode)             // waiting in the server's lock queue
    | Held(mode: Mode)
    | Refused                        // pg_try_advisory_lock answered false

  /** Where the client side of a session is: in use by a context, idle in its pool, or thrown away. */
  datatype Place = CheckedOut(context: nat) | Idle | Destroyed

  datatype Session = Session(process: nat, alive: bool, place: Place, lock: Lock)

  /**
   The `context` object of one outermost call. `started` says that `contexts.run` was reached,
   `checks` counts `SELECT 1` probes of assertHeld still in flight, `owner` is the call that
   created the context and `closer` the call whose release found no other user.
   */
  datatype Context = Context(owner: nat, sid: nat, process: nat, mode: Mode, users: int,
                             active: bool, broken: bool, started: bool, checks: nat, closer: nat)

  datatype Outcome = Returned | UpgradeForbidden | ConnectFailed | StorageBusy | MaintenanceBusy | LockFailed

  /** The program counter of one withStorageFence call. */
  datatype Phase =
    | Connecting               // awaiting pool.connect()
    | Locking(context: nat)    // awaiting the lock statement
    | Running(context: nat)    // the callback is running inside the context
    | Unlocking(context: nat)  // last user: awaiting pg_advisory_unlock
    | Returning(context: nat)  // last user: about to hand the connection back
    | Done(outcome: Outcome)

  /**
   One call of withStorageFence. `store` is the async-local context the caller runs in; work
   forked by a callback keeps the store after the callback ended. `parent` is the call whose
   callback awaits this one, if any.
   */
  datatype Call = Call(process: nat, store: Option<nat>, parent: Option<nat>, mode: Mode, wait: bool, phase: Phase)

  datatype State = State(calls: seq<Call>, contexts: seq<Context>, sessions: seq<Session>, queue: seq<nat>)

  const INITIAL := State([], [], [], [])

  datatype Step =
    // client code
    | Begin(process: nat, store: Option<nat>, parent: Option<nat>, mode: Mode, wait: bool)
    | ConnectIdle(call: nat, sid: nat)
    | ConnectFresh(call: nat)
    | ConnectError(call: nat, timeout: bool)
    | LockReply(call: nat)
    | LockRefused(call: nat)
    | LockError(call: nat)
    | ErrorEvent(context: nat)
    | CheckSend(context: nat)
    | CheckOk(context: nat)
    | CheckFail(context: nat)
    | Leave(call: nat)
    | Unlock(call: nat)
    | Return(call: nat)
    // database server and network
    | ServerEnqueue(sid: nat)
    | ServerGrant(index: nat)
    | ServerTry(sid: nat)
    | SessionEnd(sid: nat)

  // ---------------------------------------------------------------- small observers

  predicate Conflicts(a: Mode, b: Mode) {
    a == Exclusive || b == Exclusive
  }

  predicate Unfinished(c: Call) {
    !c.phase.Done?
  }

  /** The context a call works on, once it has one. */
  function ContextOf(p: Phase): Option<nat> {
    match p
    case Connecting => None
    case Locking(c) => Some(c)
    case Running(c) => Some(c)
    case Unlocking(c) => Some(c)
    case Returning(c) => Some(c)
    case Done(_) => None
  }

  /** The pooled clients of one process: pg.Pool bounds idle and checked-out clients together. */
  function Clients(sessions: seq<Session>, process: nat): set<nat> {
    set sid | 0 <= sid < |sessions| && sessions[sid].process == process && !sessions[sid].place.Destroyed?
  }

  /** A request is granted only past compatible holders and compatible earlier waiters. */
  predicate Grantable(s: State, sid: nat, mode: Mode, ahead: nat)
    requires ahead <= |s.queue|
    requires forall i :: 0 <= i < ahead ==> s.queue[i] < |s.sessions|
  {
    && (forall other :: 0 <= other < |s.sessions| && other != sid && s.sessions[other].lock.Held?
          ==> !Conflicts(mode, s.sessions[other].lock.mode))
    && (forall i :: 0 <= i < ahead && s.sessions[s.queue[i]].lock.Queued?
          ==> !Conflicts(mode, s.sessions[s.queue[i]].lock.mode))
  }

  predicate QueueInRange(s: State) {
    forall i :: 0 <= i < |s.queue| ==> s.queue[i] < |s.sessions|
  }

  function Without(queue: seq<nat>, sid: nat): (r: seq<nat>)
    ensures forall x :: x in r <==> x in queue && x != sid
    ensures |r| <= |queue|
  {
    if queue == [] then [] else (if queue[0] == sid then [] else [queue[0]]) + Without(queue[1..], sid)
  }

  /** No callback that awaits another unfinished call can return. */
  predicate NoPendingChild(s: State, call: nat) {
    forall j :: 0 <= j < |s.calls| && s.calls[j].parent == Some(call) ==> !Unfinished(s.calls[j])
  }

  // ---------------------------------------------------------------- when a step may happen

  predicate HasContext(s: State, call: nat) {
    && call < |s.calls|
    && ContextOf(s.calls[call].phase).Some?
    && var c := ContextOf(s.calls[call].phase).value;
    && c < |s.contexts| && s.contexts[c].sid < |s.sessions|
  }

  predicate InContext(s: State, context: nat) {
    context < |s.contexts| && s.contexts[context].sid < |s.sessions|
  }

  predicate BeginEnabled(s: State, process: nat, store: Option<nat>, parent: Option<nat>) {
    && (store.Some? ==> store.value < |s.contexts| && s.contexts[store.value].started
                        && s.contexts[store.value].process == process)
    && (parent.Some? ==> parent.value < |s.calls| && s.calls[parent.value].phase.Running?
                         && store == Some(s.calls[parent.value].phase.context))
  }

  predicate Enabled(s: State, step: Step) {
    && QueueInRange(s)
    && match step
       case Begin(process, store, parent, _, _) => BeginEnabled(s, process, store, parent)
       case ConnectIdle(k, sid) =>
         && k < |s.calls| && s.calls[k].phase.Connecting?
         && sid < |s.sessions| && s.sessions[sid].place.Idle? && s.sessions[sid].process == s.calls[k].process
       case ConnectFresh(k) =>
         && k < |s.calls| && s.calls[k].phase.Connecting?
         && |Clients(s.sessions, s.calls[k].process)| < POOL_MAX
       case ConnectError(k, _) => k < |s.calls| && s.calls[k].phase.Connecting?
       case LockReply(k) =>
         && HasContext(s, k) && s.calls[k].phase.Locking?
         && s.sessions[s.contexts[s.calls[k].phase.context].sid].lock.Held?
       case LockRefused(k) =>
         && HasContext(s, k) && s.calls[k].phase.Locking?
         && s.sessions[s.contexts[s.calls[k].phase.context].sid].lock.Refused?
       case LockError(k) => HasContext(s, k) && s.calls[k].phase.Locking?
       case ErrorEvent(c) =>
         InContext(s, c) && s.sessions[s.contexts[c].sid].place == CheckedOut(c)
       case CheckSend(c) =>
         InContext(s, c) && s.contexts[c].started && s.contexts[c].active && !s.contexts[c].broken
       case CheckOk(c) =>
         InContext(s, c) && s.contexts[c].checks > 0 && s.sessions[s.contexts[c].sid].alive
       case CheckFail(c) => InContext(s, c) && s.contexts[c].checks > 0
       case Leave(k) => HasContext(s, k) && s.calls[k].phase.Running? && NoPendingChild(s, k)
       case Unlock(k) =>
         && HasContext(s, k) && s.calls[k].phase.Unlocking?
         && var x := s.contexts[s.calls[k].phase.context];
            // statements on one connection run in order, so earlier probes answer first
            s.sessions[x.sid].alive ==> x.checks == 0
       case Return(k) => HasContext(s, k) && s.calls[k].phase.Returning?
       case ServerEnqueue(sid) => sid < |s.sessions| && s.sessions[sid].lock.Asked? && s.sessions[sid].lock.wait
       case ServerGrant(i) =>
         && i < |s.queue| && s.sessions[s.queue[i]].lock.Queued?
         && Grantable(s, s.queue[i], s.sessions[s.queue[i]].lock.mode, i)
       case ServerTry(sid) => sid < |s.sessions| && s.sessions[sid].lock.Asked? && !s.sessions[sid].lock.wait
       case SessionEnd(sid) => sid < |s.sessions| && s.sessions[sid].alive
  }

  // ---------------------------------------------------------------- what a step does

  function WithCall(s: State, k: nat, p: Phase): State
    requires k < |s.calls|
  {
    s.(calls := s.calls[k := s.calls[k].(phase := p)])
  }

  function WithLock(s: State, sid: nat, lock: Lock): State
    requires sid < |s.sessions|
  {
    s.(sessions := s.sessions[sid := s.sessions[sid].(lock := lock)])
  }

  function WithPlace(s: State, sid: nat, place: Place): State
    requires sid < |s.sessions|
  {
    s.(sessions := s.sessions[sid := s.sessions[sid].(place := place)])
  }

  function AfterBegin(s: State, process: nat, store: Option<nat>, parent: Option<nat>, mode: Mode, wait: bool): State
    requires BeginEnabled(s, process, store, parent)
  {
    if store.Some? && s.contexts[store.value].active then
      var c := store.value;
      var x := s.contexts[c];
      if mode == Exclusive && x.mode != Exclusive then
        s.(calls := s.calls + [Call(process, store, parent, mode, wait, Done(UpgradeForbidden))])
      else
        s.(calls := s.calls + [Call(process, store, parent, mode, wait, Running(c))],
           contexts := s.contexts[c := x.(users := x.users + 1)])
    else
      s.(calls := s.calls + [Call(process, store, parent, mode, wait, Connecting)])
  }

  function NewContext(s: State, k: nat, sid: nat): Context
    requires k < |s.calls|
  {
    Context(k, sid, s.calls[k].process, s.calls[k].mode, 1, true, false, false, 0, 0)
  }

  function AfterConnectIdle(s: State, k: nat, sid: nat): State
    requires k < |s.calls| && sid < |s.sessions|
  {
    var c := |s.contexts|;
    var lock := if s.sessions[sid].alive then Asked(s.calls[k].mode, s.calls[k].wait) else NoLock;
    State(s.calls[k := s.calls[k].(phase := Locking(c))],
          s.contexts + [NewContext(s, k, sid)],
          s.sessions[sid := s.sessions[sid].(place := CheckedOut(c), lock := lock)],
          s.queue)
  }

  function AfterConnectFresh(s: State, k: nat): State
    requires k < |s.calls|
  {
    var c := |s.contexts|;
    var lock := Asked(s.calls[k].mode, s.calls[k].wait);
    State(s.calls[k := s.calls[k].(phase := Locking(c))],
          s.contexts + [NewContext(s, k, |s.sessions|)],
          s.sessions + [Session(s.calls[k].process, true, CheckedOut(c), lock)],
          s.queue)
  }

  function AfterLockReply(s: State, k: nat): State
    requires HasContext(s, k) && s.calls[k].phase.Locking?
  {
    var c := s.calls[k].phase.context;
    WithCall(s, k, Running(c)).(contexts := s.contexts[c := s.contexts[c].(started := true)])
  }

  function AfterLockRefused(s: State, k: nat): State
    requires HasContext(s, k) && s.calls[k].phase.Locking?
  {
    var sid := s.contexts[s.calls[k].phase.context].sid;
    WithLock(WithPlace(WithCall(s, k, Done(MaintenanceBusy)), sid, Idle), sid, NoLock)
  }

  function AfterLockError(s: State, k: nat): State
    requires HasContext(s, k) && s.calls[k].phase.Locking?
  {
    WithPlace(WithCall(s, k, Done(LockFailed)), s.contexts[s.calls[k].phase.context].sid, Destroyed)
  }

  function AfterLeave(s: State, k: nat): State
    requires HasContext(s, k) && s.calls[k].phase.Running?
  {
    var c := s.calls[k].phase.context;
    var x := s.contexts[c].(users := s.contexts[c].users - 1);
    if x.users != 0 then
      WithCall(s, k, Done(Returned)).(contexts := s.contexts[c := x])
    else
      WithCall(s, k, if x.broken then Returning(c) else Unlocking(c))
      .(contexts := s.contexts[c := x.(active := false, closer := k)])
  }

  function AfterUnlock(s: State, k: nat): State
    requires HasContext(s, k) && s.calls[k].phase.Unlocking?
  {
    var c := s.calls[k].phase.context;
    WithLock(WithCall(s, k, Returning(c)), s.contexts[c].sid, NoLock)
  }

  function AfterReturn(s: State, k: nat): State
    requires HasContext(s, k) && s.calls[k].phase.Returning?
  {
    var x := s.contexts[s.calls[k].phase.context];
    WithPlace(WithCall(s, k, Done(Returned)), x.sid, if x.broken then Destroyed else Idle)
  }

  function AfterServerEnqueue(s: State, sid: nat): State
    requires sid < |s.sessions| && s.sessions[sid].lock.Asked?
  {
    WithLock(s, sid, Queued(s.sessions[sid].lock.mode)).(queue := s.queue + [sid])
  }

  function AfterServerGrant(s: State, i: nat): State
    requires QueueInRange(s) && i < |s.queue| && s.sessions[s.queue[i]].lock.Queued?
  {
    var sid := s.queue[i];
    WithLock(s, sid, Held(s.sessions[sid].lock.mode)).(queue := Without(s.queue, sid))
  }

  function AfterServerTry(s: State, sid: nat): State
    requires QueueInRange(s) && sid < |s.sessions| && s.sessions[sid].lock.Asked?
  {
    var mode := s.sessions[sid].lock.mode;
    WithLock(s, sid, if Grantable(s, sid, mode, |s.queue|) then Held(mode) else Refused)
  }

  function AfterSessionEnd(s: State, sid: nat): State
    requires sid < |s.sessions|
  {
    s.(sessions := s.sessions[sid := s.sessions[sid].(alive := false, lock := NoLock)],
       queue := Without(s.queue, sid))
  }

  function AfterContext(s: State, c: nat, checks: nat, broken: bool): State
    requires c < |s.contexts|
  {
    s.(contexts := s.contexts[c := s.contexts[c].(checks := checks, broken := broken)])
  }

  function Apply(s: State, step: Step): State
    requires Enabled(s, step)
  {
    match step
    case Begin(process, store, parent, mode, wait) => AfterBegin(s, process, store, parent, mode, wait)
    case ConnectIdle(k, sid) => AfterConnectIdle(s, k, sid)
    case ConnectFresh(k) => AfterConnectFresh(s, k)
    case ConnectError(k, timeout) => WithCall(s, k, Done(if timeout then StorageBusy else ConnectFailed))
    case LockReply(k) => AfterLockReply(s, k)
    case LockRefused(k) => AfterLockRefused(s, k)
    case LockError(k) => AfterLockError(s, k)
    case ErrorEvent(c) => AfterContext(s, c, s.contexts[c].checks, true)
    case CheckSend(c) => AfterContext(s, c, s.contexts[c].checks + 1, s.contexts[c].broken)
    case CheckOk(c) => AfterContext(s, c, s.contexts[c].checks - 1, s.contexts[c].broken)
    case CheckFail(c) => AfterContext(s, c, s.contexts[c].checks - 1, true)
    case Leave(k) => AfterLeave(s, k)
    case Unlock(k) => AfterUnlock(s, k)
    case Return(k) => AfterReturn(s, k)
    case ServerEnqueue(sid) => AfterServerEnqueue(s, sid)
    case ServerGrant(i) => AfterServerGrant(s, i)
    case ServerTry(sid) => AfterServerTry(s, sid)
    case SessionEnd(sid) => AfterSessionEnd(s, sid)
  }

  /** States joined by enabled steps. */
  ghost predicate IsPath(states: seq<State>, steps: seq<Step>) {
    && |states| == |steps| + 1
    && forall i :: 0 <= i < |steps| ==> Enabled(states[i], steps[i]) && states[i + 1] == Apply(states[i], steps[i])
  }

  /** A run is a path from the empty system. */
  ghost predicate IsRun(states: seq<State>, steps: seq<Step>) {
    IsPath(states, steps) && states[0] == INITIAL
  }
}
