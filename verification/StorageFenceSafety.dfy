/** What every reachable state of the storage fence satisfies, and what whole runs satisfy. */
module StorageFenceSafety {
  import opened Counting
  import opened Wrappers
  import opened StorageFence

  // ---------------------------------------------------------------- counting callbacks

  /** The number of callbacks running in context `c`: entered and not yet left, forked ones included. */
  ghost function Entered(calls: seq<Call>, c: nat): nat {
    if calls == [] then 0
    else Entered(calls[..|calls| - 1], c) + if calls[|calls| - 1].phase == Running(c) then 1 else 0
  }

  lemma {:induction false} EnteredUpdate(calls: seq<Call>, k: nat, x: Call, c: nat)
    requires k < |calls|
    ensures Entered(calls[k := x], c)
         == Entered(calls, c) - (if calls[k].phase == Running(c) then 1 else 0) + (if x.phase == Running(c) then 1 else 0)
  {
    var last := |calls| - 1;
    if k == last {
      assert calls[k := x][..last] == calls[..last];
    } else {
      assert calls[k := x][..last] == calls[..last][k := x];
      EnteredUpdate(calls[..last], k, x, c);
    }
  }

  lemma EnteredAppend(calls: seq<Call>, x: Call, c: nat)
    ensures Entered(calls + [x], c) == Entered(calls, c) + if x.phase == Running(c) then 1 else 0
  {
    assert (calls + [x])[..|calls|] == calls;
  }

  lemma {:induction false} EnteredWitness(calls: seq<Call>, c: nat) returns (k: nat)
    requires Entered(calls, c) > 0
    ensures k < |calls| && calls[k].phase == Running(c)
  {
    if calls[|calls| - 1].phase == Running(c) {
      k := |calls| - 1;
    } else {
      k := EnteredWitness(calls[..|calls| - 1], c);
    }
  }

  lemma {:induction false} NobodyEntered(calls: seq<Call>, c: nat)
    requires forall k :: 0 <= k < |calls| ==> calls[k].phase != Running(c)
    ensures Entered(calls, c) == 0
  {
    if calls == [] {
    } else {
      NobodyEntered(calls[..|calls| - 1], c);
    }
  }

  lemma {:induction false} EnteredMember(calls: seq<Call>, c: nat, k: nat)
    requires k < |calls| && calls[k].phase == Running(c)
    ensures Entered(calls, c) > 0
  {
    if k < |calls| - 1 {
      EnteredMember(calls[..|calls| - 1], c, k);
    }
  }

  lemma {:induction false} EnteredTwo(calls: seq<Call>, c: nat, j: nat, k: nat)
    requires j < k < |calls| && calls[j].phase == Running(c) && calls[k].phase == Running(c)
    ensures Entered(calls, c) > 1
  {
    if k < |calls| - 1 {
      EnteredTwo(calls[..|calls| - 1], c, j, k);
    } else {
      EnteredMember(calls[..|calls| - 1], c, j);
    }
  }

  // ---------------------------------------------------------------- the invariant

  /** The call that is responsible for context `c` while its connection is checked out. */
  ghost predicate InUse(s: State, c: nat)
    requires c < |s.contexts|
  {
    var x := s.contexts[c];
    if !x.started then x.owner < |s.calls| && s.calls[x.owner].phase == Locking(c)
    else if x.active then true
    else x.closer < |s.calls| && (s.calls[x.closer].phase == Unlocking(c) || s.calls[x.closer].phase == Returning(c))
  }

  /** The context keeps the lock: it was granted, and no unlock statement was executed. */
  ghost predicate KeepsLock(s: State, c: nat)
    requires c < |s.contexts|
  {
    var x := s.contexts[c];
    x.started && (x.active || (x.closer < |s.calls| && s.calls[x.closer].phase == Unlocking(c)))
  }

  ghost predicate CallOk(s: State, k: nat)
    requires k < |s.calls|
  {
    var call := s.calls[k];
    && (ContextOf(call.phase).Some? ==>
          var c := ContextOf(call.phase).value;
          && c < |s.contexts| && s.contexts[c].process == call.process
          && (call.mode == Exclusive ==> s.contexts[c].mode == Exclusive)
          && (call.phase.Locking? ==> s.contexts[c].owner == k && !s.contexts[c].started)
          && (call.phase.Running? ==> s.contexts[c].started && s.contexts[c].active
                                      && (s.contexts[c].owner == k || call.store == Some(c)))
          && (call.phase.Unlocking? || call.phase.Returning? ==>
                s.contexts[c].started && !s.contexts[c].active && s.contexts[c].closer == k))
    && (call.parent.Some? ==>
          && call.parent.value < k
          && (Unfinished(call) ==> call.phase.Running? && s.calls[call.parent.value].phase == call.phase))
  }

  ghost predicate ContextOk(s: State, c: nat)
    requires c < |s.contexts|
  {
    var x := s.contexts[c];
    && x.owner < |s.calls| && x.sid < |s.sessions|
    && s.sessions[x.sid].process == x.process
    && s.calls[x.owner].process == x.process && s.calls[x.owner].mode == x.mode
    && (s.sessions[x.sid].place == CheckedOut(c) <==> InUse(s, c))
    && (x.started ==> x.users == Entered(s.calls, c) && (x.active <==> x.users > 0))
    && (!x.started ==> x.users == 1 && x.active && x.checks == 0 && Entered(s.calls, c) == 0)
    && (s.sessions[x.sid].alive ==>
          && (KeepsLock(s, c) ==> s.sessions[x.sid].lock == Held(x.mode))
          && (x.checks > 0 ==> s.sessions[x.sid].lock == Held(x.mode)
                               && (s.sessions[x.sid].place == CheckedOut(c) || s.sessions[x.sid].place.Destroyed?))
          && (x.started && !x.active && x.closer < |s.calls| && s.calls[x.closer].phase == Returning(c)
              ==> s.sessions[x.sid].lock == NoLock || (x.broken && s.sessions[x.sid].lock == Held(x.mode)))
          && (!x.started && s.sessions[x.sid].place == CheckedOut(c) ==> !s.sessions[x.sid].lock.NoLock?))
  }

  ghost predicate SessionOk(s: State, sid: nat)
    requires sid < |s.sessions|
  {
    var session := s.sessions[sid];
    && (!session.alive ==> session.lock.NoLock?)
    && (session.place.Idle? ==> session.lock.NoLock?)
    && (session.place.CheckedOut? ==>
          && session.place.context < |s.contexts| && s.contexts[session.place.context].sid == sid
          && (!session.lock.NoLock? && !session.lock.Refused? ==> session.lock.mode == s.contexts[session.place.context].mode)
          && (session.lock.Asked? ==>
                s.contexts[session.place.context].owner < |s.calls|
                && session.lock.wait == s.calls[s.contexts[session.place.context].owner].wait))
    && (session.lock.Queued? <==> sid in s.queue)
  }

  /** Advisory locks exclude: two sessions hold the key together only in shared mode. */
  ghost predicate TableOk(s: State) {
    forall a, b :: 0 <= a < |s.sessions| && 0 <= b < |s.sessions| && a != b
                   && s.sessions[a].lock.Held? && s.sessions[b].lock.Held?
      ==> !Conflicts(s.sessions[a].lock.mode, s.sessions[b].lock.mode)
  }

  ghost predicate PoolOk(s: State) {
    forall p: nat :: |Clients(s.sessions, p)| <= 10
  }

  ghost predicate CallsOk(s: State) {
    forall k :: 0 <= k < |s.calls| ==> CallOk(s, k)
  }

  ghost predicate ContextsOk(s: State) {
    forall c :: 0 <= c < |s.contexts| ==> ContextOk(s, c)
  }

  ghost predicate SessionsOk(s: State) {
    forall sid :: 0 <= sid < |s.sessions| ==> SessionOk(s, sid)
  }

  ghost predicate Inv(s: State) {
    QueueInRange(s) && CallsOk(s) && ContextsOk(s) && SessionsOk(s) && TableOk(s)
  }

  // ---------------------------------------------------------------- every step keeps it

  lemma BeginKeepsContext(s: State, process: nat, store: Option<nat>, parent: Option<nat>, mode: Mode, wait: bool, c: nat)
    requires Inv(s) && BeginEnabled(s, process, store, parent) && c < |s.contexts|
    ensures ContextOk(AfterBegin(s, process, store, parent, mode, wait), c)
  {
    var t := AfterBegin(s, process, store, parent, mode, wait);
    hide Grantable, Conflicts;
    EnteredAppend(s.calls, t.calls[|s.calls|], c);
    assert ContextOk(s, c);
    hide Grantable, NoPendingChild, Without, Clients, TableOk, CallsOk, ContextsOk, SessionsOk, QueueInRange;
  }

  lemma BeginKeepsCalls(s: State, process: nat, store: Option<nat>, parent: Option<nat>, mode: Mode, wait: bool)
    requires Inv(s) && BeginEnabled(s, process, store, parent)
    ensures CallsOk(AfterBegin(s, process, store, parent, mode, wait))
  {
    var t := AfterBegin(s, process, store, parent, mode, wait);
    if parent.Some? {
      assert CallOk(s, parent.value);
    }
    forall k | 0 <= k < |t.calls| ensures CallOk(t, k) {
      if k < |s.calls| { assert CallOk(s, k); }
    }
  }

  lemma BeginKeepsInv(s: State, process: nat, store: Option<nat>, parent: Option<nat>, mode: Mode, wait: bool)
    requires Inv(s) && BeginEnabled(s, process, store, parent)
    ensures Inv(AfterBegin(s, process, store, parent, mode, wait))
  {
    var t := AfterBegin(s, process, store, parent, mode, wait);
    forall c | 0 <= c < |t.contexts| ensures ContextOk(t, c) {
      BeginKeepsContext(s, process, store, parent, mode, wait, c);
    }
    BeginKeepsCalls(s, process, store, parent, mode, wait);
    forall sid | 0 <= sid < |t.sessions| ensures SessionOk(t, sid) {
      assert SessionOk(s, sid);
      if s.sessions[sid].place.CheckedOut? { assert ContextOk(s, s.sessions[sid].place.context); }
    }
  }

  lemma ConnectKeepsInv(s: State, step: Step)
    requires Inv(s) && Enabled(s, step) && (step.ConnectIdle? || step.ConnectFresh?)
    ensures Inv(Apply(s, step))
  {
    var t := Apply(s, step);
    var k := step.call;
    assert CallOk(s, k);
    forall c | 0 <= c < |t.contexts| ensures ContextOk(t, c) {
      EnteredUpdate(s.calls, k, t.calls[k], c);
      if c < |s.contexts| {
        assert ContextOk(s, c);
        assert SessionOk(s, s.contexts[c].sid);
      } else {
        forall j | 0 <= j < |s.calls| ensures s.calls[j].phase != Running(c) {
          assert CallOk(s, j);
        }
        NobodyEntered(s.calls, c);
      }
    }
    ConnectKeepsRest(s, step);
  }

  lemma ConnectKeepsRest(s: State, step: Step)
    requires Inv(s) && Enabled(s, step) && (step.ConnectIdle? || step.ConnectFresh?)
    ensures var t := Apply(s, step); QueueInRange(t) && CallsOk(t) && SessionsOk(t) && TableOk(t)
  {
    var t := Apply(s, step);
    var k := step.call;
    assert CallOk(s, k);
    forall j | 0 <= j < |t.calls| ensures CallOk(t, j) {
      assert CallOk(s, j);
      if s.calls[j].parent == Some(k) { assert !Unfinished(s.calls[j]); }
    }
    forall sid | 0 <= sid < |t.sessions| ensures SessionOk(t, sid) {
      if sid < |s.sessions| { assert SessionOk(s, sid); }
      if sid < |s.sessions| && s.sessions[sid].place.CheckedOut? { assert ContextOk(s, s.sessions[sid].place.context); }
    }
    if step.ConnectIdle? { assert SessionOk(s, step.sid); }
  }

  /** Steps of one call that has its own connection: contexts other than its own are untouched. */
  lemma LockReplyKeepsContext(s: State, k: nat, c: nat)
    requires Inv(s) && Enabled(s, LockReply(k)) && c < |s.contexts|
    ensures ContextOk(Apply(s, LockReply(k)), c)
  {
    assert CallOk(s, k);
    var mine := s.calls[k].phase.context;
    assert ContextOk(s, mine) && ContextOk(s, c);
    assert SessionOk(s, s.contexts[mine].sid);
    EnteredUpdate(s.calls, k, Apply(s, LockReply(k)).calls[k], c);
    hide Grantable, NoPendingChild, Without, Clients, TableOk, CallsOk, ContextsOk, SessionsOk, QueueInRange;
  }

  lemma LockFailureKeepsContext(s: State, step: Step, c: nat)
    requires Inv(s) && Enabled(s, step) && c < |s.contexts|
    requires step.LockRefused? || step.LockError?
    ensures ContextOk(Apply(s, step), c)
  {
    var k := step.call;
    assert CallOk(s, k);
    var mine := s.calls[k].phase.context;
    assert ContextOk(s, mine) && ContextOk(s, c);
    assert SessionOk(s, s.contexts[mine].sid) && SessionOk(s, s.contexts[c].sid);
    EnteredUpdate(s.calls, k, Apply(s, step).calls[k], c);
    hide Grantable, NoPendingChild, Without, Clients, TableOk, CallsOk, ContextsOk, SessionsOk, QueueInRange;
  }

  lemma LeaveKeepsOwnContext(s: State, k: nat)
    requires Inv(s) && Enabled(s, Leave(k))
    ensures ContextOk(Apply(s, Leave(k)), s.calls[k].phase.context)
  {
    var t := Apply(s, Leave(k));
    assert CallOk(s, k);
    var mine := s.calls[k].phase.context;
    assert ContextOk(s, mine);
    EnteredUpdate(s.calls, k, t.calls[k], mine);
    hide Grantable, NoPendingChild, Without, Clients, TableOk, CallsOk, ContextsOk, SessionsOk, QueueInRange;
  }

  lemma LeaveKeepsContext(s: State, k: nat, c: nat)
    requires Inv(s) && Enabled(s, Leave(k)) && c < |s.contexts|
    ensures ContextOk(Apply(s, Leave(k)), c)
  {
    if c == s.calls[k].phase.context {
      LeaveKeepsOwnContext(s, k);
    } else {
      assert ContextOk(s, c);
      EnteredUpdate(s.calls, k, Apply(s, Leave(k)).calls[k], c);
    }
    hide Grantable, NoPendingChild, Without, Clients, TableOk, CallsOk, ContextsOk, SessionsOk, QueueInRange;
  }

  lemma UnlockKeepsContext(s: State, k: nat, c: nat)
    requires Inv(s) && Enabled(s, Unlock(k)) && c < |s.contexts|
    ensures ContextOk(Apply(s, Unlock(k)), c)
  {
    var t := Apply(s, Unlock(k));
    assert CallOk(s, k);
    var mine := s.calls[k].phase.context;
    assert ContextOk(s, mine) && ContextOk(s, c);
    EnteredUpdate(s.calls, k, t.calls[k], c);
    hide Grantable, NoPendingChild, Without, Clients, TableOk, CallsOk, ContextsOk, SessionsOk, QueueInRange;
  }

  lemma ReturnKeepsContext(s: State, k: nat, c: nat)
    requires Inv(s) && Enabled(s, Return(k)) && c < |s.contexts|
    ensures ContextOk(Apply(s, Return(k)), c)
  {
    var t := Apply(s, Return(k));
    assert CallOk(s, k);
    var mine := s.calls[k].phase.context;
    assert ContextOk(s, mine) && ContextOk(s, c);
    EnteredUpdate(s.calls, k, t.calls[k], c);
    hide Grantable, NoPendingChild, Without, Clients, TableOk, CallsOk, ContextsOk, SessionsOk, QueueInRange;
  }

  lemma CallStepKeepsContexts(s: State, step: Step)
    requires Inv(s) && Enabled(s, step)
    requires HasContextStep(step)
    ensures ContextsOk(Apply(s, step))
  {
    hide Grantable, Without, Clients, TableOk;
    forall c | 0 <= c < |s.contexts| ensures ContextOk(Apply(s, step), c) {
      match step {
        case Leave(k) => LeaveKeepsContext(s, k, c);
        case Unlock(k) => UnlockKeepsContext(s, k, c);
        case Return(k) => ReturnKeepsContext(s, k, c);
        case LockReply(k) => LockReplyKeepsContext(s, k, c);
        case _ => LockFailureKeepsContext(s, step, c);
      }
    }
  }

  lemma LeaveKeepsCalls(s: State, k: nat)
    requires Inv(s) && Enabled(s, Leave(k))
    ensures CallsOk(Apply(s, Leave(k)))
  {
    hide Grantable, Without, Clients, TableOk;
    var t := Apply(s, Leave(k));
    assert CallOk(s, k);
    var mine := s.calls[k].phase.context;
    assert ContextOk(s, mine);
    forall j | 0 <= j < |t.calls| ensures CallOk(t, j) {
      assert CallOk(s, j);
      if s.calls[j].phase == Running(mine) && j != k {
        if j < k { EnteredTwo(s.calls, mine, j, k); } else { EnteredTwo(s.calls, mine, k, j); }
      }
      if j == k && s.calls[k].parent.Some? {
        EnteredTwo(s.calls, mine, s.calls[k].parent.value, k);
      }
    }
  }

  lemma CallStepKeepsCalls(s: State, step: Step)
    requires Inv(s) && Enabled(s, step)
    requires step.LockReply? || step.LockRefused? || step.LockError? || step.Unlock? || step.Return?
    ensures CallsOk(Apply(s, step))
  {
    hide Grantable, Without, Clients, TableOk;
    var t := Apply(s, step);
    var k := step.call;
    assert CallOk(s, k);
    assert ContextOk(s, ContextOf(s.calls[k].phase).value);
    forall j | 0 <= j < |t.calls| ensures CallOk(t, j) {
      assert CallOk(s, j);
    }
  }

  lemma CallStepKeepsSessions(s: State, step: Step)
    requires Inv(s) && Enabled(s, step)
    requires HasContextStep(step)
    ensures SessionsOk(Apply(s, step))
  {
    hide Grantable, Without, Clients, TableOk;
    var t := Apply(s, step);
    var k := step.call;
    assert CallOk(s, k);
    assert ContextOk(s, ContextOf(s.calls[k].phase).value);
    forall sid | 0 <= sid < |t.sessions| ensures SessionOk(t, sid) {
      assert SessionOk(s, sid);
      if s.sessions[sid].place.CheckedOut? { assert ContextOk(s, s.sessions[sid].place.context); }
    }
  }

  lemma CallStepKeepsInv(s: State, step: Step)
    requires Inv(s) && Enabled(s, step)
    requires HasContextStep(step)
    ensures Inv(Apply(s, step))
  {
    CallStepKeepsContexts(s, step);
    if step.Leave? { LeaveKeepsCalls(s, step.call); } else { CallStepKeepsCalls(s, step); }
    CallStepKeepsSessions(s, step);
  }

  /** Steps that touch no call: error events, probes, and everything the server does. */
  predicate TouchesNoCall(step: Step) {
    || step.ErrorEvent? || step.CheckSend? || step.CheckOk? || step.CheckFail?
    || step.ServerEnqueue? || step.ServerGrant? || step.ServerTry? || step.SessionEnd?
  }

  lemma ServerStepKeepsContext(s: State, step: Step, c: nat)
    requires Inv(s) && Enabled(s, step) && TouchesNoCall(step) && c < |s.contexts|
    ensures ContextOk(Apply(s, step), c)
  {
    var t := Apply(s, step);
    assert ContextOk(s, c);
    assert SessionOk(s, s.contexts[c].sid);
    hide Grantable, NoPendingChild, Without, Clients, TableOk, CallsOk, ContextsOk, SessionsOk, QueueInRange;
  }

  lemma ServerStepKeepsInv(s: State, step: Step)
    requires Inv(s) && Enabled(s, step) && TouchesNoCall(step)
    ensures Inv(Apply(s, step))
  {
    var t := Apply(s, step);
    forall k | 0 <= k < |t.calls| ensures CallOk(t, k) {
      assert CallOk(s, k);
    }
    forall c | 0 <= c < |t.contexts| ensures ContextOk(t, c) {
      ServerStepKeepsContext(s, step, c);
    }
    ServerStepKeepsSessions(s, step);
  }

  lemma ServerStepKeepsSessions(s: State, step: Step)
    requires Inv(s) && Enabled(s, step) && TouchesNoCall(step)
    ensures var t := Apply(s, step); QueueInRange(t) && SessionsOk(t) && TableOk(t)
  {
    var t := Apply(s, step);
    forall i | 0 <= i < |t.queue| ensures t.queue[i] < |t.sessions| {
      assert t.queue[i] in t.queue;
    }
    forall sid | 0 <= sid < |t.sessions| ensures SessionOk(t, sid) {
      assert SessionOk(s, sid);
    }
  }

  lemma ConnectErrorKeepsInv(s: State, k: nat, timeout: bool)
    requires Inv(s) && Enabled(s, ConnectError(k, timeout))
    ensures Inv(Apply(s, ConnectError(k, timeout)))
  {
    var t := Apply(s, ConnectError(k, timeout));
    assert CallOk(s, k);
    forall j | 0 <= j < |t.calls| ensures CallOk(t, j) {
      assert CallOk(s, j);
    }
    forall c | 0 <= c < |t.contexts| ensures ContextOk(t, c) {
      EnteredUpdate(s.calls, k, t.calls[k], c);
      assert ContextOk(s, c);
    }
    forall sid | 0 <= sid < |t.sessions| ensures SessionOk(t, sid) {
      assert SessionOk(s, sid);
    }
  }

  lemma StepKeepsInv(s: State, step: Step)
    requires Inv(s) && Enabled(s, step)
    ensures Inv(Apply(s, step))
  {
    match step {
      case Begin(process, store, parent, mode, wait) => BeginKeepsInv(s, process, store, parent, mode, wait);
      case ConnectIdle(_, _) => ConnectKeepsInv(s, step);
      case ConnectFresh(_) => ConnectKeepsInv(s, step);
      case ConnectError(k, timeout) => ConnectErrorKeepsInv(s, k, timeout);
      case LockReply(_) => CallStepKeepsInv(s, step);
      case LockRefused(_) => CallStepKeepsInv(s, step);
      case LockError(_) => CallStepKeepsInv(s, step);
      case Leave(_) => CallStepKeepsInv(s, step);
      case Unlock(_) => CallStepKeepsInv(s, step);
      case Return(_) => CallStepKeepsInv(s, step);
      case _ => ServerStepKeepsInv(s, step);
    }
  }

  // ---------------------------------------------------------------- the pool

  /** What never changes back: contexts stay, a dead session stays dead, a closed context stays closed. */
  ghost predicate Later(s: State, t: State) {
    && |s.calls| <= |t.calls| && |s.contexts| <= |t.contexts| && |s.sessions| <= |t.sessions|
    && (forall c :: 0 <= c < |s.contexts| ==> ContextLater(s.contexts[c], t.contexts[c]))
    && (forall sid :: 0 <= sid < |s.sessions| ==> SessionLater(s.sessions[sid], t.sessions[sid]))
  }

  ghost predicate ContextLater(x: Context, y: Context) {
    && y.sid == x.sid && y.mode == x.mode && y.owner == x.owner && y.process == x.process
    && (y.active ==> x.active) && (x.started ==> y.started)
  }

  ghost predicate SessionLater(x: Session, y: Session) {
    && x.process == y.process && (y.alive ==> x.alive) && (x.place.Destroyed? ==> y.place.Destroyed?)
  }

  lemma ContextsOnlyAge(s: State, step: Step, c: nat)
    requires Inv(s) && Enabled(s, step) && c < |s.contexts|
    ensures c < |Apply(s, step).contexts| && ContextLater(s.contexts[c], Apply(s, step).contexts[c])
  {
    hide Grantable, NoPendingChild, Without, Clients, TableOk, SessionsOk;
    if HasContextStep(step) {
      assert CallOk(s, step.call);
    }
  }

  lemma SessionsOnlyAge(s: State, step: Step, sid: nat)
    requires Inv(s) && Enabled(s, step) && sid < |s.sessions|
    ensures sid < |Apply(s, step).sessions| && SessionLater(s.sessions[sid], Apply(s, step).sessions[sid])
  {
    hide Grantable, NoPendingChild, Without, Clients, TableOk, SessionsOk;
    if HasContextStep(step) {
      assert CallOk(s, step.call);
      assert ContextOk(s, ContextOf(s.calls[step.call].phase).value);
    }
  }

  lemma NothingDisappears(s: State, step: Step)
    requires Enabled(s, step)
    ensures var t := Apply(s, step);
            && |s.calls| <= |t.calls| && |s.contexts| <= |t.contexts| && |s.sessions| <= |t.sessions|
            && (!step.ConnectFresh? ==> |t.sessions| == |s.sessions|)
  {
    hide Grantable, NoPendingChild, Without, Clients;
  }

  lemma StepIsMonotone(s: State, step: Step)
    requires Inv(s) && Enabled(s, step)
    ensures Later(s, Apply(s, step))
    ensures !step.ConnectFresh? ==> |Apply(s, step).sessions| == |s.sessions|
  {
    NothingDisappears(s, step);
    hide Inv, Enabled, Apply, ContextLater, SessionLater;
    var t := Apply(s, step);
    forall c | 0 <= c < |s.contexts| ensures ContextLater(s.contexts[c], t.contexts[c]) { ContextsOnlyAge(s, step, c); }
    forall sid | 0 <= sid < |s.sessions| ensures SessionLater(s.sessions[sid], t.sessions[sid]) { SessionsOnlyAge(s, step, sid); }
  }

  predicate HasContextStep(step: Step) {
    step.LockReply? || step.LockRefused? || step.LockError? || step.Leave? || step.Unlock? || step.Return?
  }

  /** pg.Pool never has more than POOL_MAX clients of one process, idle and checked out together. */
  lemma StepKeepsPool(s: State, step: Step)
    requires Inv(s) && PoolOk(s) && Enabled(s, step)
    ensures PoolOk(Apply(s, step))
  {
    var t := Apply(s, step);
    StepIsMonotone(s, step);
    forall p: nat ensures |Clients(t.sessions, p)| <= 10 {
      if step.ConnectFresh? && s.calls[step.call].process == p {
        assert Clients(t.sessions, p) == Clients(s.sessions, p) + {|s.sessions|};
      } else {
        SubsetSize(Clients(t.sessions, p), Clients(s.sessions, p));
      }
    }
  }

  // ---------------------------------------------------------------- whole runs

  lemma {:induction false} RunKeepsInv(states: seq<State>, steps: seq<Step>, i: nat)
    requires IsRun(states, steps) && i < |states|
    ensures Inv(states[i]) && PoolOk(states[i])
  {
    if i == 0 {
      forall p: nat ensures |Clients([], p)| <= 10 { assert Clients([], p) == {}; }
    } else {
      RunKeepsInv(states, steps, i - 1);
      StepKeepsInv(states[i - 1], steps[i - 1]);
      StepKeepsPool(states[i - 1], steps[i - 1]);
    }
  }

  /** A fence context that was granted, has not executed its unlock, and whose session lives. */
  ghost predicate AliveFence(s: State, c: nat) {
    c < |s.contexts| && s.contexts[c].sid < |s.sessions| && KeepsLock(s, c) && s.sessions[s.contexts[c].sid].alive
  }

  /** Mutual exclusion, in every reachable state: an alive exclusive fence is the only alive fence. */
  lemma ExclusiveFenceIsAlone(states: seq<State>, steps: seq<Step>, i: nat, c: nat, d: nat)
    requires IsRun(states, steps) && i < |states|
    requires AliveFence(states[i], c) && AliveFence(states[i], d) && c != d
    ensures states[i].contexts[c].mode == Shared && states[i].contexts[d].mode == Shared
  {
    RunKeepsInv(states, steps, i);
    assert ContextOk(states[i], c) && ContextOk(states[i], d);
  }

  /**
   One callback that asked for the exclusive fence, or one that shares an exclusive context, is running on a
   living session: every other running callback shares its context or has lost its session.
   */
  lemma ExclusiveCallbackIsAlone(states: seq<State>, steps: seq<Step>, i: nat, j: nat, k: nat)
    requires IsRun(states, steps) && i < |states|
    requires j < |states[i].calls| && states[i].calls[j].phase.Running?
    requires k < |states[i].calls| && states[i].calls[k].phase.Running?
    requires AliveFence(states[i], states[i].calls[j].phase.context)
    requires states[i].calls[j].mode == Exclusive || states[i].contexts[states[i].calls[j].phase.context].mode == Exclusive
    ensures states[i].calls[k].phase == states[i].calls[j].phase
            || !AliveFence(states[i], states[i].calls[k].phase.context)
  {
    RunKeepsInv(states, steps, i);
    assert CallOk(states[i], j);
    if states[i].calls[k].phase != states[i].calls[j].phase && AliveFence(states[i], states[i].calls[k].phase.context) {
      ExclusiveFenceIsAlone(states, steps, i, states[i].calls[j].phase.context, states[i].calls[k].phase.context);
    }
  }

  lemma {:induction false} RunIsMonotone(states: seq<State>, steps: seq<Step>, i: nat, j: nat)
    requires IsRun(states, steps) && i <= j < |states|
    ensures Later(states[i], states[j])
  {
    hide Enabled, Apply, Inv;
    if i == j {
    } else {
      RunIsMonotone(states, steps, i, j - 1);
      RunKeepsInv(states, steps, j - 1);
      StepIsMonotone(states[j - 1], steps[j - 1]);
    }
  }

  /** A granted context whose session lives and which is open or still has a probe in flight holds its lock. */
  ghost predicate HoldsLock(s: State, c: nat) {
    && c < |s.contexts| && s.contexts[c].sid < |s.sessions|
    && s.sessions[s.contexts[c].sid].alive
    && s.sessions[s.contexts[c].sid].lock == Held(s.contexts[c].mode)
  }

  /**
   assertHeld is sound: when a probe of context `c` answers at step i, the session held the lock
   in every state from the grant up to that answer, and no other session held it in a
   conflicting mode in any of them.
   */
  lemma AssertHeldMeansHeldThroughout(states: seq<State>, steps: seq<Step>, i: nat, c: nat, j: nat)
    requires IsRun(states, steps) && i < |steps| && steps[i] == CheckOk(c)
    requires j <= i && c < |states[j].contexts| && states[j].contexts[c].started
    ensures HoldsLock(states[j], c)
    ensures forall other :: 0 <= other < |states[j].sessions| && other != states[j].contexts[c].sid
                            && states[j].sessions[other].lock.Held?
              ==> !Conflicts(states[j].contexts[c].mode, states[j].sessions[other].lock.mode)
  {
    RunKeepsInv(states, steps, i);
    RunKeepsInv(states, steps, j);
    assert ContextOk(states[i], c) && ContextOk(states[j], c);
    RunIsMonotone(states, steps, j, i);
    if !HoldsLock(states[j], c) {
      LostLockStaysLost(states, steps, j, i, c);
    }
  }

  /** Once a granted context no longer holds its lock it never holds it again and no probe answers. */
  ghost predicate LockLost(s: State, c: nat) {
    && c < |s.contexts| && s.contexts[c].sid < |s.sessions| && s.contexts[c].started
    && (!s.sessions[s.contexts[c].sid].alive || (!s.contexts[c].active && s.contexts[c].checks == 0))
  }

  lemma LostLockStep(s: State, step: Step, c: nat)
    requires Enabled(s, step) && LockLost(s, c)
    ensures LockLost(Apply(s, step), c)
  {
    hide Grantable, NoPendingChild, Without, Clients;
  }

  lemma {:induction false} LostLockStaysLost(states: seq<State>, steps: seq<Step>, j: nat, i: nat, c: nat)
    requires IsRun(states, steps) && j <= i < |states|
    requires c < |states[j].contexts| && states[j].contexts[c].started && !HoldsLock(states[j], c)
    ensures LockLost(states[i], c)
  {
    hide Enabled, Apply;
    if j == i {
      RunKeepsInv(states, steps, j);
      assert ContextOk(states[j], c);
    } else {
      LostLockStaysLost(states, steps, j, i - 1, c);
      LostLockStep(states[i - 1], steps[i - 1], c);
    }
  }

  // ---------------------------------------------------------------- the user count and re-entrancy

  /** `users` is exactly the number of callbacks entered and not yet left, in every reachable state. */
  lemma UsersCountCallbacks(states: seq<State>, steps: seq<Step>, i: nat, c: nat)
    requires IsRun(states, steps) && i < |states|
    requires c < |states[i].contexts| && states[i].contexts[c].started
    ensures states[i].contexts[c].users == Entered(states[i].calls, c)
    ensures states[i].contexts[c].active <==> exists k :: 0 <= k < |states[i].calls| && states[i].calls[k].phase == Running(c)
  {
    RunKeepsInv(states, steps, i);
    assert ContextOk(states[i], c);
    if states[i].contexts[c].active {
      var k := EnteredWitness(states[i].calls, c);
    } else {
      forall k | 0 <= k < |states[i].calls| ensures states[i].calls[k].phase != Running(c) {
        assert CallOk(states[i], k);
      }
    }
  }

  /** A call made from a context that is already closed never joins it: if it enters at all, it enters a context of its own. */
  lemma LateCallAcquiresAfresh(states: seq<State>, steps: seq<Step>, i: nat, j: nat, c: nat)
    requires IsRun(states, steps) && i < |steps| && i < j < |states|
    requires steps[i].Begin? && steps[i].store == Some(c) && !states[i].contexts[c].active
    ensures var k := |states[i].calls|;
            && k < |states[j].calls|
            && (states[j].calls[k].phase.Running? ==>
                  states[j].calls[k].phase.context != c && states[j].calls[k].phase.context < |states[j].contexts|
                  && states[j].contexts[states[j].calls[k].phase.context].owner == k)
  {
    var k := |states[i].calls|;
    RunKeepsInv(states, steps, i);
    RunKeepsInv(states, steps, j);
    RunIsMonotone(states, steps, i, j);
    RunIsMonotone(states, steps, i + 1, j);
    StoreIsFixed(states, steps, i + 1, j, k);
    assert CallOk(states[j], k);
  }

  lemma StepKeepsStore(s: State, step: Step, k: nat)
    requires Enabled(s, step) && k < |s.calls|
    ensures k < |Apply(s, step).calls| && Apply(s, step).calls[k].store == s.calls[k].store
  {
    hide Grantable, NoPendingChild, Without, Clients;
  }

  lemma {:induction false} StoreIsFixed(states: seq<State>, steps: seq<Step>, i: nat, j: nat, k: nat)
    requires IsRun(states, steps) && i <= j < |states| && k < |states[i].calls|
    ensures k < |states[j].calls| && states[j].calls[k].store == states[i].calls[k].store
  {
    hide Enabled, Apply;
    if i == j {
    } else {
      StoreIsFixed(states, steps, i, j - 1, k);
      StepKeepsStore(states[j - 1], steps[j - 1], k);
    }
  }

  // ---------------------------------------------------------------- each connection is returned once

  /** The context whose connection this step gives back to the pool. */
  ghost function ReleaseOf(s: State, step: Step): Option<nat>
    requires Enabled(s, step)
  {
    if step.LockRefused? || step.LockError? || step.Return? then ContextOf(s.calls[step.call].phase) else None
  }

  /** The context this step closes: its last user leaves. */
  ghost function CloseOf(s: State, step: Step): Option<nat>
    requires Enabled(s, step)
  {
    if step.Leave? && s.contexts[s.calls[step.call].phase.context].users == 1
    then ContextOf(s.calls[step.call].phase) else None
  }

  /** The context whose lock this step unlocks. */
  ghost function UnlockOf(s: State, step: Step): Option<nat>
    requires Enabled(s, step)
  {
    if step.Unlock? then ContextOf(s.calls[step.call].phase) else None
  }

  ghost function Releases(states: seq<State>, steps: seq<Step>, n: nat, c: nat): nat
    requires IsPath(states, steps) && n <= |steps|
  {
    if n == 0 then 0 else Releases(states, steps, n - 1, c) + One(ReleaseOf(states[n - 1], steps[n - 1]) == Some(c))
  }

  ghost function Closings(states: seq<State>, steps: seq<Step>, n: nat, c: nat): nat
    requires IsPath(states, steps) && n <= |steps|
  {
    if n == 0 then 0 else Closings(states, steps, n - 1, c) + One(CloseOf(states[n - 1], steps[n - 1]) == Some(c))
  }

  ghost function Unlocks(states: seq<State>, steps: seq<Step>, n: nat, c: nat): nat
    requires IsPath(states, steps) && n <= |steps|
  {
    if n == 0 then 0 else Unlocks(states, steps, n - 1, c) + One(UnlockOf(states[n - 1], steps[n - 1]) == Some(c))
  }

  ghost predicate Outstanding(s: State, c: nat) {
    c < |s.contexts| && s.contexts[c].sid < |s.sessions| && s.sessions[s.contexts[c].sid].place == CheckedOut(c)
  }

  ghost predicate Closed(s: State, c: nat) {
    c < |s.contexts| && s.contexts[c].started && !s.contexts[c].active
  }

  ghost predicate AwaitsUnlock(s: State, c: nat) {
    Closed(s, c) && s.contexts[c].closer < |s.calls| && s.calls[s.contexts[c].closer].phase == Unlocking(c)
  }

  /** The context is over: its connection has gone back. */
  ghost predicate GivenBack(s: State, c: nat) {
    c < |s.contexts| && !Outstanding(s, c)
  }

  lemma ReleasingStep(s: State, step: Step, c: nat)
    requires Inv(s) && Enabled(s, step) && (step.LockRefused? || step.LockError? || step.Return?)
    ensures One(GivenBack(Apply(s, step), c)) == One(GivenBack(s, c)) + One(ReleaseOf(s, step) == Some(c))
  {
    assert CallOk(s, step.call);
    assert ContextOk(s, ContextOf(s.calls[step.call].phase).value);
    if c < |s.contexts| { assert ContextOk(s, c); }
    hide Grantable, NoPendingChild, Without, Clients, TableOk, CallsOk, ContextsOk, SessionsOk, QueueInRange;
  }

  lemma ConnectingStep(s: State, step: Step, c: nat)
    requires Inv(s) && Enabled(s, step) && (step.ConnectIdle? || step.ConnectFresh?)
    ensures One(GivenBack(Apply(s, step), c)) == One(GivenBack(s, c))
  {
    if c < |s.contexts| { assert ContextOk(s, c); }
    hide Grantable, NoPendingChild, Without, Clients, TableOk, CallsOk, ContextsOk, SessionsOk, QueueInRange;
  }

  lemma OtherStep(s: State, step: Step, c: nat)
    requires Inv(s) && Enabled(s, step)
    requires !(step.LockRefused? || step.LockError? || step.Return? || step.ConnectIdle? || step.ConnectFresh?)
    ensures One(GivenBack(Apply(s, step), c)) == One(GivenBack(s, c))
  {
    if c < |s.contexts| { assert ContextOk(s, c); }
    hide Grantable, NoPendingChild, Without, Clients, TableOk, CallsOk, ContextsOk, SessionsOk, QueueInRange;
  }

  lemma StepReleases(s: State, step: Step, c: nat)
    requires Inv(s) && Enabled(s, step)
    ensures One(GivenBack(Apply(s, step), c)) == One(GivenBack(s, c)) + One(ReleaseOf(s, step) == Some(c))
  {
    hide Inv, Enabled, Apply, GivenBack, One;
    if step.LockRefused? || step.LockError? || step.Return? {
      ReleasingStep(s, step, c);
    } else if step.ConnectIdle? || step.ConnectFresh? {
      ConnectingStep(s, step, c);
      NothingReleased(s, step, c);
    } else {
      OtherStep(s, step, c);
      NothingReleased(s, step, c);
    }
  }

  lemma NothingReleased(s: State, step: Step, c: nat)
    requires Enabled(s, step) && !(step.LockRefused? || step.LockError? || step.Return?)
    ensures One(ReleaseOf(s, step) == Some(c)) == 0
  {
    hide Enabled;
  }

  lemma StepCloses(s: State, step: Step, c: nat)
    requires Inv(s) && Enabled(s, step)
    ensures One(Closed(Apply(s, step), c)) == One(Closed(s, c)) + One(CloseOf(s, step) == Some(c))
    ensures Closed(s, c) && s.contexts[c].broken ==> Apply(s, step).contexts[c].broken
  {
    if HasContextStep(step) {
      assert CallOk(s, step.call);
    }
    if c < |s.contexts| { assert ContextOk(s, c); }
    hide Grantable, NoPendingChild, Without, Clients, TableOk, CallsOk, ContextsOk, SessionsOk, QueueInRange;
  }

  lemma StepUnlocks(s: State, step: Step, c: nat)
    requires Inv(s) && Enabled(s, step) && (UnlockOf(s, step) == Some(c) || CloseOf(s, step) == Some(c))
    ensures UnlockOf(s, step) == Some(c) ==> AwaitsUnlock(s, c) && !AwaitsUnlock(Apply(s, step), c)
    ensures CloseOf(s, step) == Some(c) ==> AwaitsUnlock(Apply(s, step), c) || Apply(s, step).contexts[c].broken
  {
    assert CallOk(s, step.call);
    assert ContextOk(s, c);
    hide Grantable, NoPendingChild, Without, Clients, TableOk, CallsOk, ContextsOk, SessionsOk, QueueInRange;
  }

  lemma CallStepUnlocksNot(s: State, step: Step, c: nat)
    requires Inv(s) && Enabled(s, step) && UnlockOf(s, step) != Some(c) && CloseOf(s, step) != Some(c) && HasContextStep(step)
    ensures AwaitsUnlock(Apply(s, step), c) <==> AwaitsUnlock(s, c)
  {
    assert CallOk(s, step.call);
    if c < |s.contexts| { assert ContextOk(s, c); }
    hide Grantable, NoPendingChild, Without, Clients, TableOk, CallsOk, ContextsOk, SessionsOk, QueueInRange;
  }

  lemma StepUnlocksNot(s: State, step: Step, c: nat)
    requires Inv(s) && Enabled(s, step) && UnlockOf(s, step) != Some(c) && CloseOf(s, step) != Some(c)
    ensures AwaitsUnlock(Apply(s, step), c) <==> AwaitsUnlock(s, c)
  {
    if HasContextStep(step) {
      CallStepUnlocksNot(s, step, c);
    } else if c < |s.contexts| {
      assert ContextOk(s, c);
    }
    hide Grantable, NoPendingChild, Without, Clients, TableOk, CallsOk, ContextsOk, SessionsOk, QueueInRange;
  }

  /**
   Every connect creates one context; its connection goes back exactly once, and never while
   somebody still works with it. The unlock statement runs at most once per context, only after the last
   user left, and exactly once unless the connection was reported broken.
   */
  lemma {:induction false} ReleasedExactlyOnce(states: seq<State>, steps: seq<Step>, n: nat, c: nat)
    requires IsRun(states, steps) && n <= |steps|
    ensures Releases(states, steps, n, c) == One(GivenBack(states[n], c))
    ensures Closings(states, steps, n, c) == One(Closed(states[n], c))
    ensures Unlocks(states, steps, n, c) <= One(Closed(states[n], c) && !AwaitsUnlock(states[n], c))
    ensures Closed(states[n], c) && !AwaitsUnlock(states[n], c) && !states[n].contexts[c].broken
            ==> Unlocks(states, steps, n, c) == 1
  {
    hide Enabled, Apply, Inv;
    if n == 0 {
    } else {
      ReleasedExactlyOnce(states, steps, n - 1, c);
      RunKeepsInv(states, steps, n - 1);
      StepReleases(states[n - 1], steps[n - 1], c);
      StepCloses(states[n - 1], steps[n - 1], c);
      if UnlockOf(states[n - 1], steps[n - 1]) == Some(c) || CloseOf(states[n - 1], steps[n - 1]) == Some(c) {
        StepUnlocks(states[n - 1], steps[n - 1], c);
      } else {
        StepUnlocksNot(states[n - 1], steps[n - 1], c);
      }
    }
  }

  /** A connection that lies idle in its pool carries no advisory lock and no pending request. */
  lemma IdleCarriesNoLock(states: seq<State>, steps: seq<Step>, i: nat, sid: nat)
    requires IsRun(states, steps) && i < |states|
    requires sid < |states[i].sessions| && states[i].sessions[sid].place.Idle?
    ensures states[i].sessions[sid].lock.NoLock? && sid !in states[i].queue
    ensures |Clients(states[i].sessions, states[i].sessions[sid].process)| <= 10
  {
    RunKeepsInv(states, steps, i);
    assert SessionOk(states[i], sid);
  }
}
