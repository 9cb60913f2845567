/** What the history of a run says about each call of the fence: how it entered, how it ended, and what became of its connection. */
module StorageFenceHistory {
  import opened Wrappers
  import opened StorageFence
  import opened StorageFenceSafety

  // ---------------------------------------------------------------- how a call enters

  /** The call is made inside a context that is still open. */
  predicate JoinsOpen(s: State, step: Step) {
    step.Begin? && step.store.Some? && step.store.value < |s.contexts| && s.contexts[step.store.value].active
  }

  /** A writer inside a shared context asks for the exclusive fence. */
  predicate Upgrades(s: State, step: Step) {
    JoinsOpen(s, step) && step.mode == Exclusive && s.contexts[step.store.value].mode == Shared
  }

  /**
   A call made in an open context is refused exactly when it asks for the exclusive fence inside a shared
   one, and otherwise runs in that very context at once; every other call asks the pool.
   */
  lemma EntersIff(states: seq<State>, steps: seq<Step>, i: nat)
    requires IsRun(states, steps) && i < |steps| && steps[i].Begin?
    ensures var s, step, t := states[i], steps[i], states[i + 1];
            && |t.calls| == |s.calls| + 1
            && (t.calls[|s.calls|].phase == Done(UpgradeForbidden) <==> Upgrades(s, step))
            && (step.store.Some? ==>
                  (t.calls[|s.calls|].phase == Running(step.store.value) <==> JoinsOpen(s, step) && !Upgrades(s, step)))
            && (t.calls[|s.calls|].phase.Connecting? <==> !JoinsOpen(s, step))
  {
    assert Enabled(states[i], steps[i]);
    hide Grantable, NoPendingChild, Without, Clients;
  }

  lemma StepKeepsCall(s: State, step: Step, k: nat)
    requires Enabled(s, step) && k < |s.calls|
    ensures k < |Apply(s, step).calls| && Apply(s, step).calls[k] == s.calls[k].(phase := Apply(s, step).calls[k].phase)
  {
    hide Grantable, NoPendingChild, Without, Clients;
  }

  lemma NewCall(s: State, step: Step, k: nat)
    requires Enabled(s, step) && |s.calls| <= k < |Apply(s, step).calls|
    ensures var call := Apply(s, step).calls[k];
            k == |s.calls| && step == Begin(call.process, call.store, call.parent, call.mode, call.wait)
  {
    hide Grantable, NoPendingChild, Without, Clients;
  }

  /** Every call has the step that began it, with the mode, the options and the context it was made in. */
  lemma {:induction false} BeganWith(states: seq<State>, steps: seq<Step>, n: nat, k: nat) returns (i: nat)
    requires IsRun(states, steps) && n < |states| && k < |states[n].calls|
    ensures var call := states[n].calls[k];
            i < n && k == |states[i].calls| && steps[i] == Begin(call.process, call.store, call.parent, call.mode, call.wait)
  {
    hide Enabled, Apply;
    i := n - 1;
    if k < |states[i].calls| {
      StepKeepsCall(states[i], steps[i], k);
      i := BeganWith(states, steps, i, k);
    } else {
      NewCall(states[i], steps[i], k);
    }
  }

  // ---------------------------------------------------------------- how a call ends

  /** Some other callback is still running in the context of this one. */
  ghost predicate SharesContext(s: State, k: nat) {
    && k < |s.calls| && s.calls[k].phase.Running?
    && exists j :: 0 <= j < |s.calls| && j != k && s.calls[j].phase == s.calls[k].phase
  }

  /** The event that ends call `k` with this outcome. */
  ghost predicate Ends(s: State, step: Step, k: nat, outcome: Outcome) {
    match outcome
    case UpgradeForbidden => k == |s.calls| && Upgrades(s, step)
    case ConnectFailed => step == ConnectError(k, false)
    case StorageBusy => step == ConnectError(k, true)
    case MaintenanceBusy => step == LockRefused(k)
    case LockFailed => step == LockError(k)
    case Returned => step == Return(k) || (step == Leave(k) && SharesContext(s, k))
  }

  lemma LeaveEnds(s: State, k: nat)
    requires Inv(s) && Enabled(s, Leave(k))
    ensures Apply(s, Leave(k)).calls[k].phase.Done? <==> SharesContext(s, k)
    ensures Apply(s, Leave(k)).calls[k].phase.Done? ==> Apply(s, Leave(k)).calls[k].phase.outcome == Returned
  {
    var c := s.calls[k].phase.context;
    assert CallOk(s, k) && ContextOk(s, c);
    EnteredUpdate(s.calls, k, s.calls[k].(phase := Connecting), c);
    hide Inv, CallOk, ContextOk, NoPendingChild;
    if s.contexts[c].users != 1 {
      EnteredMember(s.calls, c, k);
      var j := EnteredWitness(s.calls[k := s.calls[k].(phase := Connecting)], c);
      assert j != k && s.calls[j].phase == s.calls[k].phase;
    } else if SharesContext(s, k) {
      var j :| 0 <= j < |s.calls| && j != k && s.calls[j].phase == s.calls[k].phase;
      if j < k { EnteredTwo(s.calls, c, j, k); } else { EnteredTwo(s.calls, c, k, j); }
    }
  }

  lemma StepEnds(s: State, step: Step, k: nat, outcome: Outcome)
    requires Inv(s) && Enabled(s, step) && k < |Apply(s, step).calls|
    ensures Apply(s, step).calls[k].phase == Done(outcome) <==>
            (k < |s.calls| && s.calls[k].phase == Done(outcome)) || Ends(s, step, k, outcome)
  {
    hide Inv, Grantable, NoPendingChild, Without, Clients, SharesContext;
    if step.Leave? {
      LeaveEnds(s, step.call);
      hide SharesContext;
    } else if step.Begin? {
    } else if TouchesNoCall(step) {
      QuietStep(s, step);
    } else {
      OwnStepEnds(s, step, k, outcome);
    }
  }

  lemma QuietStep(s: State, step: Step)
    requires Enabled(s, step) && TouchesNoCall(step)
    ensures Apply(s, step).calls == s.calls
  {
    hide Grantable, NoPendingChild, Without, Clients;
  }

  lemma OwnStepEnds(s: State, step: Step, k: nat, outcome: Outcome)
    requires Enabled(s, step) && !step.Leave? && !step.Begin? && !TouchesNoCall(step) && k < |s.calls|
    ensures Apply(s, step).calls[k].phase == Done(outcome) <==> s.calls[k].phase == Done(outcome) || Ends(s, step, k, outcome)
  {
    hide Grantable, NoPendingChild, Without, Clients, SharesContext;
  }

  lemma EndsKnownCall(s: State, step: Step, k: nat, outcome: Outcome)
    requires Enabled(s, step) && Ends(s, step, k, outcome)
    ensures k < |Apply(s, step).calls|
  {
    hide Grantable, NoPendingChild, Without, Clients;
  }

  /** In every state of every run a call has ended with an outcome exactly when the event of that outcome has happened to it. */
  lemma {:induction false} EndedIff(states: seq<State>, steps: seq<Step>, n: nat, k: nat, outcome: Outcome)
    requires IsRun(states, steps) && n < |states|
    ensures k < |states[n].calls| && states[n].calls[k].phase == Done(outcome) <==>
            exists i :: 0 <= i < n && Ends(states[i], steps[i], k, outcome)
  {
    hide Enabled, Apply, Inv, Ends;
    if n == 0 {
    } else {
      EndedIff(states, steps, n - 1, k, outcome);
      RunKeepsInv(states, steps, n - 1);
      var s, step := states[n - 1], steps[n - 1];
      if k < |s.calls| { StepKeepsCall(s, step, k); }
      if Ends(s, step, k, outcome) { EndsKnownCall(s, step, k, outcome); }
      if k < |states[n].calls| { StepEnds(s, step, k, outcome); }
    }
  }

  // ---------------------------------------------------------------- broken connections

  /** The connection of context `c` reports an error, or a probe on it fails. */
  predicate Breaks(step: Step, c: nat) {
    step == ErrorEvent(c) || step == CheckFail(c)
  }

  lemma StepBreaks(s: State, step: Step, c: nat)
    requires Enabled(s, step) && c < |Apply(s, step).contexts|
    ensures Apply(s, step).contexts[c].broken <==> (c < |s.contexts| && s.contexts[c].broken) || Breaks(step, c)
    ensures |s.contexts| <= |Apply(s, step).contexts|
  {
    hide Grantable, NoPendingChild, Without, Clients;
  }

  lemma BreaksKnown(s: State, step: Step, c: nat)
    requires Enabled(s, step) && Breaks(step, c)
    ensures c < |s.contexts| <= |Apply(s, step).contexts|
  {}

  lemma StepKeepsContexts(s: State, step: Step)
    requires Enabled(s, step)
    ensures |s.contexts| <= |Apply(s, step).contexts|
  {
    hide Grantable, NoPendingChild, Without, Clients;
  }

  /** A context counts as broken exactly when its connection has reported an error or failed a probe. */
  lemma {:induction false} BrokenIff(states: seq<State>, steps: seq<Step>, n: nat, c: nat)
    requires IsRun(states, steps) && n < |states|
    ensures c < |states[n].contexts| && states[n].contexts[c].broken <==> exists i :: 0 <= i < n && Breaks(steps[i], c)
  {
    hide Enabled, Apply, Breaks;
    if n == 0 {
    } else {
      BrokenIff(states, steps, n - 1, c);
      var s, step := states[n - 1], steps[n - 1];
      StepKeepsContexts(s, step);
      if Breaks(step, c) { BreaksKnown(s, step, c); }
      if c < |states[n].contexts| { StepBreaks(s, step, c); }
    }
  }

  /** The probes of context `c` sent in the first `n` steps, less those that were answered. */
  function ProbesPending(steps: seq<Step>, n: nat, c: nat): int
    requires n <= |steps|
  {
    if n == 0 then 0
    else
      ProbesPending(steps, n - 1, c)
      + if steps[n - 1] == CheckSend(c) then 1 else if steps[n - 1] == CheckOk(c) || steps[n - 1] == CheckFail(c) then -1 else 0
  }

  lemma StepProbes(s: State, step: Step, c: nat)
    requires Enabled(s, step)
    ensures c < |Apply(s, step).contexts| ==>
              Apply(s, step).contexts[c].checks == (if c < |s.contexts| then s.contexts[c].checks else 0) + ProbesPending([step], 1, c)
    ensures |s.contexts| <= c ==> ProbesPending([step], 1, c) == 0
    ensures |s.contexts| <= |Apply(s, step).contexts|
  {
    assert ProbesPending([step], 0, c) == 0;
    hide Grantable, NoPendingChild, Without, Clients;
  }

  /** A probe waits for its answer from the moment it is sent, and every probe gets one answer at most. */
  lemma {:induction false} ProbesAreAnsweredOnce(states: seq<State>, steps: seq<Step>, n: nat, c: nat)
    requires IsRun(states, steps) && n < |states|
    ensures ProbesPending(steps, n, c) == if c < |states[n].contexts| then states[n].contexts[c].checks else 0
  {
    hide Enabled, Apply;
    if n == 0 {
    } else {
      ProbesAreAnsweredOnce(states, steps, n - 1, c);
      StepProbes(states[n - 1], steps[n - 1], c);
      assert ProbesPending([steps[n - 1]], 0, c) == 0;
    }
  }

  /** After that no probe is sent any more. */
  lemma NoProbeOfBroken(states: seq<State>, steps: seq<Step>, i: nat, j: nat, c: nat)
    requires IsRun(states, steps) && i < j < |steps| && Breaks(steps[i], c)
    ensures steps[j] != CheckSend(c)
  {
    BrokenIff(states, steps, j, c);
    assert Enabled(states[j], steps[j]);
  }

  lemma ClosesBroken(s: State, k: nat, c: nat)
    requires Inv(s) && Enabled(s, Leave(k)) && s.calls[k].phase == Running(c) && s.contexts[c].broken
    ensures !AwaitsUnlock(Apply(s, Leave(k)), c)
  {
    assert CallOk(s, k) && ContextOk(s, c);
    hide Inv, NoPendingChild;
  }

  /** And no unlock, unless its statement was on its way before. */
  lemma {:induction false} NoUnlockOfBroken(states: seq<State>, steps: seq<Step>, i: nat, j: nat, c: nat)
    requires IsRun(states, steps) && i < j < |states| && Breaks(steps[i], c) && AwaitsUnlock(states[j], c)
    ensures AwaitsUnlock(states[i], c)
  {
    hide Enabled, Apply, Inv, AwaitsUnlock, Breaks;
    var s, step := states[j - 1], steps[j - 1];
    RunKeepsInv(states, steps, j - 1);
    BrokenIff(states, steps, j, c);
    BreakClosesNot(s, step, c);
    if CloseOf(s, step) == Some(c) {
      BrokenIff(states, steps, j - 1, c);
      ClosesBroken(s, step.call, c);
    } else if UnlockOf(s, step) == Some(c) {
      StepUnlocks(s, step, c);
    } else {
      StepUnlocksNot(s, step, c);
      if i < j - 1 { NoUnlockOfBroken(states, steps, i, j - 1, c); }
    }
  }

  lemma BreakClosesNot(s: State, step: Step, c: nat)
    requires Enabled(s, step)
    ensures CloseOf(s, step) == Some(c) ==> step.Leave? && !Breaks(step, c) && s.calls[step.call].phase == Running(c)
  {
    hide Grantable, NoPendingChild, Without, Clients;
  }

  /**
   The connection of a context goes back to the pool for the next call, unless the lock statement failed or
   the connection was broken: exactly then it is thrown away.
   */
  lemma ReleasedWhere(states: seq<State>, steps: seq<Step>, n: nat, c: nat)
    requires IsRun(states, steps) && n < |steps| && ReleaseOf(states[n], steps[n]) == Some(c)
    ensures c < |states[n + 1].contexts| && states[n + 1].contexts[c].sid < |states[n + 1].sessions|
    ensures var place := states[n + 1].sessions[states[n + 1].contexts[c].sid].place;
            && (place.Destroyed? <==> steps[n].LockError? || (steps[n].Return? && exists i :: 0 <= i < n && Breaks(steps[i], c)))
            && (!place.Destroyed? ==> place.Idle?)
  {
    BrokenIff(states, steps, n, c);
    assert Enabled(states[n], steps[n]);
    hide IsRun, Breaks;
    assert states[n + 1] == Apply(states[n], steps[n]);
  }

  // ---------------------------------------------------------------- the server's order

  /** Another session holds the key, or waits for it, in a mode that conflicts. */
  ghost predicate Contended(s: State, sid: nat, mode: Mode) {
    exists other :: 0 <= other < |s.sessions| && other != sid
      && (s.sessions[other].lock.Held? || s.sessions[other].lock.Queued?) && Conflicts(mode, s.sessions[other].lock.mode)
  }

  lemma TriedStep(s: State, step: Step, sid: nat)
    requires Inv(s) && Enabled(s, step) && sid < |Apply(s, step).sessions| && Apply(s, step).sessions[sid].lock.Refused?
    ensures sid < |s.sessions|
    ensures s.sessions[sid].lock.Refused? || (step == ServerTry(sid) && Contended(s, sid, s.sessions[sid].lock.mode))
  {
    hide NoPendingChild, Without, Clients, CallsOk, ContextsOk;
    if step == ServerTry(sid) {
      var mode := s.sessions[sid].lock.mode;
      assert SessionOk(s, sid);
      if exists i :: 0 <= i < |s.queue| && s.sessions[s.queue[i]].lock.Queued? && Conflicts(mode, s.sessions[s.queue[i]].lock.mode) {
        var i :| 0 <= i < |s.queue| && s.sessions[s.queue[i]].lock.Queued? && Conflicts(mode, s.sessions[s.queue[i]].lock.mode);
        assert s.queue[i] != sid;
      }
    }
  }

  /** A writer that does not wait is turned away only because of a conflicting holder or an earlier waiter. */
  lemma {:induction false} RefusalHasReason(states: seq<State>, steps: seq<Step>, n: nat, sid: nat) returns (i: nat)
    requires IsRun(states, steps) && n < |states| && sid < |states[n].sessions| && states[n].sessions[sid].lock.Refused?
    ensures i < n && steps[i] == ServerTry(sid) && sid < |states[i].sessions| && states[i].sessions[sid].lock.Asked?
    ensures Contended(states[i], sid, states[i].sessions[sid].lock.mode)
  {
    i := n - 1;
    RunKeepsInv(states, steps, i);
    TriedStep(states[i], steps[i], sid);
    if states[i].sessions[sid].lock.Refused? {
      i := RefusalHasReason(states, steps, i, sid);
    }
  }

  /** Session `a` is in front of session `b` wherever `b` stands in the queue. */
  ghost predicate AheadOf(queue: seq<nat>, a: nat, b: nat) {
    forall j :: 0 <= j < |queue| && queue[j] == b ==> exists i :: 0 <= i < j && queue[i] == a
  }

  lemma {:induction false} WithoutKeepsOrder(queue: seq<nat>, gone: nat, a: nat, b: nat)
    requires AheadOf(queue, a, b) && gone != a
    ensures AheadOf(Without(queue, gone), a, b)
  {
    if queue == [] {
    } else if queue[0] == a {
      assert Without(queue, gone)[0] == a;
      if b == a { assert false; }
    } else {
      var rest := queue[1..];
      assert queue[0] != b;
      forall j | 0 <= j < |rest| && rest[j] == b ensures exists i :: 0 <= i < j && rest[i] == a {
        assert queue[j + 1] == b;
        var i :| 0 <= i < j + 1 && queue[i] == a;
        assert rest[i - 1] == a;
      }
      WithoutKeepsOrder(rest, gone, a, b);
      AheadCons(if queue[0] == gone then [] else [queue[0]], Without(rest, gone), a, b);
    }
  }

  lemma AheadCons(front: seq<nat>, rest: seq<nat>, a: nat, b: nat)
    requires |front| <= 1 && b !in front && AheadOf(rest, a, b)
    ensures AheadOf(front + rest, a, b)
  {
    var queue := front + rest;
    forall j | 0 <= j < |queue| && queue[j] == b ensures exists i :: 0 <= i < j && queue[i] == a {
      var i :| 0 <= i < j - |front| && rest[i] == a;
      assert queue[|front| + i] == a;
    }
  }

  /** `a` waits, and `b` is behind it and does not hold the key in a mode that conflicts. */
  ghost predicate Behind(s: State, a: nat, b: nat, mode: Mode) {
    && a < |s.sessions| && s.sessions[a].lock == Queued(mode) && AheadOf(s.queue, a, b)
    && (b < |s.sessions| && s.sessions[b].lock.Held? ==> !Conflicts(mode, s.sessions[b].lock.mode))
  }

  lemma QueueStep(s: State, step: Step, a: nat, b: nat)
    requires Inv(s) && Enabled(s, step) && a != b && AheadOf(s.queue, a, b) && a in s.queue && a in Apply(s, step).queue
    ensures AheadOf(Apply(s, step).queue, a, b)
  {
    match step {
      case ServerEnqueue(sid) =>
        var queue := s.queue + [sid];
        var i :| 0 <= i < |s.queue| && s.queue[i] == a;
        forall j | 0 <= j < |queue| && queue[j] == b ensures exists i :: 0 <= i < j && queue[i] == a {
          if j == |s.queue| { assert queue[i] == a; } else {
            var h :| 0 <= h < j && s.queue[h] == a;
            assert queue[h] == a;
          }
        }
      case ServerGrant(i) => WithoutKeepsOrder(s.queue, s.queue[i], a, b);
      case SessionEnd(sid) => WithoutKeepsOrder(s.queue, sid, a, b);
      case _ => hide Grantable, NoPendingChild, Without, Clients;
    }
  }

  lemma BehindStep(s: State, step: Step, a: nat, b: nat, mode: Mode)
    requires Inv(s) && Enabled(s, step) && a != b && Behind(s, a, b, mode)
    requires a < |Apply(s, step).sessions| && Apply(s, step).sessions[a].lock == Queued(mode) && a in Apply(s, step).queue
    ensures Behind(Apply(s, step), a, b, mode)
  {
    assert SessionOk(s, a);
    QueueStep(s, step, a, b);
    NotGranted(s, step, a, b, mode);
  }

  lemma NotGranted(s: State, step: Step, a: nat, b: nat, mode: Mode)
    requires Inv(s) && Enabled(s, step) && a != b && Behind(s, a, b, mode)
    ensures var t := Apply(s, step);
            b < |t.sessions| && t.sessions[b].lock.Held? ==> !Conflicts(mode, t.sessions[b].lock.mode)
  {
    assert SessionOk(s, a);
    hide NoPendingChild, Without, Clients, CallsOk, ContextsOk, TableOk;
  }

  /**
   The key goes to conflicting callers in the order in which they came: while one waits, nobody who asked later
   gets it in a mode that conflicts.
   */
  lemma {:induction false} NobodyOvertakes(states: seq<State>, steps: seq<Step>, m: nat, n: nat, a: nat, b: nat, mode: Mode)
    requires IsRun(states, steps) && m <= n < |states| && a != b
    requires forall i :: m <= i <= n ==> a < |states[i].sessions| && states[i].sessions[a].lock == Queued(mode)
    requires b < |states[m].sessions| ==> !states[m].sessions[b].lock.Queued? && !states[m].sessions[b].lock.Held?
    ensures Behind(states[n], a, b, mode)
  {
    hide Inv, Enabled, Apply, Behind;
    RunKeepsInv(states, steps, n);
    WaiterIsQueued(states[n], a);
    if m == n {
      NobodyInQueue(states[n], a, b, mode);
    } else {
      NobodyOvertakes(states, steps, m, n - 1, a, b, mode);
      RunKeepsInv(states, steps, n - 1);
      BehindStep(states[n - 1], steps[n - 1], a, b, mode);
    }
  }

  lemma WaiterIsQueued(s: State, a: nat)
    requires Inv(s) && a < |s.sessions| && s.sessions[a].lock.Queued?
    ensures a in s.queue
  {
    assert SessionOk(s, a);
  }

  lemma NobodyInQueue(s: State, a: nat, b: nat, mode: Mode)
    requires Inv(s) && a < |s.sessions| && s.sessions[a].lock == Queued(mode)
    requires b < |s.sessions| ==> !s.sessions[b].lock.Queued? && !s.sessions[b].lock.Held?
    ensures Behind(s, a, b, mode)
  {
    if b < |s.sessions| { assert SessionOk(s, b); }
  }

  // ---------------------------------------------------------------- what may go wrong at any time

  /**
   Everything above holds although in every state any living session may end, any checked-out connection report
   an error, any query of the code fail, and any wait for the pool time out.
   */
  lemma AnythingMayFail(states: seq<State>, steps: seq<Step>, n: nat)
    requires IsRun(states, steps) && n < |states|
    ensures var s := states[n];
            && (forall sid :: 0 <= sid < |s.sessions| && s.sessions[sid].alive ==> Enabled(s, SessionEnd(sid)))
            && (forall c :: 0 <= c < |s.contexts| ==>
                  && s.contexts[c].sid < |s.sessions|
                  && (s.sessions[s.contexts[c].sid].place == CheckedOut(c) ==> Enabled(s, ErrorEvent(c)))
                  && (s.contexts[c].checks > 0 ==> Enabled(s, CheckFail(c))))
            && (forall k, timeout :: 0 <= k < |s.calls| && s.calls[k].phase.Connecting? ==> Enabled(s, ConnectError(k, timeout)))
            && (forall k :: 0 <= k < |s.calls| && s.calls[k].phase.Locking? ==> Enabled(s, LockError(k)))
  {
    RunKeepsInv(states, steps, n);
    var s := states[n];
    forall c | 0 <= c < |s.contexts| ensures s.contexts[c].sid < |s.sessions| { assert ContextOk(s, c); }
    forall k | 0 <= k < |s.calls| && s.calls[k].phase.Locking? ensures HasContext(s, k) { assert CallOk(s, k); }
  }
}
