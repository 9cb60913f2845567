/** What the history of a run says about each call of the refusing locks: its outcome and its connection. */
module StorageTryLocksHistory {
  import opened Wrappers
  import opened StorageTryLocks

  // ---------------------------------------------------------------- outcomes

  /** What the caller will see, once it is decided. */
  function Decided(p: Phase): Option<Outcome> {
    match p
    case Leaving(_, outcome) => Some(outcome)
    case Handing(_, outcome) => Some(outcome)
    case Done(outcome) => Some(outcome)
    case _ => None
  }

  /** The lock statement of call `k` finds the lock with another session. */
  ghost predicate FindsItTaken(s: State, step: Step, k: nat) {
    && step == Try(k) && HasSession(s, k)
    && exists other :: 0 <= other < |s.sessions| && Some(other) != SidOf(s.calls[k].phase) && s.sessions[other].lock == Some(s.calls[k].lock)
  }

  /** The unlock statement of call `k` is sent on a session that has ended. */
  ghost predicate UnlockFails(s: State, step: Step, k: nat) {
    step == Unlock(k) && HasSession(s, k) && s.calls[k].locked && !s.calls[k].broken && !SessionOf(s, k).alive
  }

  /** A control call made inside an open control context. */
  ghost predicate Nests(s: State, step: Step, k: nat) {
    step.Begin? && k == |s.calls| && step.kind.Control? && step.store.Some? && OpenContext(s, step.store.value)
  }

  ghost predicate AsksForOther(s: State, step: Step)
    requires step.Begin? && step.store.Some? && step.store.value < |s.calls|
  {
    s.calls[step.store.value].identity != step.identity || s.calls[step.store.value].kind != step.kind
  }

  /** The event that decides the outcome of call `k`. */
  ghost predicate Decides(s: State, step: Step, k: nat, outcome: Outcome) {
    match outcome
    case NestingForbidden => Nests(s, step, k) && AsksForOther(s, step)
    case Refused => FindsItTaken(s, step, k) && !s.calls[k].kind.Worker?
    case NothingToDo => FindsItTaken(s, step, k) && s.calls[k].kind.Worker?
    case Returned =>
      || (step == Finish(k, true) && k < |s.calls| && !s.calls[k].kind.Control?)
      || step == ProbeOk(k) || step == NestedFinish(k, true)
    case Failed =>
      || step == ConnectError(k) || step == TryError(k) || step == Finish(k, false)
      || (step == Finish(k, true) && k < |s.calls| && s.calls[k].kind.Control? && s.calls[k].broken)
      || step == ProbeError(k) || step == NestedProbeError(k) || step == NestedFinish(k, false)
      || (Nests(s, step, k) && !AsksForOther(s, step) && s.calls[step.store.value].broken)
      || UnlockFails(s, step, k)
  }

  lemma NewCallDecides(hash: string -> int, s: State, step: Step, outcome: Outcome)
    requires Inv(hash, s) && Enabled(s, step) && step.Begin?
    ensures |Apply(hash, s, step).calls| == |s.calls| + 1
    ensures Decided(Apply(hash, s, step).calls[|s.calls|].phase) == Some(outcome) <==> Decides(s, step, |s.calls|, outcome)
  {
    if step.store.Some? { assert CallOk(hash, s, step.store.value); }
  }

  lemma OwnStepDecides(hash: string -> int, s: State, step: Step, k: nat, outcome: Outcome)
    requires Inv(hash, s) && Enabled(s, step) && !step.Begin? && !step.SessionEnd? && step.call == k
    ensures Decided(Apply(hash, s, step).calls[k].phase) == Some(outcome) <==>
            (Decided(s.calls[k].phase) == Some(outcome) && !UnlockFails(s, step, k)) || Decides(s, step, k, outcome)
  {
    assert CallOk(hash, s, k);
    hide LockOf, Clients, NoNestedProbe, SessionOk, TableOk, CallOk;
  }

  lemma OtherStepDecides(hash: string -> int, s: State, step: Step, k: nat, outcome: Outcome)
    requires Enabled(s, step) && k < |s.calls| && (step.Begin? || step.SessionEnd? || step.call != k)
    ensures k < |Apply(hash, s, step).calls| && Apply(hash, s, step).calls[k].phase == s.calls[k].phase
    ensures !Decides(s, step, k, outcome) && !UnlockFails(s, step, k)
  {
    hide LockOf, Available, Clients, NoNestedProbe, OpenContext;
  }

  lemma DecidesKnownCall(hash: string -> int, s: State, step: Step, k: nat, outcome: Outcome)
    requires Enabled(s, step) && Decides(s, step, k, outcome)
    ensures k < |Apply(hash, s, step).calls|
  {
    hide LockOf, Available, Clients, NoNestedProbe, OpenContext;
  }

  ghost predicate HasOutcome(s: State, k: nat, outcome: Outcome) {
    k < |s.calls| && Decided(s.calls[k].phase) == Some(outcome)
  }

  lemma StepDecides(hash: string -> int, s: State, step: Step, k: nat, outcome: Outcome)
    requires Inv(hash, s) && Enabled(s, step)
    ensures HasOutcome(Apply(hash, s, step), k, outcome) <==>
            (HasOutcome(s, k, outcome) && !UnlockFails(s, step, k)) || Decides(s, step, k, outcome)
  {
    hide Inv, Enabled, Apply, Decides, UnlockFails;
    if Decides(s, step, k, outcome) { DecidesKnownCall(hash, s, step, k, outcome); }
    if k < |s.calls| {
      if step.Begin? || step.SessionEnd? || step.call != k {
        OtherStepDecides(hash, s, step, k, outcome);
      } else {
        NoNewCall(hash, s, step);
        OwnStepDecides(hash, s, step, k, outcome);
      }
    } else if step.Begin? {
      NewCallDecides(hash, s, step, outcome);
    } else {
      NoNewCall(hash, s, step);
    }
  }

  lemma NoNewCall(hash: string -> int, s: State, step: Step)
    requires Enabled(s, step) && !step.Begin?
    ensures |Apply(hash, s, step).calls| == |s.calls|
  {
    hide LockOf, Available, Clients, NoNestedProbe, OpenContext;
  }

  /**
   In every state of every run the outcome of a call is decided exactly as its history says, and an unlock that
   fails afterwards turns any outcome into a failure.
   */
  lemma {:induction false} OutcomeIff(hash: string -> int, states: seq<State>, steps: seq<Step>, n: nat, k: nat, outcome: Outcome)
    requires IsRun(hash, states, steps) && n < |states|
    ensures HasOutcome(states[n], k, outcome) <==>
            exists i :: 0 <= i < n && Decides(states[i], steps[i], k, outcome)
                        && forall j :: i < j < n ==> !UnlockFails(states[j], steps[j], k)
  {
    hide Inv, Enabled, Apply, Decides, UnlockFails;
    if n == 0 {
    } else {
      OutcomeIff(hash, states, steps, n - 1, k, outcome);
      RunKeepsInv(hash, states, steps, n - 1);
      StepDecides(hash, states[n - 1], steps[n - 1], k, outcome);
    }
  }

  // ---------------------------------------------------------------- broken connections

  lemma BrokenStep(hash: string -> int, s: State, step: Step, k: nat)
    requires Enabled(s, step)
    ensures var t := Apply(hash, s, step);
            k < |t.calls| && t.calls[k].broken <==> (k < |s.calls| && s.calls[k].broken) || step == ErrorEvent(k)
  {
    hide LockOf, Available, Clients, NoNestedProbe, OpenContext;
  }

  /** A call counts its connection as broken exactly when the connection has reported an error. */
  lemma {:induction false} BrokenIff(hash: string -> int, states: seq<State>, steps: seq<Step>, n: nat, k: nat)
    requires IsRun(hash, states, steps) && n < |states|
    ensures k < |states[n].calls| && states[n].calls[k].broken <==> exists i :: 0 <= i < n && steps[i] == ErrorEvent(k)
  {
    hide Enabled, Apply;
    if n == 0 {
    } else {
      BrokenIff(hash, states, steps, n - 1, k);
      BrokenStep(hash, states[n - 1], steps[n - 1], k);
    }
  }

  /** A connection that is given back is thrown away exactly when it has reported an error, and otherwise waits for the next call. */
  lemma HandedWhere(hash: string -> int, states: seq<State>, steps: seq<Step>, n: nat, k: nat)
    requires IsRun(hash, states, steps) && n < |steps| && steps[n] == Hand(k)
    ensures HasSession(states[n], k) && SidOf(states[n].calls[k].phase).value < |states[n + 1].sessions|
    ensures var place := states[n + 1].sessions[SidOf(states[n].calls[k].phase).value].place;
            && (place.Destroyed? <==> exists i :: 0 <= i < n && steps[i] == ErrorEvent(k))
            && (!place.Destroyed? ==> place.Idle?)
  {
    BrokenIff(hash, states, steps, n, k);
    assert Enabled(states[n], steps[n]);
    assert states[n + 1] == Apply(hash, states[n], steps[n]);
    hide IsRun;
  }

  /** The connection of a call belongs to the process and the pool the call asked. */
  ghost predicate OwnConnection(s: State, k: nat) {
    HasSession(s, k) ==> SessionOf(s, k).process == s.calls[k].process && SamePool(SessionOf(s, k).kind, s.calls[k].kind)
  }

  lemma StepKeepsConnection(hash: string -> int, s: State, step: Step, k: nat)
    requires Enabled(s, step) && OwnConnection(s, k)
    requires k < |s.calls| && SidOf(s.calls[k].phase).Some? ==> HasSession(s, k)
    ensures OwnConnection(Apply(hash, s, step), k)
  {
    hide LockOf, Available, Clients, NoNestedProbe, OpenContext;
  }

  /** No call ever works on a connection of another process or of another pool. */
  lemma {:induction false} ConnectionFits(hash: string -> int, states: seq<State>, steps: seq<Step>, n: nat, k: nat)
    requires IsRun(hash, states, steps) && n < |states|
    ensures OwnConnection(states[n], k)
  {
    if n == 0 {
    } else {
      ConnectionFits(hash, states, steps, n - 1, k);
      RunKeepsInv(hash, states, steps, n - 1);
      if k < |states[n - 1].calls| { assert CallOk(hash, states[n - 1], k); }
      hide Enabled, Apply, Inv, OwnConnection;
      StepKeepsConnection(hash, states[n - 1], steps[n - 1], k);
    }
  }

  // ---------------------------------------------------------------- what may go wrong at any time

  /** Every living session may end, every connection of a control or worker call report an error, and every query fail. */
  lemma AnythingMayFail(hash: string -> int, states: seq<State>, steps: seq<Step>, n: nat)
    requires IsRun(hash, states, steps) && n < |states|
    ensures var s := states[n];
            && (forall sid :: 0 <= sid < |s.sessions| && s.sessions[sid].alive ==> Enabled(s, SessionEnd(sid)))
            && forall k :: 0 <= k < |s.calls| ==>
                 var call := s.calls[k];
                 && (SidOf(call.phase).Some? && !call.kind.Task? ==> Enabled(s, ErrorEvent(k)))
                 && (call.phase.Connecting? ==> Enabled(s, ConnectError(k))) && (call.phase.Trying? ==> Enabled(s, TryError(k)))
                 && (call.phase.Running? ==> Enabled(s, Finish(k, false))) && (call.phase.Probing? ==> Enabled(s, ProbeError(k)))
                 && (call.phase.NestedProbing? <==> Enabled(s, NestedProbeError(k)))
                 && (call.phase.NestedRunning? ==> Enabled(s, NestedFinish(k, false)))
  {
    RunKeepsInv(hash, states, steps, n);
    var s := states[n];
    forall k | 0 <= k < |s.calls| && SidOf(s.calls[k].phase).Some? ensures HasSession(s, k) { assert CallOk(hash, s, k); }
    hide Inv, CallOk;
  }

  /**
   No call of the refusing locks waits for another one, but for its pool, whose timeout ends that wait, and for the
   answers to the nested checks that were sent before its unlock.
   */
  lemma EveryCallGoesOn(hash: string -> int, states: seq<State>, steps: seq<Step>, n: nat, k: nat) returns (step: Step)
    requires IsRun(hash, states, steps) && n < |states| && k < |states[n].calls| && !states[n].calls[k].phase.Done?
    ensures Enabled(states[n], step) && !step.Begin? && !step.SessionEnd? && !step.ErrorEvent?
    ensures step.call == k
            || (step.NestedProbeOk? && states[n].calls[k].phase.Leaving? && OnLiveSession(states[n], k)
                && states[n].calls[step.call].store == Some(k))
  {
    RunKeepsInv(hash, states, steps, n);
    var s := states[n];
    assert CallOk(hash, s, k);
    hide Inv, CallOk, Available, Clients;
    match s.calls[k].phase {
      case Connecting => step := ConnectError(k);
      case Trying(sid) => step := if s.sessions[sid].alive then Try(k) else TryError(k);
      case Running(_) => step := Finish(k, true);
      case Probing(sid) => step := if s.sessions[sid].alive then ProbeOk(k) else ProbeError(k);
      case Leaving(sid, _) =>
        step := Unlock(k);
        if !Enabled(s, step) {
          var j :| 0 <= j < |s.calls| && s.calls[j].phase.NestedProbing? && s.calls[j].store == Some(k);
          step := NestedProbeOk(j);
        }
      case Handing(_, _) => step := Hand(k);
      case NestedProbing => step := NestedProbeError(k);
      case NestedRunning => step := NestedFinish(k, true);
    }
  }
}
