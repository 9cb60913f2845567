/** The storage fence never deadlocks, and with terminating callbacks every call completes. */
module StorageFenceProgress {
  import opened Wrappers
  import opened StorageFence
  import opened StorageFenceSafety

  /**
   Steps that carry the work on. Excluded: new calls, new probes (both are decisions of a
   callback, and callbacks terminate), failures of the environment, and connection timeouts.
   A session whose client was thrown away must end, and statements on a dead session fail.
   */
  ghost predicate Work(s: State, step: Step)
    requires Enabled(s, step)
  {
    match step
    case Begin(_, _, _, _, _) => false
    case CheckSend(_) => false
    case ErrorEvent(_) => false
    case ConnectError(_, _) => false
    case LockError(k) => !s.sessions[s.contexts[s.calls[k].phase.context].sid].alive
    case CheckFail(c) => !s.sessions[s.contexts[c].sid].alive
    case SessionEnd(sid) => s.sessions[sid].place.Destroyed?
    case _ => true
  }

  ghost predicate Productive(s: State, step: Step) {
    Enabled(s, step) && Work(s, step)
  }

  // ---------------------------------------------------------------- some step is always enabled

  /** The youngest running callback awaits nobody: a nested call of it would be running too. */
  lemma {:induction false} YoungestRunningCanLeave(s: State, n: nat) returns (step: Step)
    requires Inv(s) && n <= |s.calls|
    requires exists k :: 0 <= k < n && s.calls[k].phase.Running?
    requires forall k :: n <= k < |s.calls| ==> !s.calls[k].phase.Running?
    ensures Productive(s, step)
  {
    if s.calls[n - 1].phase.Running? {
      var k: nat := n - 1;
      assert CallOk(s, k);
      assert ContextOk(s, s.calls[k].phase.context);
      forall j | 0 <= j < |s.calls| && s.calls[j].parent == Some(k) ensures !Unfinished(s.calls[j]) {
        assert CallOk(s, j);
      }
      step := Leave(k);
    } else {
      step := YoungestRunningCanLeave(s, n - 1);
    }
  }

  lemma ReleaserCanGoOn(s: State, k: nat) returns (step: Step)
    requires Inv(s) && k < |s.calls| && (s.calls[k].phase.Unlocking? || s.calls[k].phase.Returning?)
    ensures Productive(s, step)
  {
    assert CallOk(s, k);
    var c := s.calls[k].phase.context;
    assert ContextOk(s, c);
    if s.calls[k].phase.Returning? {
      step := Return(k);
    } else if s.sessions[s.contexts[c].sid].alive && s.contexts[c].checks > 0 {
      step := CheckOk(c);
    } else {
      step := Unlock(k);
    }
  }

  predicate Settled(p: Phase) {
    p.Connecting? || p.Locking? || p.Done?
  }

  ghost predicate AllSettled(s: State) {
    forall k :: 0 <= k < |s.calls| ==> Settled(s.calls[k].phase)
  }

  /** With no callback running, a checked-out connection belongs to a call that awaits its lock. */
  lemma CheckedOutIsLocking(s: State, sid: nat)
    requires Inv(s) && AllSettled(s) && sid < |s.sessions| && s.sessions[sid].place.CheckedOut?
    ensures var c := s.sessions[sid].place.context;
            && c < |s.contexts| && !s.contexts[c].started && s.contexts[c].owner < |s.calls|
            && s.contexts[c].sid == sid && s.calls[s.contexts[c].owner].phase == Locking(c)
  {
    var c := s.sessions[sid].place.context;
    assert SessionOk(s, sid);
    assert ContextOk(s, c);
    if s.contexts[c].started && s.contexts[c].active {
      var k := EnteredWitness(s.calls, c);
      assert false;
    }
  }

  /** The head of the lock queue is grantable, or its blocker can move. */
  lemma QueueHeadCanMove(s: State) returns (step: Step)
    requires Inv(s) && AllSettled(s) && s.queue != []
    ensures Productive(s, step)
  {
    var head := s.queue[0];
    assert head in s.queue && SessionOk(s, head);
    if Grantable(s, head, s.sessions[head].lock.mode, 0) {
      step := ServerGrant(0);
    } else {
      var h :| 0 <= h < |s.sessions| && h != head && s.sessions[h].lock.Held?;
      assert SessionOk(s, h);
      if s.sessions[h].place.Destroyed? {
        step := SessionEnd(h);
      } else {
        CheckedOutIsLocking(s, h);
        step := LockReply(s.contexts[s.sessions[h].place.context].owner);
      }
    }
  }

  lemma LockerCanGoOn(s: State, k: nat) returns (step: Step)
    requires Inv(s) && AllSettled(s) && k < |s.calls| && s.calls[k].phase.Locking?
    ensures Productive(s, step)
  {
    assert CallOk(s, k);
    var c := s.calls[k].phase.context;
    assert ContextOk(s, c);
    var sid := s.contexts[c].sid;
    assert SessionOk(s, sid);
    if !s.sessions[sid].alive {
      step := LockError(k);
    } else {
      match s.sessions[sid].lock {
        case Asked(_, wait) => step := if wait then ServerEnqueue(sid) else ServerTry(sid);
        case Queued(_) => step := QueueHeadCanMove(s);
        case Held(_) => step := LockReply(k);
        case Refused => step := LockRefused(k);
      }
    }
  }

  /** With every connection idle or destroyed, a waiting caller gets one without any timeout. */
  lemma ConnecterCanGoOn(s: State, k: nat) returns (step: Step)
    requires Inv(s) && AllSettled(s) && k < |s.calls| && s.calls[k].phase.Connecting?
    requires forall j :: 0 <= j < |s.calls| ==> !s.calls[j].phase.Locking?
    ensures Productive(s, step)
  {
    var p := s.calls[k].process;
    if sid: nat :| sid in Clients(s.sessions, p) {
      if s.sessions[sid].place.CheckedOut? { CheckedOutIsLocking(s, sid); }
      step := ConnectIdle(k, sid);
    } else {
      assert Clients(s.sessions, p) == {};
      step := ConnectFresh(k);
    }
  }

  /**
   No deadlock: in every reachable state with an unfinished call, some step that carries the work on
   is enabled, with no timeout and no failure needed.
   */
  lemma NeverDeadlocks(states: seq<State>, steps: seq<Step>, i: nat) returns (step: Step)
    requires IsRun(states, steps) && i < |states|
    requires exists k :: 0 <= k < |states[i].calls| && Unfinished(states[i].calls[k])
    ensures Productive(states[i], step)
  {
    RunKeepsInv(states, steps, i);
    step := SomeStepIsEnabled(states[i]);
  }

  lemma SomeStepIsEnabled(s: State) returns (step: Step)
    requires Inv(s)
    requires exists k :: 0 <= k < |s.calls| && Unfinished(s.calls[k])
    ensures Productive(s, step)
  {
    if exists k :: 0 <= k < |s.calls| && s.calls[k].phase.Running? {
      step := YoungestRunningCanLeave(s, |s.calls|);
    } else if k :| 0 <= k < |s.calls| && (s.calls[k].phase.Unlocking? || s.calls[k].phase.Returning?) {
      step := ReleaserCanGoOn(s, k);
    } else if k :| 0 <= k < |s.calls| && s.calls[k].phase.Locking? {
      step := LockerCanGoOn(s, k);
    } else {
      var k :| 0 <= k < |s.calls| && Unfinished(s.calls[k]);
      step := ConnecterCanGoOn(s, k);
    }
  }

  // ---------------------------------------------------------------- a measure that work decreases

  ghost function CallWeight(c: Call): nat {
    match c.phase
    case Connecting => 8
    case Locking(_) => 5
    case Running(_) => 4
    case Unlocking(_) => 3
    case Returning(_) => 2
    case Done(_) => 0
  }

  ghost function SessionWeight(x: Session): nat {
    (if x.place.Destroyed? && x.alive then 1 else 0)
    + (match x.lock case Asked(_, _) => 2 case Queued(_) => 1 case _ => 0)
  }

  ghost function ContextWeight(x: Context): nat { x.checks }

  ghost function Sum<T>(xs: seq<T>, w: T -> nat): nat {
    if xs == [] then 0 else Sum(xs[..|xs| - 1], w) + w(xs[|xs| - 1])
  }

  lemma {:induction false} SumUpdate<T>(xs: seq<T>, k: nat, x: T, w: T -> nat)
    requires k < |xs|
    ensures Sum(xs[k := x], w) + w(xs[k]) == Sum(xs, w) + w(x)
  {
    var last := |xs| - 1;
    if k == last {
      assert xs[k := x][..last] == xs[..last];
    } else {
      assert xs[k := x][..last] == xs[..last][k := x];
      SumUpdate(xs[..last], k, x, w);
    }
  }

  lemma SumAppend<T>(xs: seq<T>, x: T, w: T -> nat)
    ensures Sum(xs + [x], w) == Sum(xs, w) + w(x)
  {
    assert (xs + [x])[..|xs|] == xs;
  }

  ghost function Measure(s: State): nat {
    Sum(s.calls, CallWeight) + Sum(s.sessions, SessionWeight) + Sum(s.contexts, ContextWeight)
  }

  ghost predicate CallbackDecision(step: Step) {
    step.Begin? || step.CheckSend?
  }

  /** One call, one context and one session change: the measure changes by their weights. */
  lemma MeasureOfUpdate(s: State, t: State, k: nat, c: nat, sid: nat)
    requires k < |s.calls| && c < |s.contexts| && sid < |s.sessions|
    requires k < |t.calls| && c < |t.contexts| && sid < |t.sessions|
    requires t.calls == s.calls[k := t.calls[k]]
    requires t.contexts == s.contexts[c := t.contexts[c]]
    requires t.sessions == s.sessions[sid := t.sessions[sid]]
    ensures Measure(t) + CallWeight(s.calls[k]) + s.contexts[c].checks + SessionWeight(s.sessions[sid])
         == Measure(s) + CallWeight(t.calls[k]) + t.contexts[c].checks + SessionWeight(t.sessions[sid])
  {
    SumUpdate(s.calls, k, t.calls[k], CallWeight);
    SumUpdate(s.contexts, c, t.contexts[c], ContextWeight);
    SumUpdate(s.sessions, sid, t.sessions[sid], SessionWeight);
  }

  lemma CallStepMeasure(s: State, step: Step)
    requires Inv(s) && Enabled(s, step) && HasContextStep(step)
    ensures Measure(Apply(s, step)) < Measure(s)
  {
    var k := step.call;
    assert CallOk(s, k);
    var c := ContextOf(s.calls[k].phase).value;
    assert ContextOk(s, c);
    MeasureOfUpdate(s, Apply(s, step), k, c, s.contexts[c].sid);
  }

  lemma ConnectMeasure(s: State, step: Step)
    requires Inv(s) && Enabled(s, step) && (step.ConnectIdle? || step.ConnectFresh? || step.ConnectError?)
    ensures Measure(Apply(s, step)) < Measure(s)
  {
    var t := Apply(s, step);
    var k := step.call;
    SumUpdate(s.calls, k, t.calls[k], CallWeight);
    if !step.ConnectError? {
      SumAppend(s.contexts, t.contexts[|s.contexts|], ContextWeight);
      assert t.contexts == s.contexts + [t.contexts[|s.contexts|]];
    }
    if step.ConnectIdle? {
      SumUpdate(s.sessions, step.sid, t.sessions[step.sid], SessionWeight);
    } else if step.ConnectFresh? {
      SumAppend(s.sessions, t.sessions[|s.sessions|], SessionWeight);
    }
  }

  lemma ServerStepMeasure(s: State, step: Step)
    requires Inv(s) && Enabled(s, step) && TouchesNoCall(step) && !step.CheckSend?
    ensures Measure(Apply(s, step)) <= Measure(s)
    ensures Work(s, step) ==> Measure(Apply(s, step)) < Measure(s)
  {
    var t := Apply(s, step);
    if step.ErrorEvent? || step.CheckOk? || step.CheckFail? {
      SumUpdate(s.contexts, step.context, t.contexts[step.context], ContextWeight);
    } else {
      var sid := if step.ServerGrant? then s.queue[step.index] else step.sid;
      SumUpdate(s.sessions, sid, t.sessions[sid], SessionWeight);
    }
  }

  /** Every step except a callback's own decision keeps the measure from growing, and work makes it drop. */
  lemma StepMeasure(s: State, step: Step)
    requires Inv(s) && Enabled(s, step) && !CallbackDecision(step)
    ensures Measure(Apply(s, step)) <= Measure(s)
    ensures Work(s, step) ==> Measure(Apply(s, step)) < Measure(s)
  {
    if HasContextStep(step) {
      CallStepMeasure(s, step);
    } else if step.ConnectIdle? || step.ConnectFresh? || step.ConnectError? {
      ConnectMeasure(s, step);
    } else {
      ServerStepMeasure(s, step);
    }
  }

  // ---------------------------------------------------------------- completion

  ghost function WorkSteps(states: seq<State>, steps: seq<Step>, i: nat, j: nat): nat
    requires IsPath(states, steps) && i <= j <= |steps|
  {
    if i == j then 0 else WorkSteps(states, steps, i, j - 1) + if Work(states[j - 1], steps[j - 1]) then 1 else 0
  }

  /**
   However the scheduler, the network and the server behave, once the callbacks start nothing new only
   boundedly many work steps remain.
   */
  lemma {:induction false} WorkIsBounded(states: seq<State>, steps: seq<Step>, i: nat, j: nat)
    requires IsRun(states, steps) && i <= j <= |steps|
    requires forall m :: i <= m < j ==> !CallbackDecision(steps[m])
    ensures Measure(states[j]) + WorkSteps(states, steps, i, j) <= Measure(states[i])
  {
    hide Enabled, Apply, Inv, Work, Measure;
    if i == j {
    } else {
      WorkIsBounded(states, steps, i, j - 1);
      RunKeepsInv(states, steps, j - 1);
      StepMeasure(states[j - 1], steps[j - 1]);
    }
  }

  ghost predicate AllDone(s: State) {
    forall k :: 0 <= k < |s.calls| ==> s.calls[k].phase.Done?
  }

  /** From every reachable state the system can finish all calls by work steps alone. */
  lemma {:induction false} CanComplete(s: State) returns (states: seq<State>, steps: seq<Step>)
    requires Inv(s)
    ensures IsPath(states, steps) && states[0] == s && AllDone(states[|steps|])
    ensures forall i :: 0 <= i < |steps| ==> Work(states[i], steps[i])
    ensures |steps| <= Measure(s)
    decreases Measure(s)
  {
    if AllDone(s) {
      states, steps := [s], [];
    } else {
      assert exists k :: 0 <= k < |s.calls| && Unfinished(s.calls[k]);
      var step := SomeStepIsEnabled(s);
      StepKeepsInv(s, step);
      StepMeasure(s, step);
      var restStates, restSteps := CanComplete(Apply(s, step));
      states, steps := [s] + restStates, [step] + restSteps;
    }
  }

  /** When every call is done nothing is left behind: no connection is checked out, no idle one holds or awaits a lock. */
  lemma NothingIsLeftBehind(states: seq<State>, steps: seq<Step>, i: nat, sid: nat)
    requires IsRun(states, steps) && i < |states| && AllDone(states[i]) && sid < |states[i].sessions|
    ensures states[i].sessions[sid].place.Idle? || states[i].sessions[sid].place.Destroyed?
    ensures states[i].sessions[sid].place.Idle? ==> states[i].sessions[sid].lock.NoLock?
  {
    RunKeepsInv(states, steps, i);
    assert SessionOk(states[i], sid);
    if states[i].sessions[sid].place.CheckedOut? {
      CheckedOutIsLocking(states[i], sid);
    }
  }
}
