/** The in-process guards of app/modules/activityPub/cronService.ts. */
module Cron {

  datatype Kind = Delivery | SourceRefresh | SourceRefreshPoll | ChallengeCleanup

  /** Skipped: answered at once with the empty result. InModule: the module call is awaited. */
  datatype Phase = Skipped | InModule | Returned | Threw

  datatype Call = Call(kind: Kind, phase: Phase)

  datatype State = State(delivery: bool, sourceRefresh: bool, sourceRefreshPoll: bool, challengeCleanup: bool, calls: seq<Call>)

  const INITIAL := State(false, false, false, false, [])

  datatype Event = Invoke(kind: Kind) | Settle(call: nat, ok: bool)

  function InProcess(s: State, kind: Kind): bool {
    match kind
    case Delivery => s.delivery
    case SourceRefresh => s.sourceRefresh
    case SourceRefreshPoll => s.sourceRefreshPoll
    case ChallengeCleanup => s.challengeCleanup
  }

  function WithInProcess(s: State, kind: Kind, value: bool): State {
    match kind
    case Delivery => s.(delivery := value)
    case SourceRefresh => s.(sourceRefresh := value)
    case SourceRefreshPoll => s.(sourceRefreshPoll := value)
    case ChallengeCleanup => s.(challengeCleanup := value)
  }

  predicate Enabled(s: State, e: Event) {
    e.Settle? ==> e.call < |s.calls| && s.calls[e.call].phase.InModule?
  }

  function Apply(s: State, e: Event): State
    requires Enabled(s, e)
  {
    match e
    case Invoke(kind) =>
      if InProcess(s, kind) then s.(calls := s.calls + [Call(kind, Skipped)])
      else WithInProcess(s, kind, true).(calls := s.calls + [Call(kind, InModule)])
    case Settle(i, ok) =>
      WithInProcess(s, s.calls[i].kind, false).(calls := s.calls[i := s.calls[i].(phase := if ok then Returned else Threw)])
  }

  predicate Active(s: State, i: int, kind: Kind) {
    0 <= i < |s.calls| && s.calls[i] == Call(kind, InModule)
  }

  /** The flag of a kind is set exactly while one call of the kind is with the module, and there is never a second. */
  ghost predicate KindOk(s: State, kind: Kind) {
    && (InProcess(s, kind) <==> exists i :: Active(s, i, kind))
    && (forall i, j :: Active(s, i, kind) && Active(s, j, kind) ==> i == j)
  }

  ghost predicate Inv(s: State) {
    forall kind :: KindOk(s, kind)
  }

  ghost predicate IsRun(states: seq<State>, events: seq<Event>) {
    && |states| == |events| + 1 && states[0] == INITIAL
    && forall i :: 0 <= i < |events| ==> Enabled(states[i], events[i]) && states[i + 1] == Apply(states[i], events[i])
  }

  lemma FlagSet(s: State, kind: Kind, value: bool, other: Kind)
    ensures InProcess(WithInProcess(s, kind, value), other) == if other == kind then value else InProcess(s, other)
    ensures WithInProcess(s, kind, value).calls == s.calls
  {}

  lemma CallsDoNotMatter(s: State, calls: seq<Call>, kind: Kind)
    ensures InProcess(s.(calls := calls), kind) == InProcess(s, kind)
  {}

  lemma InitialInv()
    ensures Inv(INITIAL)
  {
    forall kind ensures KindOk(INITIAL, kind) {
      match kind { case Delivery => case SourceRefresh => case SourceRefreshPoll => case ChallengeCleanup => }
    }
  }

  lemma AppendCall(s: State, t: State, call: Call, kind: Kind)
    requires t.calls == s.calls + [call]
    ensures forall i :: Active(t, i, kind) <==> Active(s, i, kind) || (i == |s.calls| && call == Call(kind, InModule))
  {}

  /** The invariant of a kind when its flag and its active calls stay, or when one new call sets the flag. */
  lemma SameActive(s: State, t: State, kind: Kind)
    requires KindOk(s, kind) && InProcess(t, kind) == InProcess(s, kind)
    requires forall i :: Active(t, i, kind) <==> Active(s, i, kind)
    ensures KindOk(t, kind)
  {
    hide Active, InProcess;
  }

  lemma OneActive(s: State, t: State, kind: Kind, call: int)
    requires KindOk(s, kind) && !InProcess(s, kind) && InProcess(t, kind)
    requires forall i :: Active(t, i, kind) <==> Active(s, i, kind) || i == call
    ensures KindOk(t, kind)
  {
    hide Active, InProcess;
    assert Active(t, call, kind);
  }

  lemma InvokeKeeps(s: State, called: Kind, kind: Kind)
    requires KindOk(s, kind)
    ensures KindOk(Apply(s, Invoke(called)), kind)
  {
    var t := Apply(s, Invoke(called));
    FlagSet(s, called, true, kind);
    CallsDoNotMatter(s, t.calls, kind);
    CallsDoNotMatter(WithInProcess(s, called, true), t.calls, kind);
    AppendCall(s, t, Call(called, if InProcess(s, called) then Skipped else InModule), kind);
    hide Active, InProcess, WithInProcess, KindOk;
    if kind == called && !InProcess(s, kind) { OneActive(s, t, kind, |s.calls|); } else { SameActive(s, t, kind); }
  }

  lemma SettleKeeps(s: State, call: nat, ok: bool, kind: Kind)
    requires KindOk(s, kind) && Enabled(s, Settle(call, ok))
    ensures KindOk(Apply(s, Settle(call, ok)), kind)
  {
    var t := Apply(s, Settle(call, ok));
    var changed := s.calls[call].kind;
    FlagSet(s, changed, false, kind);
    CallsDoNotMatter(WithInProcess(s, changed, false), t.calls, kind);
    hide InProcess, WithInProcess;
    assert Active(s, call, changed);
    assert forall i :: Active(t, i, kind) <==> Active(s, i, kind) && i != call;
  }

  lemma StepKeepsInv(s: State, e: Event)
    requires Enabled(s, e) && Inv(s)
    ensures Inv(Apply(s, e))
  {
    hide KindOk, Apply;
    forall kind ensures KindOk(Apply(s, e), kind) {
      if e.Invoke? { InvokeKeeps(s, e.kind, kind); } else { SettleKeeps(s, e.call, e.ok, kind); }
    }
  }

  lemma {:induction false} RunKeepsInv(states: seq<State>, events: seq<Event>, n: nat)
    requires IsRun(states, events) && n < |states|
    ensures Inv(states[n])
  {
    if n == 0 {
      InitialInv();
    } else {
      RunKeepsInv(states, events, n - 1);
      hide Inv, Enabled, Apply;
      StepKeepsInv(states[n - 1], events[n - 1]);
    }
  }

  /**
   Over any run: two calls of one kind are never with the module at once, and a call is skipped exactly
   when another of its own kind is with the module at that moment; other kinds never matter.
   */
  lemma SkippedExactlyWhenBusy(states: seq<State>, events: seq<Event>, n: nat, i: nat, j: nat)
    requires IsRun(states, events) && n < |events| && events[n].Invoke?
    ensures var kind := events[n].kind; Active(states[n], i, kind) && Active(states[n], j, kind) ==> i == j
    ensures states[n + 1].calls[|states[n].calls|].phase.Skipped? <==> exists k :: Active(states[n], k, events[n].kind)
  {
    RunKeepsInv(states, events, n);
    assert KindOk(states[n], events[n].kind);
    assert states[n + 1] == Apply(states[n], events[n]);
  }

  lemma EndsStep(s: State, e: Event, i: nat, ok: bool)
    requires Enabled(s, e)
    ensures var t := Apply(s, e);
            i < |t.calls| && t.calls[i].phase == (if ok then Returned else Threw) <==>
            (i < |s.calls| && s.calls[i].phase == (if ok then Returned else Threw)) || e == Settle(i, ok)
  {
    hide InProcess;
  }

  /** A call returns or throws exactly when its module call does. */
  lemma {:induction false} EndsIff(states: seq<State>, events: seq<Event>, n: nat, i: nat, ok: bool)
    requires IsRun(states, events) && n < |states|
    ensures i < |states[n].calls| && states[n].calls[i].phase == (if ok then Returned else Threw) <==>
            exists m :: 0 <= m < n && events[m] == Settle(i, ok)
  {
    hide Enabled, Apply;
    if n == 0 {
    } else {
      EndsIff(states, events, n - 1, i, ok);
      EndsStep(states[n - 1], events[n - 1], i, ok);
    }
  }

  // ---------------------------------------------------------------- the service object

  class ActivityPubDeliveryCronService {
    var deliveryInProcess: bool
    var sourceRefreshInProcess: bool
    var sourceRefreshPollInProcess: bool
    var ownershipChallengeCleanupInProcess: bool
    var calls: seq<Call>

    function View(): State
      reads this
    {
      State(deliveryInProcess, sourceRefreshInProcess, sourceRefreshPollInProcess, ownershipChallengeCleanupInProcess, calls)
    }

    ghost predicate Valid()
      reads this
    {
      Inv(View())
    }

    constructor ()
      ensures Valid() && View() == INITIAL
    {
      deliveryInProcess, sourceRefreshInProcess := false, false;
      sourceRefreshPollInProcess, ownershipChallengeCleanupInProcess, calls := false, false, [];
      new;
      InitialInv();
    }

    method SetInProcess(kind: Kind, value: bool)
      modifies this
      ensures View() == WithInProcess(old(View()), kind, value)
    {
      match kind {
        case Delivery => deliveryInProcess := value;
        case SourceRefresh => sourceRefreshInProcess := value;
        case SourceRefreshPoll => sourceRefreshPollInProcess := value;
        case ChallengeCleanup => ownershipChallengeCleanupInProcess := value;
      }
    }

    /** A method of the service up to its await. */
    method Process(kind: Kind) returns (call: nat)
      requires Valid()
      modifies this
      ensures Valid() && View() == Apply(old(View()), Invoke(kind)) && call == |old(calls)|
    {
      StepKeepsInv(View(), Invoke(kind));
      call := |calls|;
      if InProcess(View(), kind) {
        calls := calls + [Call(kind, Skipped)];
        return;
      }
      SetInProcess(kind, true);
      calls := calls + [Call(kind, InModule)];
    }

    /** The awaited module call returns or throws: the finally block, then the outcome. */
    method Settled(call: nat, ok: bool)
      requires Valid() && Enabled(View(), Settle(call, ok))
      modifies this
      ensures Valid() && View() == Apply(old(View()), Settle(call, ok))
    {
      StepKeepsInv(View(), Settle(call, ok));
      SetInProcess(calls[call].kind, false);
      calls := calls[call := calls[call].(phase := if ok then Returned else Threw)];
    }
  }
}
