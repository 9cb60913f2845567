/**
 Interval workers and their groups (app/backgroundWorker.ts). Every timer tick, microtask and stop is
 one event; events come in any order the promises allow.
 */
module Workers {
  import opened Wrappers

  /**
   One run: its microtask is queued, the callback is in progress, the callback has failed and onError is
   due, the finally callback is due, or the promise is settled.
   */
  datatype Run =
    | Scheduled
    | Running
    | Failed
    | Settling(rejected: bool)
    | Settled(rejected: bool)

  /** `current` is runPromise; `awaited` is what stop() waits for: nothing before the first stop, then a run or no run. */
  datatype Worker = Worker(runs: seq<Run>, current: Option<nat>, stopped: bool, awaited: Option<Option<nat>>)

  const STARTED := Worker([], None, false, None)

  datatype Event =
    | Tick
    | Begin(run: nat)
    | Succeed(run: nat)
    | Fail(run: nat)
    | Handle(run: nat, throws: bool)   // onError returns or throws
    | Finally(run: nat)
    | Stop

  predicate Enabled(w: Worker, e: Event) {
    match e
    case Tick => true
    case Stop => true
    case Begin(i) => i < |w.runs| && w.runs[i].Scheduled?
    case Succeed(i) => i < |w.runs| && w.runs[i].Running?
    case Fail(i) => i < |w.runs| && w.runs[i].Running?
    case Handle(i, _) => i < |w.runs| && w.runs[i].Failed?
    case Finally(i) => i < |w.runs| && w.runs[i].Settling?
  }

  function Apply(w: Worker, e: Event): Worker
    requires Enabled(w, e)
  {
    match e
    case Tick =>
      if w.stopped || w.current.Some? then w
      else w.(runs := w.runs + [Scheduled], current := Some(|w.runs|))
    case Begin(i) => w.(runs := w.runs[i := Running])
    case Succeed(i) => w.(runs := w.runs[i := Settling(false)])
    case Fail(i) => w.(runs := w.runs[i := Failed])
    case Handle(i, throws) => w.(runs := w.runs[i := Settling(throws)])
    case Finally(i) => w.(runs := w.runs[i := Settled(w.runs[i].rejected)], current := None)
    case Stop => if w.awaited.Some? then w else w.(stopped := true, awaited := Some(w.current))
  }

  predicate InFlight(r: Run) {
    !r.Settled?
  }

  /** The runs follow one another, and runPromise and the stop promise know the one in flight. */
  ghost predicate Inv(w: Worker) {
    && (forall i :: 0 <= i < |w.runs| && InFlight(w.runs[i]) ==> w.current == Some(i) && i == |w.runs| - 1)
    && (w.current.Some? ==> w.current.value < |w.runs| && InFlight(w.runs[w.current.value]))
    && (w.stopped <==> w.awaited.Some?)
    && (w.awaited.Some? && w.awaited.value.Some? ==> w.awaited.value.value < |w.runs|)
    && (w.stopped ==> forall i :: 0 <= i < |w.runs| && InFlight(w.runs[i]) ==> w.awaited == Some(Some(i)))
  }

  lemma StepKeepsInv(w: Worker, e: Event)
    requires Enabled(w, e) && Inv(w)
    ensures Inv(Apply(w, e))
  {}

  /** After stop no run is scheduled, and the stop promise keeps waiting for the same run. */
  lemma StoppedSchedulesNothing(w: Worker, e: Event)
    requires Enabled(w, e) && Inv(w) && w.stopped
    ensures var t := Apply(w, e);
            t.stopped && |t.runs| == |w.runs| && t.awaited == w.awaited
            && forall i :: 0 <= i < |w.runs| && w.runs[i].Settled? ==> t.runs[i] == w.runs[i]
  {}

  /** The promise stop() returned has resolved, or rejected. */
  predicate StopResolved(w: Worker) {
    w.awaited.Some? && (w.awaited.value.None? || (w.awaited.value.value < |w.runs| && w.runs[w.awaited.value.value] == Settled(false)))
  }

  predicate StopRejected(w: Worker) {
    && w.awaited.Some? && w.awaited.value.Some?
    && w.awaited.value.value < |w.runs| && w.runs[w.awaited.value.value] == Settled(true)
  }

  lemma ResolvedMeansQuiet(w: Worker)
    requires Inv(w) && (StopResolved(w) || StopRejected(w))
    ensures forall i :: 0 <= i < |w.runs| ==> !InFlight(w.runs[i])
  {}

  /** How far the stop promise is from settling; a callback and onError that end take at most these steps. */
  function Distance(w: Worker): nat {
    if w.awaited == None || w.awaited.value == None || w.awaited.value.value >= |w.runs| then 0
    else
      match w.runs[w.awaited.value.value]
      case Scheduled => 4
      case Running => 3
      case Failed => 2
      case Settling(_) => 1
      case Settled(_) => 0
  }

  /** A stopped worker settles its stop: while it waits there is an event to come, and every such event brings it nearer. */
  lemma StopSettles(w: Worker)
    requires Inv(w) && w.stopped
    ensures Distance(w) == 0 <==> StopResolved(w) || StopRejected(w)
    ensures Distance(w) > 0 ==> exists e :: Enabled(w, e) && Distance(Apply(w, e)) < Distance(w)
    ensures forall e :: Enabled(w, e) && !e.Tick? && !e.Stop? ==> Distance(Apply(w, e)) < Distance(w)
  {
    if Distance(w) > 0 {
      var i := w.awaited.value.value;
      var e := match w.runs[i] case Scheduled => Begin(i) case Running => Succeed(i) case Failed => Handle(i, false) case _ => Finally(i);
      assert Enabled(w, e);
    }
  }

  // ---------------------------------------------------------------- a group

  datatype Group = Group(workers: seq<Worker>, stopped: bool)

  const EMPTY_GROUP := Group([], false)

  datatype GroupEvent = Add(immediately: bool) | Member(worker: nat, event: Event) | StopAll

  /** Members are stopped only through the group. */
  predicate GroupEnabled(g: Group, e: GroupEvent) {
    e.Member? ==> e.worker < |g.workers| && !e.event.Stop? && Enabled(g.workers[e.worker], e.event)
  }

  function StopWorkers(workers: seq<Worker>): (r: seq<Worker>)
    ensures |r| == |workers| && forall i :: 0 <= i < |r| ==> r[i] == Apply(workers[i], Stop)
  {
    if workers == [] then [] else StopWorkers(workers[..|workers| - 1]) + [Apply(workers[|workers| - 1], Stop)]
  }

  /** Adding to a stopped group throws. */
  function GroupApply(g: Group, e: GroupEvent): Group
    requires GroupEnabled(g, e)
  {
    match e
    case Add(immediately) =>
      if g.stopped then g else g.(workers := g.workers + [if immediately then Apply(STARTED, Tick) else STARTED])
    case Member(i, event) => g.(workers := g.workers[i := Apply(g.workers[i], event)])
    case StopAll => if g.stopped then g else Group(StopWorkers(g.workers), true)
  }

  ghost predicate GroupInv(g: Group) {
    forall i :: 0 <= i < |g.workers| ==> Inv(g.workers[i]) && g.workers[i].stopped == g.stopped
  }

  ghost predicate IsGroupRun(groups: seq<Group>, events: seq<GroupEvent>) {
    && |groups| == |events| + 1 && groups[0] == EMPTY_GROUP
    && forall i :: 0 <= i < |events| ==> GroupEnabled(groups[i], events[i]) && groups[i + 1] == GroupApply(groups[i], events[i])
  }

  lemma GroupStepKeepsInv(g: Group, e: GroupEvent)
    requires GroupEnabled(g, e) && GroupInv(g)
    ensures GroupInv(GroupApply(g, e))
  {
    hide Inv;
    match e {
      case Add(_) =>
        assert Inv(STARTED) && Inv(Apply(STARTED, Tick)) by { StartedInv(); }
      case Member(i, event) =>
        StepKeepsInv(g.workers[i], event);
      case StopAll =>
        forall i | 0 <= i < |g.workers| ensures Inv(Apply(g.workers[i], Stop)) && Apply(g.workers[i], Stop).stopped {
          StepKeepsInv(g.workers[i], Stop);
          StopStops(g.workers[i]);
        }
    }
  }

  lemma StartedInv()
    ensures Inv(STARTED) && Inv(Apply(STARTED, Tick))
  {}

  lemma StopStops(w: Worker)
    requires Inv(w)
    ensures Apply(w, Stop).stopped
  {}

  lemma {:induction false} GroupRunKeepsInv(groups: seq<Group>, events: seq<GroupEvent>, n: nat)
    requires IsGroupRun(groups, events) && n < |groups|
    ensures GroupInv(groups[n])
  {
    if n == 0 {
    } else {
      GroupRunKeepsInv(groups, events, n - 1);
      hide GroupInv, GroupEnabled, GroupApply;
      GroupStepKeepsInv(groups[n - 1], events[n - 1]);
    }
  }

  predicate RunsOf(g: Group, i: int, j: int) {
    0 <= i < |g.workers| && 0 <= j < |g.workers[i].runs|
  }

  /** In every state at most one run of a worker is in flight, and the earlier ones are over. */
  lemma OneRunAtATime(groups: seq<Group>, events: seq<GroupEvent>, n: nat, i: nat, j: nat, k: nat)
    requires IsGroupRun(groups, events) && n < |groups| && RunsOf(groups[n], i, j) && RunsOf(groups[n], i, k) && j < k
    ensures groups[n].workers[i].runs[j].Settled?
  {
    GroupRunKeepsInv(groups, events, n);
    hide IsGroupRun;
    assert Inv(groups[n].workers[i]);
  }

  /** Promise.all of the members' stops. */
  predicate GroupStopResolved(g: Group) {
    g.stopped && forall i :: 0 <= i < |g.workers| ==> StopResolved(g.workers[i])
  }

  predicate GroupStopRejected(g: Group) {
    g.stopped && exists i :: 0 <= i < |g.workers| && StopRejected(g.workers[i])
  }

  lemma StoppedGroupStep(g: Group, e: GroupEvent)
    requires GroupEnabled(g, e) && GroupInv(g) && g.stopped
    ensures var t := GroupApply(g, e);
            t.stopped && |t.workers| == |g.workers|
            && forall i :: 0 <= i < |g.workers| ==> |t.workers[i].runs| == |g.workers[i].runs|
  {
    if e.Member? { StoppedSchedulesNothing(g.workers[e.worker], e.event); }
    hide Inv;
  }

  /** What add gives: nothing when the group is stopped, and otherwise one new member, with a run exactly when it is to run at once. */
  lemma AddGives(groups: seq<Group>, events: seq<GroupEvent>, n: nat)
    requires IsGroupRun(groups, events) && n < |events| && events[n].Add?
    ensures groups[n].stopped ==> groups[n + 1] == groups[n]
    ensures !groups[n].stopped ==>
              var before, after := groups[n].workers, groups[n + 1].workers;
              && !groups[n + 1].stopped && |after| == |before| + 1 && after[..|before|] == before
              && !after[|before|].stopped && after[|before|].runs == if events[n].immediately then [Scheduled] else []
  {
    assert GroupEnabled(groups[n], events[n]) && groups[n + 1] == GroupApply(groups[n], events[n]);
  }

  /** From the stop on, no member is added and no run is scheduled any more. */
  lemma {:induction false} NothingScheduledAfterStop(groups: seq<Group>, events: seq<GroupEvent>, from: nat, to: nat)
    requires IsGroupRun(groups, events) && from <= to < |groups| && groups[from].stopped
    ensures groups[to].stopped && |groups[to].workers| == |groups[from].workers|
    ensures forall i :: 0 <= i < |groups[from].workers| ==> |groups[to].workers[i].runs| == |groups[from].workers[i].runs|
  {
    if from == to {
    } else {
      NothingScheduledAfterStop(groups, events, from, to - 1);
      GroupRunKeepsInv(groups, events, to - 1);
      hide GroupInv, GroupEnabled, GroupApply;
      StoppedGroupStep(groups[to - 1], events[to - 1]);
    }
  }

  /** Once the group's stop has resolved, no member run is in progress, then or ever after. */
  lemma ResolvedStopIsQuiet(groups: seq<Group>, events: seq<GroupEvent>, from: nat, to: nat, i: nat, j: nat)
    requires IsGroupRun(groups, events) && from <= to < |groups| && GroupStopResolved(groups[from]) && RunsOf(groups[to], i, j)
    ensures groups[to].workers[i].runs[j].Settled?
  {
    NothingScheduledAfterStop(groups, events, from, to);
    GroupRunKeepsInv(groups, events, from);
    ResolvedMeansQuiet(groups[from].workers[i]);
    SettledStays(groups, events, from, to, i, j);
  }

  lemma SettledStep(g: Group, e: GroupEvent, i: nat, j: nat)
    requires GroupEnabled(g, e) && GroupInv(g) && g.stopped && RunsOf(g, i, j) && g.workers[i].runs[j].Settled?
    ensures RunsOf(GroupApply(g, e), i, j) && GroupApply(g, e).workers[i].runs[j] == g.workers[i].runs[j]
  {
    if e.Member? { StoppedSchedulesNothing(g.workers[e.worker], e.event); }
    hide Inv;
  }

  lemma {:induction false} SettledStays(groups: seq<Group>, events: seq<GroupEvent>, from: nat, to: nat, i: nat, j: nat)
    requires IsGroupRun(groups, events) && from <= to < |groups| && groups[from].stopped
    requires RunsOf(groups[from], i, j) && groups[from].workers[i].runs[j].Settled?
    ensures RunsOf(groups[to], i, j) && groups[to].workers[i].runs[j].Settled?
  {
    if from == to {
    } else {
      SettledStays(groups, events, from, to - 1, i, j);
      NothingScheduledAfterStop(groups, events, from, to - 1);
      GroupRunKeepsInv(groups, events, to - 1);
      hide GroupInv, GroupEnabled, GroupApply;
      SettledStep(groups[to - 1], events[to - 1], i, j);
    }
  }

  // ---------------------------------------------------------------- what still begins after the stop

  predicate Queued(g: Group, i: nat, j: nat) {
    RunsOf(g, i, j) && g.workers[i].runs[j].Scheduled?
  }

  lemma QueuedStep(g: Group, e: GroupEvent, i: nat, j: nat)
    requires GroupEnabled(g, e) && GroupInv(g) && g.stopped
    ensures Queued(GroupApply(g, e), i, j) <==> Queued(g, i, j) && e != Member(i, Begin(j))
  {
    if e.Member? { StoppedSchedulesNothing(g.workers[e.worker], e.event); }
    hide Inv;
  }

  /**
   Stopping takes no queued microtask back. At any moment after a group's stop a callback can begin exactly
   when its run was queued at the stop and has not begun since.
   */
  lemma {:induction false} BeginsAfterStopIff(groups: seq<Group>, events: seq<GroupEvent>, from: nat, to: nat, i: nat, j: nat)
    requires IsGroupRun(groups, events) && from <= to < |groups| && groups[from].stopped
    ensures GroupEnabled(groups[to], Member(i, Begin(j))) <==>
            Queued(groups[from], i, j) && forall m :: from <= m < to ==> events[m] != Member(i, Begin(j))
  {
    QueuedIsEnabled(groups[to], i, j);
    hide GroupInv, GroupEnabled, GroupApply, Queued;
    if from == to {
    } else {
      BeginsAfterStopIff(groups, events, from, to - 1, i, j);
      QueuedIsEnabled(groups[to - 1], i, j);
      NothingScheduledAfterStop(groups, events, from, to - 1);
      GroupRunKeepsInv(groups, events, to - 1);
      assert GroupEnabled(groups[to - 1], events[to - 1]) && groups[to] == GroupApply(groups[to - 1], events[to - 1]);
      hide IsGroupRun;
      QueuedStep(groups[to - 1], events[to - 1], i, j);
    }
  }

  lemma QueuedIsEnabled(g: Group, i: nat, j: nat)
    ensures GroupEnabled(g, Member(i, Begin(j))) <==> Queued(g, i, j)
  {}

  /** And that is at most one run of each member. */
  lemma OneQueuedRun(groups: seq<Group>, events: seq<GroupEvent>, n: nat, i: nat, j: nat, k: nat)
    requires IsGroupRun(groups, events) && n < |groups| && Queued(groups[n], i, j) && Queued(groups[n], i, k)
    ensures j == k
  {
    GroupRunKeepsInv(groups, events, n);
    hide IsGroupRun;
    assert Inv(groups[n].workers[i]);
  }

  /** Such a run exists: a member that runs immediately, stopped at once, still begins. */
  lemma QueuedAtStop() returns (groups: seq<Group>, events: seq<GroupEvent>)
    ensures IsGroupRun(groups, events) && |events| == 2 && groups[2].stopped && Queued(groups[2], 0, 0)
  {
    var g := GroupApply(EMPTY_GROUP, Add(true));
    groups, events := [EMPTY_GROUP, g, GroupApply(g, StopAll)], [Add(true), StopAll];
  }

  // ---------------------------------------------------------------- onError that throws

  ghost predicate NoThrow(events: seq<GroupEvent>, n: nat)
    requires n <= |events|
  {
    forall i :: 0 <= i < n && events[i].Member? && events[i].event.Handle? ==> !events[i].event.throws
  }

  predicate Rejecting(r: Run) {
    (r.Settling? || r.Settled?) && r.rejected
  }

  ghost predicate NoneRejected(g: Group) {
    forall i, j :: RunsOf(g, i, j) ==> !Rejecting(g.workers[i].runs[j])
  }

  /** As long as onError never throws, no stop rejects. */
  lemma {:induction false} OnlyThrowingRejects(groups: seq<Group>, events: seq<GroupEvent>, n: nat)
    requires IsGroupRun(groups, events) && n < |groups| && NoThrow(events, n)
    ensures NoneRejected(groups[n]) && !GroupStopRejected(groups[n])
  {
    if n > 0 {
      OnlyThrowingRejects(groups, events, n - 1);
      var g, e := groups[n - 1], events[n - 1];
      assert groups[n] == GroupApply(g, e);
      NoneRejectedStep(g, e);
    }
    assert NoneRejected(groups[n]);
    hide IsGroupRun;
    forall i | 0 <= i < |groups[n].workers| ensures !StopRejected(groups[n].workers[i]) {
      var w := groups[n].workers[i];
      if w.awaited.Some? && w.awaited.value.Some? && w.awaited.value.value < |w.runs| {
        assert RunsOf(groups[n], i, w.awaited.value.value);
      }
    }
  }

  lemma NoneRejectedStep(g: Group, e: GroupEvent)
    requires GroupEnabled(g, e) && NoneRejected(g) && (e.Member? && e.event.Handle? ==> !e.event.throws)
    ensures NoneRejected(GroupApply(g, e))
  {
    var t := GroupApply(g, e);
    forall i, j | RunsOf(t, i, j) ensures !Rejecting(t.workers[i].runs[j]) {
      if RunsOf(g, i, j) { assert !Rejecting(g.workers[i].runs[j]); }
    }
  }

  const QUEUED := Worker([Scheduled], Some(0), false, None)
  const BUSY := Worker([Running], Some(0), false, None)
  const WAITING := Worker([Running], Some(0), true, Some(Some(0)))

  lemma PathToBusy()
    ensures Apply(STARTED, Tick) == QUEUED
    ensures Enabled(QUEUED, Begin(0)) && Apply(QUEUED, Begin(0)) == BUSY && Apply(BUSY, Stop) == WAITING
  {
    assert [Scheduled][0 := Running] == [Running];
  }

  lemma PathToRejected()
    ensures Enabled(WAITING, Fail(0)) && Apply(WAITING, Fail(0)) == WAITING.(runs := [Failed])
    ensures Enabled(WAITING.(runs := [Failed]), Handle(0, true))
    ensures Apply(WAITING.(runs := [Failed]), Handle(0, true)) == WAITING.(runs := [Settling(true)])
    ensures Enabled(WAITING.(runs := [Settling(true)]), Finally(0))
    ensures Apply(WAITING.(runs := [Settling(true)]), Finally(0)) == WAITING.(runs := [Settled(true)], current := None)
  {
    assert [Running][0 := Failed] == [Failed];
    assert [Failed][0 := Settling(true)] == [Settling(true)];
    assert [Settling(true)][0 := Settled(true)] == [Settled(true)];
  }

  /** The first of two members is replaced, or the second. */
  lemma FirstOfTwo(a: Worker, b: Worker, stopped: bool, e: Event)
    requires Enabled(a, e) && !e.Stop?
    ensures GroupEnabled(Group([a, b], stopped), Member(0, e))
    ensures GroupApply(Group([a, b], stopped), Member(0, e)) == Group([Apply(a, e), b], stopped)
  {
    hide Apply, Enabled;
    assert [a, b][0 := Apply(a, e)] == [Apply(a, e), b];
  }

  lemma SecondOfTwo(a: Worker, b: Worker, stopped: bool, e: Event)
    requires Enabled(b, e) && !e.Stop?
    ensures GroupEnabled(Group([a, b], stopped), Member(1, e))
    ensures GroupApply(Group([a, b], stopped), Member(1, e)) == Group([a, Apply(b, e)], stopped)
  {
    hide Apply, Enabled;
    assert [a, b][1 := Apply(b, e)] == [a, Apply(b, e)];
  }

  /** When onError throws, the group's stop rejects while another member is still running. */
  lemma RejectedStopMayBeBusy() returns (groups: seq<Group>, events: seq<GroupEvent>)
    ensures IsGroupRun(groups, events) && |events| == 8
    ensures var end := groups[8]; GroupStopRejected(end) && |end.workers| == 2 && end.workers[1].runs == [Running]
  {
    events := [Add(true), Add(true), Member(0, Begin(0)), Member(1, Begin(0)), StopAll,
               Member(0, Fail(0)), Member(0, Handle(0, true)), Member(0, Finally(0))];
    PathToBusy();
    PathToRejected();
    hide Apply, Enabled;
    var settled := WAITING.(runs := [Settled(true)], current := None);
    FirstOfTwo(QUEUED, QUEUED, false, Begin(0));
    SecondOfTwo(BUSY, QUEUED, false, Begin(0));
    assert StopWorkers([BUSY, BUSY]) == [WAITING, WAITING];
    FirstOfTwo(WAITING, WAITING, true, Fail(0));
    FirstOfTwo(WAITING.(runs := [Failed]), WAITING, true, Handle(0, true));
    FirstOfTwo(WAITING.(runs := [Settling(true)]), WAITING, true, Finally(0));
    assert [] + [QUEUED] == [QUEUED] && [QUEUED] + [QUEUED] == [QUEUED, QUEUED];
    groups := [EMPTY_GROUP, Group([QUEUED], false), Group([QUEUED, QUEUED], false), Group([BUSY, QUEUED], false),
               Group([BUSY, BUSY], false), Group([WAITING, WAITING], true), Group([WAITING.(runs := [Failed]), WAITING], true),
               Group([WAITING.(runs := [Settling(true)]), WAITING], true), Group([settled, WAITING], true)];
    assert StopRejected(groups[8].workers[0]);
  }
}
