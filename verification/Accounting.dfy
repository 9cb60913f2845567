/**
 Request accounting and the owners of the profiler timer (app/memoryProfiler.ts). A request keeps the
 counters it was started on, so requests may outlive the profiling session that tracked them.
 */
module Accounting {
  import opened Wrappers

  /**
   The counters of one service. The record of methods and status classes is kept as the multiset of what
   was counted. `before` is not in the code: it is the in-flight number at the last reset.
   */
  datatype Stats = Stats(started: nat, completed: nat, aborted: nat, inFlight: nat,
                         methods: multiset<string>, statusClasses: multiset<string>, before: nat)

  const NEW_STATS := Stats(0, 0, 0, 0, multiset{}, multiset{}, 0)

  datatype Request = Request(stats: nat, settled: bool)

  /** A handle of a disabled profiler has no owner. */
  datatype Handle = Handle(owner: Option<nat>, stopped: bool)

  /** `services` is requestStatsByService; `stats` holds every counter object ever created. */
  datatype State = State(stats: seq<Stats>, services: map<string, nat>, requests: seq<Request>,
                         runtime: bool, timer: bool, owners: set<nat>, handles: seq<Handle>)

  const INITIAL := State([], map[], [], false, false, {}, [])

  datatype Event =
    | Start(memory: bool, runtime: bool)          // what the environment enables
    | StopHandle(handle: nat)
    | StopProfiler
    | Track(service: string, verb: string)
    | Settle(request: nat, aborted: bool, statusClass: string)   // the finish or close event of a response
    | Snapshot

  predicate Enabled(s: State, e: Event) {
    match e
    case StopHandle(h) => h < |s.handles|
    case Settle(r, _, _) => r < |s.requests| && s.requests[r].stats < |s.stats|
    case Track(service, _) => service in s.services ==> s.services[service] < |s.stats|
    case Snapshot => forall name :: name in s.services ==> s.services[name] < |s.stats|
    case _ => true
  }

  function Reset(st: Stats): Stats {
    st.(started := 0, completed := 0, aborted := 0, methods := multiset{}, statusClasses := multiset{}, before := st.inFlight)
  }

  function ResetCurrent(s: State): seq<Stats> {
    seq(|s.stats|, i requires 0 <= i < |s.stats| => if i in s.services.Values then Reset(s.stats[i]) else s.stats[i])
  }

  /** stopMemoryProfilerRuntime */
  function StopRuntime(s: State): State {
    s.(timer := false, runtime := false, services := map[])
  }

  function SettleStats(st: Stats, aborted: bool, statusClass: string): Stats {
    var inFlight := if st.inFlight > 0 then st.inFlight - 1 else 0;   // Math.max(0, inFlight - 1)
    if aborted then st.(inFlight := inFlight, aborted := st.aborted + 1)
    else st.(inFlight := inFlight, completed := st.completed + 1, statusClasses := st.statusClasses + multiset{statusClass})
  }

  function TrackStats(st: Stats, verb: string): Stats {
    st.(started := st.started + 1, inFlight := st.inFlight + 1, methods := st.methods + multiset{verb})
  }

  function AddOwner(s: State): State {
    var owner := |s.handles|;
    s.(owners := s.owners + {owner}, handles := s.handles + [Handle(Some(owner), false)])
  }

  function Apply(s: State, e: Event): State
    requires Enabled(s, e)
  {
    match e
    case Start(memory, runtime) =>
      if s.timer then AddOwner(s)
      else if !memory && !runtime then s.(runtime := false, handles := s.handles + [Handle(None, false)])
      else
        var t := s.(runtime := runtime);
        AddOwner(t.(stats := if runtime then ResetCurrent(t) else t.stats, timer := true))
    case StopHandle(h) =>
      var handle := s.handles[h];
      if handle.stopped || handle.owner.None? then s
      else
        var t := s.(handles := s.handles[h := handle.(stopped := true)], owners := s.owners - {handle.owner.value});
        if t.owners == {} then StopRuntime(t) else t
    case StopProfiler => StopRuntime(s.(owners := {}))
    case Track(service, verb) =>
      if !s.runtime then s
      else if service in s.services
      then
        var i := s.services[service];
        s.(stats := s.stats[i := TrackStats(s.stats[i], verb)], requests := s.requests + [Request(i, false)])
      else
        var i := |s.stats|;
        s.(stats := s.stats + [TrackStats(NEW_STATS, verb)], services := s.services[service := i],
           requests := s.requests + [Request(i, false)])
    case Settle(r, aborted, statusClass) =>
      var request := s.requests[r];
      if request.settled then s
      else
        s.(stats := s.stats[request.stats := SettleStats(s.stats[request.stats], aborted, statusClass)],
           requests := s.requests[r := request.(settled := true)])
    case Snapshot =>
      if !s.runtime then s else s.(stats := ResetCurrent(s))
  }

  // ---------------------------------------------------------------- invariants

  /** The requests counted on these counters that have neither finished nor closed. */
  function Unsettled(requests: seq<Request>, stats: nat): nat {
    if requests == [] then 0
    else
      var r := requests[|requests| - 1];
      Unsettled(requests[..|requests| - 1], stats) + if r.stats == stats && !r.settled then 1 else 0
  }

  ghost predicate StatsOk(s: State, i: nat)
    requires i < |s.stats|
  {
    var st := s.stats[i];
    && st.inFlight == Unsettled(s.requests, i)
    && st.before + st.started == st.inFlight + st.completed + st.aborted
    && |st.methods| == st.started && |st.statusClasses| == st.completed
  }

  ghost predicate TimerOk(s: State) {
    && (s.timer <==> s.owners != {})
    && (s.runtime ==> s.timer) && (s.services != map[] ==> s.runtime)
    && (forall o :: o in s.owners ==> o < |s.handles| && s.handles[o] == Handle(Some(o), false))
    && (forall h :: 0 <= h < |s.handles| && s.handles[h].owner.Some? ==> s.handles[h].owner.value == h)
  }

  ghost predicate Inv(s: State) {
    && (forall i :: 0 <= i < |s.stats| ==> StatsOk(s, i))
    && (forall r :: 0 <= r < |s.requests| ==> s.requests[r].stats < |s.stats|)
    && (forall name :: name in s.services ==> s.services[name] < |s.stats|)
    && (forall a, b :: a in s.services && b in s.services && s.services[a] == s.services[b] ==> a == b)
    && TimerOk(s)
  }

  ghost predicate IsRun(states: seq<State>, events: seq<Event>) {
    && |states| == |events| + 1 && states[0] == INITIAL
    && forall i :: 0 <= i < |events| ==> Enabled(states[i], events[i]) && states[i + 1] == Apply(states[i], events[i])
  }

  lemma UnsettledPush(requests: seq<Request>, r: Request, stats: nat)
    ensures Unsettled(requests + [r], stats) == Unsettled(requests, stats) + if r.stats == stats && !r.settled then 1 else 0
  {
    assert (requests + [r])[..|requests|] == requests;
  }

  lemma {:induction false} UnsettledSettle(requests: seq<Request>, r: nat, stats: nat)
    requires r < |requests| && !requests[r].settled
    ensures Unsettled(requests, stats) ==
            Unsettled(requests[r := requests[r].(settled := true)], stats) + if requests[r].stats == stats then 1 else 0
  {
    var after := requests[r := requests[r].(settled := true)];
    var last := |requests| - 1;
    if r < last {
      assert after[..last] == requests[..last][r := requests[r].(settled := true)];
      UnsettledSettle(requests[..last], r, stats);
    } else {
      assert after[..last] == requests[..last];
    }
  }

  lemma {:induction false} UnsettledNone(requests: seq<Request>, stats: nat)
    requires forall r :: 0 <= r < |requests| ==> requests[r].stats < stats
    ensures Unsettled(requests, stats) == 0
  {
    if requests == [] {
    } else {
      UnsettledNone(requests[..|requests| - 1], stats);
    }
  }

  lemma StepKeepsTimer(s: State, e: Event)
    requires Enabled(s, e) && TimerOk(s)
    ensures TimerOk(Apply(s, e))
  {}

  lemma TrackKeepsStats(s: State, service: string, verb: string, i: nat)
    requires Enabled(s, Track(service, verb)) && Inv(s) && s.runtime && i < |Apply(s, Track(service, verb)).stats|
    ensures StatsOk(Apply(s, Track(service, verb)), i)
  {
    hide TimerOk, Unsettled;
    var t := Apply(s, Track(service, verb));
    if i < |s.stats| { assert StatsOk(s, i); } else { UnsettledNone(s.requests, i); }
    UnsettledPush(s.requests, t.requests[|s.requests|], i);
  }

  lemma SettleKeepsStats(s: State, e: Event, i: nat)
    requires e.Settle? && Enabled(s, e) && Inv(s) && !s.requests[e.request].settled && i < |s.stats|
    ensures StatsOk(Apply(s, e), i)
  {
    hide TimerOk, Unsettled;
    assert StatsOk(s, i);
    UnsettledSettle(s.requests, e.request, i);
  }

  lemma StepKeepsStats(s: State, e: Event, i: nat)
    requires Enabled(s, e) && Inv(s) && i < |Apply(s, e).stats|
    ensures StatsOk(Apply(s, e), i)
  {
    hide TimerOk, Unsettled;
    match e {
      case Track(service, verb) => if s.runtime { TrackKeepsStats(s, service, verb, i); } else { assert StatsOk(s, i); }
      case Settle(r, _, _) => if s.requests[r].settled { assert StatsOk(s, i); } else { SettleKeepsStats(s, e, i); }
      case _ => assert StatsOk(s, i);
    }
  }

  lemma StepKeepsInv(s: State, e: Event)
    requires Enabled(s, e) && Inv(s)
    ensures Inv(Apply(s, e))
  {
    StepKeepsTimer(s, e);
    var t := Apply(s, e);
    forall i | 0 <= i < |t.stats| ensures StatsOk(t, i) { StepKeepsStats(s, e, i); }
    hide StatsOk, TimerOk;
  }

  lemma {:induction false} RunKeepsInv(states: seq<State>, events: seq<Event>, n: nat)
    requires IsRun(states, events) && n < |states|
    ensures Inv(states[n])
  {
    if n == 0 {
    } else {
      RunKeepsInv(states, events, n - 1);
      hide Inv, Enabled, Apply;
      StepKeepsInv(states[n - 1], events[n - 1]);
    }
  }

  // ---------------------------------------------------------------- over every run

  /** In flight is the number of requests that started on these counters and are not settled. */
  lemma InFlightIsUnsettled(states: seq<State>, events: seq<Event>, n: nat, i: nat)
    requires IsRun(states, events) && n < |states| && i < |states[n].stats|
    ensures states[n].stats[i].inFlight == Unsettled(states[n].requests, i)
  {
    RunKeepsInv(states, events, n);
    hide IsRun;
    assert StatsOk(states[n], i);
  }

  /** Settling a request never finds zero in flight, so the clamp at zero does nothing. */
  lemma ClampNeverActs(states: seq<State>, events: seq<Event>, n: nat)
    requires IsRun(states, events) && n < |events| && events[n].Settle? && !states[n].requests[events[n].request].settled
    ensures var i := states[n].requests[events[n].request].stats;
            states[n].stats[i].inFlight > 0 && states[n + 1].stats[i].inFlight == states[n].stats[i].inFlight - 1
  {
    RunKeepsInv(states, events, n);
    var s, e := states[n], events[n];
    assert s.requests[e.request].stats < |s.stats| && StatsOk(s, s.requests[e.request].stats);
    UnsettledSettle(s.requests, e.request, s.requests[e.request].stats);
    assert states[n + 1] == Apply(s, e);
  }

  /** The timer is live exactly when some handle owns it. */
  lemma TimerIffOwner(states: seq<State>, events: seq<Event>, n: nat)
    requires IsRun(states, events) && n < |states|
    ensures states[n].timer <==> exists h :: 0 <= h < |states[n].handles| && h in states[n].owners
    ensures forall h: nat :: h in states[n].owners ==>
              h < |states[n].handles| && states[n].handles[h].owner == Some(h) && !states[n].handles[h].stopped
  {
    RunKeepsInv(states, events, n);
    hide IsRun, StatsOk;
    var s := states[n];
    if s.owners != {} {
      var o :| o in s.owners;
      assert o < |s.handles|;
    }
  }

  /** No snapshot is taken and the profiler keeps running; handles may come and go. */
  ghost predicate SameInterval(states: seq<State>, events: seq<Event>, from: nat, to: nat)
    requires from <= to < |states| && to <= |events|
  {
    (forall i :: from <= i < to ==> !events[i].Snapshot?) && forall i :: from <= i <= to ==> states[i].runtime
  }

  /** The service keeps its counter object, and its interval goes on. */
  ghost predicate Continues(s: State, t: State, name: string) {
    && name in s.services && name in t.services && t.services[name] == s.services[name]
    && s.services[name] < |s.stats| && s.services[name] < |t.stats|
    && t.stats[s.services[name]].before == s.stats[s.services[name]].before
  }

  lemma StepContinues(s: State, e: Event, name: string)
    requires Enabled(s, e) && Inv(s) && !e.Snapshot? && s.runtime && Apply(s, e).runtime && name in s.services
    ensures Continues(s, Apply(s, e), name)
  {
    hide StatsOk;
  }

  lemma ContinuesSelf(s: State, name: string)
    requires Inv(s) && name in s.services
    ensures Continues(s, s, name)
  {
    hide StatsOk, TimerOk;
  }

  lemma ContinuesTwice(s: State, t: State, u: State, name: string)
    requires Continues(s, t, name) && Continues(t, u, name)
    ensures name in t.services && Continues(s, u, name)
  {}

  lemma ContinuesHas(s: State, t: State, name: string)
    requires Continues(s, t, name)
    ensures name in t.services
  {}

  lemma {:induction false} IntervalContinues(states: seq<State>, events: seq<Event>, from: nat, to: nat, name: string)
    requires IsRun(states, events) && from <= to <= |events| && SameInterval(states, events, from, to)
    requires name in states[from].services
    ensures Continues(states[from], states[to], name)
  {
    hide Inv, Apply, Enabled, Continues;
    if from == to {
      RunKeepsInv(states, events, from);
      ContinuesSelf(states[from], name);
    } else {
      IntervalContinues(states, events, from, to - 1, name);
      RunKeepsInv(states, events, to - 1);
      assert states[to - 1].runtime && states[to].runtime;
      ContinuesHas(states[from], states[to - 1], name);
      StepContinues(states[to - 1], events[to - 1], name);
      ContinuesTwice(states[from], states[to - 1], states[to], name);
    }
  }

  /** What a snapshot taken in this state reports for a service. */
  function Reported(s: State, name: string): Option<Stats> {
    if s.runtime && name in s.services && s.services[name] < |s.stats| then Some(s.stats[s.services[name]]) else None
  }

  /**
   Across two consecutive snapshots no request is lost or counted twice: the in-flight number of the
   first, plus what started, less what completed or aborted, is the in-flight number of the second.
   */
  lemma SnapshotsBalance(states: seq<State>, events: seq<Event>, first: nat, second: nat, name: string)
    requires IsRun(states, events) && first < second < |events| && events[first].Snapshot? && events[second].Snapshot?
    requires SameInterval(states, events, first + 1, second)
    requires Reported(states[first], name).Some?
    ensures Reported(states[second], name).Some?
    ensures var a, b := Reported(states[first], name).value, Reported(states[second], name).value;
            a.inFlight + b.started == b.completed + b.aborted + b.inFlight
  {
    RunKeepsInv(states, events, first);
    RunKeepsInv(states, events, second);
    var i := states[first].services[name];
    SnapshotResets(states[first], name);
    assert states[first + 1] == Apply(states[first], events[first]);
    IntervalContinues(states, events, first + 1, second, name);
    hide IsRun, Apply, TimerOk, Unsettled;
    assert StatsOk(states[second], i);
  }

  lemma SnapshotResets(s: State, name: string)
    requires Enabled(s, Snapshot) && Reported(s, name).Some?
    ensures var t := Apply(s, Snapshot);
            t.runtime && name in t.services && t.services[name] == s.services[name] && |t.stats| == |s.stats|
            && t.stats[s.services[name]].before == Reported(s, name).value.inFlight
  {
    assert s.services[name] in s.services.Values;
  }

  // ---------------------------------------------------------------- what the counters count

  /** The event starts a request on these counters. */
  ghost predicate StartsOn(s: State, e: Event, i: nat) {
    e.Track? && s.runtime && if e.service in s.services then s.services[e.service] == i else |s.stats| == i
  }

  /** The event is the first end of a request that was started on these counters. */
  ghost predicate EndsOn(s: State, e: Event, i: nat, aborted: bool) {
    e.Settle? && e.request < |s.requests| && !s.requests[e.request].settled && s.requests[e.request].stats == i && e.aborted == aborted
  }

  ghost function VerbOf(s: State, e: Event, i: nat): multiset<string> {
    if StartsOn(s, e, i) then multiset{e.verb} else multiset{}
  }

  ghost function ClassOf(s: State, e: Event, i: nat): multiset<string> {
    if EndsOn(s, e, i, false) then multiset{e.statusClass} else multiset{}
  }

  ghost function AbortOf(s: State, e: Event, i: nat): nat {
    if EndsOn(s, e, i, true) then 1 else 0
  }

  ghost function Verbs(states: seq<State>, events: seq<Event>, from: nat, to: nat, i: nat): multiset<string>
    requires from <= to <= |events| && |events| < |states|
  {
    if from == to then multiset{} else Verbs(states, events, from, to - 1, i) + VerbOf(states[to - 1], events[to - 1], i)
  }

  /** The status classes of the requests that ended without being aborted. */
  ghost function Classes(states: seq<State>, events: seq<Event>, from: nat, to: nat, i: nat): multiset<string>
    requires from <= to <= |events| && |events| < |states|
  {
    if from == to then multiset{} else Classes(states, events, from, to - 1, i) + ClassOf(states[to - 1], events[to - 1], i)
  }

  ghost function Aborts(states: seq<State>, events: seq<Event>, from: nat, to: nat, i: nat): nat
    requires from <= to <= |events| && |events| < |states|
  {
    if from == to then 0 else Aborts(states, events, from, to - 1, i) + AbortOf(states[to - 1], events[to - 1], i)
  }

  /** `after` is `before` with these verbs started, these classes completed and so many aborted. */
  ghost predicate Adds(before: Stats, after: Stats, verbs: multiset<string>, classes: multiset<string>, aborts: nat) {
    && after.methods == before.methods + verbs && after.started == before.started + |verbs|
    && after.statusClasses == before.statusClasses + classes && after.completed == before.completed + |classes|
    && after.aborted == before.aborted + aborts
  }

  lemma StepAdds(s: State, e: Event, i: nat)
    requires Inv(s) && Enabled(s, e) && !e.Snapshot? && s.runtime && i < |s.stats|
    ensures i < |Apply(s, e).stats|
    ensures Adds(s.stats[i], Apply(s, e).stats[i], VerbOf(s, e, i), ClassOf(s, e, i), AbortOf(s, e, i))
  {
    assert s.timer;
    hide StatsOk;
  }

  lemma AddsTwice(a: Stats, b: Stats, c: Stats, v: multiset<string>, w: multiset<string>, x: multiset<string>, y: multiset<string>,
                  m: nat, n: nat)
    requires Adds(a, b, v, x, m) && Adds(b, c, w, y, n)
    ensures Adds(a, c, v + w, x + y, m + n)
  {}

  /**
   Between two snapshots the counters of a service say exactly what happened: the methods of the requests that were
   started, the status classes of those that completed, and how many were aborted, each counted at its first end.
   */
  lemma {:induction false} IntervalCounts(states: seq<State>, events: seq<Event>, from: nat, to: nat, i: nat)
    requires IsRun(states, events) && from <= to <= |events| && SameInterval(states, events, from, to) && i < |states[from].stats|
    ensures i < |states[to].stats|
    ensures Adds(states[from].stats[i], states[to].stats[i], Verbs(states, events, from, to, i),
                 Classes(states, events, from, to, i), Aborts(states, events, from, to, i))
  {
    hide Inv, Apply, Enabled, VerbOf, ClassOf, AbortOf;
    if from == to {
    } else {
      IntervalCounts(states, events, from, to - 1, i);
      RunKeepsInv(states, events, to - 1);
      assert states[to - 1].runtime;
      var s, e := states[to - 1], events[to - 1];
      StepAdds(s, e, i);
      hide Adds;
      AddsTwice(states[from].stats[i], s.stats[i], states[to].stats[i], Verbs(states, events, from, to - 1, i), VerbOf(s, e, i),
                Classes(states, events, from, to - 1, i), ClassOf(s, e, i), Aborts(states, events, from, to - 1, i), AbortOf(s, e, i));
    }
  }

  /** A snapshot of the running profiler starts every service's counters again, all but the requests in flight. */
  lemma SnapshotClears(states: seq<State>, events: seq<Event>, n: nat, name: string)
    requires IsRun(states, events) && n < |events| && events[n].Snapshot? && states[n].runtime && name in states[n].services
    ensures var i := states[n].services[name];
            && i < |states[n].stats| == |states[n + 1].stats|
            && states[n + 1].stats[i].inFlight == states[n].stats[i].inFlight
            && Adds(NEW_STATS, states[n + 1].stats[i], multiset{}, multiset{}, 0)
  {
    RunKeepsInv(states, events, n);
    assert Enabled(states[n], events[n]) && states[n + 1] == Apply(states[n], events[n]);
    assert states[n].services[name] in states[n].services.Values;
    hide StatsOk, TimerOk;
  }

  /** Counters that no service has any more change only when a request that was counted on them ends. */
  lemma OldCountersStay(states: seq<State>, events: seq<Event>, n: nat, i: nat)
    requires IsRun(states, events) && n < |events| && i < |states[n].stats| && i !in states[n].services.Values
    requires forall aborted :: !EndsOn(states[n], events[n], i, aborted)
    ensures i < |states[n + 1].stats| && states[n + 1].stats[i] == states[n].stats[i]
  {
    RunKeepsInv(states, events, n);
    assert Enabled(states[n], events[n]) && states[n + 1] == Apply(states[n], events[n]);
    if events[n].Settle? { assert !EndsOn(states[n], events[n], i, events[n].aborted); }
    hide StatsOk;
  }

  /**
   Starting the profiler gives a handle, which owns the timer unless nothing is enabled and nobody else owns it; only
   the first owner decides whether requests are counted.
   */
  lemma StartGives(states: seq<State>, events: seq<Event>, n: nat)
    requires IsRun(states, events) && n < |events| && events[n].Start?
    ensures var s, t, e := states[n], states[n + 1], events[n];
            && |t.handles| == |s.handles| + 1 && !t.handles[|s.handles|].stopped
            && (t.handles[|s.handles|].owner.Some? <==> s.timer || e.memory || e.runtime)
            && (t.timer <==> s.timer || e.memory || e.runtime)
            && t.owners == s.owners + (if t.timer then {|s.handles|} else {})
            && (t.runtime <==> if s.timer then s.runtime else e.runtime)
  {
    RunKeepsInv(states, events, n);
    assert Enabled(states[n], events[n]) && states[n + 1] == Apply(states[n], events[n]);
    hide StatsOk;
  }

  /**
   Stopping takes the owner of one handle away, or every owner; without owners nothing is timed or counted any more,
   and with one left everything goes on. The counters themselves stay with their requests.
   */
  lemma StopGives(states: seq<State>, events: seq<Event>, n: nat)
    requires IsRun(states, events) && n < |events| && (events[n].StopHandle? || events[n].StopProfiler?)
    ensures var s, t := states[n], states[n + 1];
            && t.owners == (if events[n].StopHandle? then s.owners - {events[n].handle} else {})
            && (t.timer <==> t.owners != {}) && (t.runtime <==> s.runtime && t.owners != {})
            && t.services == (if t.owners != {} then s.services else map[])
            && t.stats == s.stats && t.requests == s.requests && |t.handles| == |s.handles|
            && forall h :: 0 <= h < |s.handles| ==>
                 && t.handles[h].owner == s.handles[h].owner
                 && (t.handles[h].stopped <==> s.handles[h].stopped || (events[n] == StopHandle(h) && s.handles[h].owner.Some?))
  {
    RunKeepsInv(states, events, n);
    assert Enabled(states[n], events[n]) && states[n + 1] == Apply(states[n], events[n]);
    hide StatsOk;
  }

  // ---------------------------------------------------------------- the module's variables

  class MemoryProfiler {
    var stats: seq<Stats>
    var requestStatsByService: map<string, nat>
    var requests: seq<Request>
    var runtimeProfilerEnabled: bool
    var profilerTimer: bool
    var profilerOwners: set<nat>
    var handles: seq<Handle>

    function View(): State
      reads this
    {
      State(stats, requestStatsByService, requests, runtimeProfilerEnabled, profilerTimer, profilerOwners, handles)
    }

    ghost predicate Valid()
      reads this
    {
      Inv(View())
    }

    constructor ()
      ensures Valid() && View() == INITIAL
    {
      stats, requestStatsByService, requests := [], map[], [];
      runtimeProfilerEnabled, profilerTimer, profilerOwners, handles := false, false, {}, [];
    }

    /** The request gets its number; none when the runtime profiler is off. */
    method TrackRuntimeHttpRequest(service: string, verb: string) returns (request: Option<nat>)
      requires Valid()
      modifies this
      ensures Valid() && View() == Apply(old(View()), Track(service, verb))
      ensures request == if old(runtimeProfilerEnabled) then Some(|old(requests)|) else None
    {
      StepKeepsInv(View(), Track(service, verb));
      hide Inv;
      if !runtimeProfilerEnabled {
        return None;
      }
      if service !in requestStatsByService {
        requestStatsByService := requestStatsByService[service := |stats|];
        stats := stats + [NEW_STATS];
      }
      var i := requestStatsByService[service];
      ghost var counted := stats;
      stats := stats[i := TrackStats(stats[i], verb)];
      assert service !in old(requestStatsByService) ==> stats == counted[..i] + [TrackStats(NEW_STATS, verb)];
      request := Some(|requests|);
      requests := requests + [Request(i, false)];
    }

    /** finish or close, whichever comes first; the second is ignored. */
    method Settle(request: nat, aborted: bool, statusClass: string)
      requires Valid() && request < |requests|
      modifies this
      ensures Valid() && old(Enabled(View(), Event.Settle(request, aborted, statusClass)))
      ensures View() == Apply(old(View()), Event.Settle(request, aborted, statusClass))
    {
      assert Enabled(View(), Event.Settle(request, aborted, statusClass));
      StepKeepsInv(View(), Event.Settle(request, aborted, statusClass));
      hide Inv;
      if requests[request].settled {
        return;
      }
      var i := requests[request].stats;
      requests := requests[request := requests[request].(settled := true)];
      stats := stats[i := SettleStats(stats[i], aborted, statusClass)];
    }

    /** takeRequestStatsSnapshot: every service is reported, then its counters start a new interval. */
    method RecordRuntimeSnapshot() returns (report: map<string, Stats>)
      requires Valid()
      modifies this
      ensures Valid() && View() == Apply(old(View()), Snapshot)
      ensures forall name :: name in report <==> old(runtimeProfilerEnabled) && name in requestStatsByService
      ensures forall name :: name in report ==> Some(report[name]) == Reported(old(View()), name)
    {
      StepKeepsInv(View(), Snapshot);
      report := map[];
      if !runtimeProfilerEnabled {
        return;
      }
      report, stats := ReportAndReset(stats, requestStatsByService);
      assert stats == ResetCurrent(old(View()));
    }

    method AddProfilerOwner()
      modifies this
      ensures View() == AddOwner(old(View()))
    {
      var owner := |handles|;
      profilerOwners := profilerOwners + {owner};
      handles := handles + [Handle(Some(owner), false)];
    }

    method StartMemoryProfiler(memory: bool, runtime: bool)
      requires Valid()
      modifies this
      ensures Valid() && View() == Apply(old(View()), Start(memory, runtime))
    {
      StepKeepsInv(View(), Start(memory, runtime));
      if profilerTimer {
        AddProfilerOwner();
        return;
      }
      runtimeProfilerEnabled := runtime;
      if !memory && !runtime {
        handles := handles + [Handle(None, false)];
        return;
      }
      if runtime {
        var _, after := ReportAndReset(stats, requestStatsByService);
        assert after == ResetCurrent(View());
        stats := after;
      }
      profilerTimer := true;
      AddProfilerOwner();
    }

    method StopMemoryProfilerRuntime()
      modifies this
      ensures View() == StopRuntime(old(View()))
    {
      profilerTimer, runtimeProfilerEnabled, requestStatsByService := false, false, map[];
    }

    /** handle.stop() */
    method StopOwner(handle: nat)
      requires Valid() && handle < |handles|
      modifies this
      ensures Valid() && View() == Apply(old(View()), StopHandle(handle))
    {
      StepKeepsInv(View(), StopHandle(handle));
      if handles[handle].stopped || handles[handle].owner.None? {
        return;
      }
      profilerOwners := profilerOwners - {handles[handle].owner.value};
      handles := handles[handle := handles[handle].(stopped := true)];
      if profilerOwners == {} { StopMemoryProfilerRuntime(); }
    }

    method StopMemoryProfiler()
      requires Valid()
      modifies this
      ensures Valid() && View() == Apply(old(View()), StopProfiler)
    {
      StepKeepsInv(View(), StopProfiler);
      profilerOwners := {};
      StopMemoryProfilerRuntime();
    }
  }

  method ReportAndReset(stats: seq<Stats>, services: map<string, nat>) returns (report: map<string, Stats>, after: seq<Stats>)
    requires forall name :: name in services ==> services[name] < |stats|
    requires forall a, b :: a in services && b in services && services[a] == services[b] ==> a == b
    ensures report.Keys == services.Keys && forall name :: name in services ==> report[name] == stats[services[name]]
    ensures |after| == |stats|
    ensures forall i :: 0 <= i < |stats| ==> after[i] == if i in services.Values then Reset(stats[i]) else stats[i]
  {
    hide Reset;
    report, after := map[], stats;
    var pending := services.Keys;
    while pending != {}
      invariant pending <= services.Keys && |after| == |stats|
      invariant report.Keys == services.Keys - pending
      invariant forall name :: name in report ==> report[name] == stats[services[name]]
      invariant forall name :: name in services ==>
                  after[services[name]] == if name in pending then stats[services[name]] else Reset(stats[services[name]])
      invariant forall i :: 0 <= i < |stats| && i !in services.Values ==> after[i] == stats[i]
      decreases pending
    {
      var name :| name in pending;
      report := report[name := after[services[name]]];
      after := after[services[name] := Reset(after[services[name]])];
      pending := pending - {name};
    }
    forall i | 0 <= i < |stats| && i in services.Values ensures after[i] == Reset(stats[i]) {
      var name :| name in services && services[name] == i;
    }
  }
}
