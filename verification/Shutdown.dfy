/**
 Shutting the application down: the stop order of modules and stopModules (app/index.ts), and the
 signal handling around it (app/processShutdown.ts).
 */
module Shutdown {
  // ---------------------------------------------------------------- the stop order

  const DATABASE := "database"
  const INGRESS: seq<string> := ["gateway", "api"]

  function Reverse(names: seq<string>): (r: seq<string>)
    ensures |r| == |names| && forall i :: 0 <= i < |r| ==> r[i] == names[|names| - 1 - i]
  {
    seq(|names|, i requires 0 <= i < |names| => names[|names| - 1 - i])
  }

  function Keep(names: seq<string>, p: string -> bool): seq<string> {
    if names == [] then [] else Keep(names[..|names| - 1], p) + if p(names[|names| - 1]) then [names[|names| - 1]] else []
  }

  predicate Ordinary(name: string) {
    name !in INGRESS && name != DATABASE
  }

  /** getModuleStopOrder */
  function StopOrder(names: seq<string>): seq<string> {
    var reversed := Reverse(names);
    Keep(INGRESS, (n: string) => n in reversed) + Keep(reversed, Ordinary) + Keep(reversed, (n: string) => n == DATABASE)
  }

  lemma {:induction false} KeepCount(names: seq<string>, p: string -> bool, name: string)
    ensures multiset(Keep(names, p))[name] == if p(name) then multiset(names)[name] else 0
  {
    if names == [] {
    } else {
      var front, last := names[..|names| - 1], names[|names| - 1];
      KeepCount(front, p, name);
      assert names == front + [last];
    }
  }

  lemma {:induction false} ReverseCount(names: seq<string>)
    ensures multiset(Reverse(names)) == multiset(names)
  {
    if names == [] {
    } else {
      var front, last := names[..|names| - 1], names[|names| - 1];
      ReverseCount(front);
      assert names == front + [last];
      assert Reverse(names) == [last] + Reverse(front);
    }
  }

  lemma IngressCount(name: string)
    ensures multiset(INGRESS)[name] == if name in INGRESS then 1 else 0
  {
    assert INGRESS == ["gateway"] + ["api"];
    assert "gateway"[0] != "api"[0];
  }

  /** Every module is in the stop order as often as it is configured, except that an ingress module comes only once. */
  lemma StopOrderCount(names: seq<string>, name: string)
    ensures multiset(StopOrder(names))[name] ==
            if name in INGRESS then (if name in names then 1 else 0) else multiset(names)[name]
  {
    var reversed := Reverse(names);
    ReverseCount(names);
    KeepCount(INGRESS, (n: string) => n in reversed, name);
    KeepCount(reversed, Ordinary, name);
    KeepCount(reversed, (n: string) => n == DATABASE, name);
    IngressCount(name);
    assert name in reversed <==> name in multiset(reversed);
    assert name in names <==> name in multiset(names);
    assert DATABASE !in INGRESS;
  }

  /** So it is a permutation of the configuration exactly when no ingress module is configured twice. */
  lemma StopOrderIsPermutationIff(names: seq<string>)
    ensures multiset(StopOrder(names)) == multiset(names) <==> forall n :: n in INGRESS ==> multiset(names)[n] <= 1
  {
    forall n: string
      ensures multiset(StopOrder(names))[n] == if n in INGRESS then (if n in names then 1 else 0) else multiset(names)[n]
    {
      StopOrderCount(names, n);
    }
    hide StopOrder;
    assert forall n: string :: n in names <==> n in multiset(names);
  }

  /** gateway, api, everything else, database. */
  function Stage(name: string): nat {
    if name == "gateway" then 0 else if name == "api" then 1 else if name == "database" then 3 else 2
  }

  lemma {:induction false} KeepHolds(names: seq<string>, p: string -> bool)
    ensures forall i :: 0 <= i < |Keep(names, p)| ==> p(Keep(names, p)[i]) && Keep(names, p)[i] in names
  {
    if names == [] {
    } else {
      KeepHolds(names[..|names| - 1], p);
    }
  }

  lemma KeepIngress(p: string -> bool)
    ensures Keep(INGRESS, p) == (if p("gateway") then ["gateway"] else []) + (if p("api") then ["api"] else [])
  {
    assert INGRESS[..1] == ["gateway"] && ["gateway"][..0] == [];
    assert Keep(["gateway"], p) == if p("gateway") then ["gateway"] else [];
  }

  /** Ingress first and the database last, whatever the configured order. */
  lemma StopOrderIsStaged(names: seq<string>, i: nat, j: nat)
    requires i < j < |StopOrder(names)|
    ensures Stage(StopOrder(names)[i]) <= Stage(StopOrder(names)[j])
  {
    var reversed := Reverse(names);
    KeepIngress((n: string) => n in reversed);
    KeepHolds(reversed, Ordinary);
    KeepHolds(reversed, (n: string) => n == DATABASE);
    hide Keep, Reverse;
    assert "gateway" != "api" && DATABASE != "gateway" && DATABASE != "api" by {
      assert "gateway"[0] != "api"[0] && DATABASE[0] != "gateway"[0] && DATABASE[0] != "api"[0];
    }
  }

  ghost predicate Distinct(names: seq<string>) {
    forall i, j :: 0 <= i < j < |names| ==> names[i] != names[j]
  }

  /** a stands before b. */
  ghost predicate Precedes(names: seq<string>, a: string, b: string) {
    exists i, j :: 0 <= i < j < |names| && names[i] == a && names[j] == b
  }

  lemma {:induction false} KeepOrder(names: seq<string>, p: string -> bool, i: nat, j: nat)
    requires i < j < |names| && p(names[i]) && p(names[j])
    ensures Precedes(Keep(names, p), names[i], names[j])
  {
    var front, last := names[..|names| - 1], names[|names| - 1];
    var kept := Keep(front, p);
    if j < |names| - 1 {
      KeepOrder(front, p, i, j);
      var a, b :| 0 <= a < b < |kept| && kept[a] == names[i] && kept[b] == names[j];
      assert Keep(names, p)[a] == names[i] && Keep(names, p)[b] == names[j];
    } else {
      KeepFinds(front, p, i);
      var a :| 0 <= a < |kept| && kept[a] == names[i];
      assert Keep(names, p)[a] == names[i] && Keep(names, p)[|kept|] == last;
    }
  }

  lemma {:induction false} KeepFinds(names: seq<string>, p: string -> bool, i: nat)
    requires i < |names| && p(names[i])
    ensures names[i] in Keep(names, p)
  {
    if i < |names| - 1 { KeepFinds(names[..|names| - 1], p, i); }
  }

  /** An ordinary module configured after another, which it may use, is stopped before it. */
  lemma LaterModulesStopFirst(names: seq<string>, i: nat, j: nat)
    requires i < j < |names| && Ordinary(names[i]) && Ordinary(names[j])
    ensures Precedes(StopOrder(names), names[j], names[i])
  {
    var reversed := Reverse(names);
    KeepOrder(reversed, Ordinary, |names| - 1 - j, |names| - 1 - i);
    var head, kept := Keep(INGRESS, (n: string) => n in reversed), Keep(reversed, Ordinary);
    var a, b :| 0 <= a < b < |kept| && kept[a] == names[j] && kept[b] == names[i];
    assert StopOrder(names)[|head| + a] == names[j] && StopOrder(names)[|head| + b] == names[i];
  }

  // ---------------------------------------------------------------- stopModules

  datatype Cleanup = StorageFence | Profiler | Module(name: string)

  /** What one module contributes to the sequence of cleanups. */
  function CleanupsOf(name: string, available: set<string>): seq<Cleanup> {
    (if name == DATABASE then [StorageFence, Profiler] else []) + (if name in available then [Module(name)] else [])
  }

  function AllCleanups(order: seq<string>, available: set<string>): seq<Cleanup> {
    if order == [] then [] else AllCleanups(order[..|order| - 1], available) + CleanupsOf(order[|order| - 1], available)
  }

  lemma CleanupsPush(order: seq<string>, available: set<string>, i: nat)
    requires i < |order|
    ensures AllCleanups(order[..i + 1], available) == AllCleanups(order[..i], available) + CleanupsOf(order[i], available)
  {
    assert order[..i + 1][..i] == order[..i];
  }

  lemma NoCleanups(order: seq<string>, available: set<string>)
    requires order == []
    ensures AllCleanups(order, available) == []
  {}

  function StopSequence(names: seq<string>, available: set<string>): seq<Cleanup> {
    AllCleanups(StopOrder(names), available) + [Profiler]
  }

  lemma CleanupsOfCount(last: string, available: set<string>, name: string)
    ensures multiset(CleanupsOf(last, available))[Module(name)] == if last == name && name in available then 1 else 0
  {}

  lemma {:induction false} CleanupCount(order: seq<string>, available: set<string>, name: string)
    ensures multiset(AllCleanups(order, available))[Module(name)] == if name in available then multiset(order)[name] else 0
  {
    if order == [] {
    } else {
      var front, last := order[..|order| - 1], order[|order| - 1];
      CleanupCount(front, available, name);
      assert order == front + [last];
      CleanupsOfCount(last, available, name);
      hide CleanupsOf;
    }
  }

  /** With a configuration of distinct modules, every available one is stopped exactly once and no other is. */
  lemma EachModuleStopsOnce(names: seq<string>, available: set<string>, name: string)
    requires Distinct(names)
    ensures multiset(StopSequence(names, available))[Module(name)] == if name in names && name in available then 1 else 0
  {
    DistinctCount(names, name);
    StopOrderCount(names, name);
    CleanupCount(StopOrder(names), available, name);
    hide StopOrder, AllCleanups;
  }

  lemma {:induction false} DistinctCount(names: seq<string>, name: string)
    requires Distinct(names)
    ensures multiset(names)[name] == if name in names then 1 else 0
  {
    if names == [] {
    } else {
      var front, last := names[..|names| - 1], names[|names| - 1];
      DistinctCount(front, name);
      assert names == front + [last];
    }
  }

  /** Fence and profiler belong to the database's stage. */
  function StageOf(c: Cleanup): nat {
    if c.Module? then Stage(c.name) else 3
  }

  ghost predicate Staged(cs: seq<Cleanup>) {
    forall i, j :: 0 <= i < j < |cs| ==> StageOf(cs[i]) <= StageOf(cs[j])
  }

  ghost predicate InStages(cs: seq<Cleanup>, low: nat, high: nat) {
    forall i :: 0 <= i < |cs| ==> low <= StageOf(cs[i]) <= high
  }

  lemma CleanupsOfStage(name: string, available: set<string>)
    ensures InStages(CleanupsOf(name, available), Stage(name), Stage(name))
  {}

  lemma {:induction false} CleanupsAreStaged(order: seq<string>, available: set<string>)
    requires forall i, j :: 0 <= i < j < |order| ==> Stage(order[i]) <= Stage(order[j])
    ensures Staged(AllCleanups(order, available))
    ensures InStages(AllCleanups(order, available), 0, if order == [] then 0 else Stage(order[|order| - 1]))
  {
    if order == [] {
    } else {
      var front, last := order[..|order| - 1], order[|order| - 1];
      CleanupsAreStaged(front, available);
      CleanupsOfStage(last, available);
      hide CleanupsOf, Stage, Staged, InStages;
      assert front != [] ==> Stage(front[|front| - 1]) <= Stage(last);
      JoinStages(AllCleanups(front, available), CleanupsOf(last, available),
                 if front == [] then 0 else Stage(front[|front| - 1]), Stage(last));
    }
  }

  lemma JoinStages(a: seq<Cleanup>, b: seq<Cleanup>, low: nat, high: nat)
    requires Staged(a) && InStages(a, 0, low) && InStages(b, high, high) && low <= high
    ensures Staged(a + b) && InStages(a + b, 0, high)
  {
    hide StageOf;
  }

  /** Ingress is stopped first; the fence, the profiler and the database come after every other module. */
  lemma StopSequenceIsStaged(names: seq<string>, available: set<string>)
    ensures Staged(StopSequence(names, available))
  {
    var order := StopOrder(names);
    forall i, j | 0 <= i < j < |order| ensures Stage(order[i]) <= Stage(order[j]) { StopOrderIsStaged(names, i, j); }
    hide StopOrder, AllCleanups;
    CleanupsAreStaged(order, available);
    StagesEnd(order);
  }

  lemma StagesEnd(order: seq<string>)
    ensures order != [] ==> Stage(order[|order| - 1]) <= 3
  {}

  ghost predicate NoDatabase(cs: seq<Cleanup>) {
    forall i :: 0 <= i < |cs| ==> cs[i].Module? && cs[i].name != DATABASE
  }

  lemma {:induction false} ModulesOnly(order: seq<string>, available: set<string>)
    requires DATABASE !in order
    ensures NoDatabase(AllCleanups(order, available))
  {
    if order == [] {
    } else {
      ModulesOnly(order[..|order| - 1], available);
      assert order[|order| - 1] in order;
    }
  }

  lemma {:induction false} KeepDatabase(names: seq<string>)
    requires Distinct(names)
    ensures Keep(names, (n: string) => n == DATABASE) == if DATABASE in names then [DATABASE] else []
  {
    if names == [] {
    } else {
      var front, last := names[..|names| - 1], names[|names| - 1];
      KeepDatabase(front);
      assert names == front + [last];
    }
  }

  lemma OrderEnds(names: seq<string>) returns (front: seq<string>)
    requires Distinct(names)
    ensures StopOrder(names) == front + (if DATABASE in names then [DATABASE] else []) && DATABASE !in front
  {
    var reversed := Reverse(names);
    KeepDatabase(reversed);
    KeepHolds(INGRESS, (n: string) => n in reversed);
    KeepHolds(reversed, Ordinary);
    front := Keep(INGRESS, (n: string) => n in reversed) + Keep(reversed, Ordinary);
    assert DATABASE in reversed <==> DATABASE in names by {
      ReverseCount(names);
      assert multiset(reversed)[DATABASE] == multiset(names)[DATABASE];
      assert DATABASE in reversed <==> DATABASE in multiset(reversed);
      assert DATABASE in names <==> DATABASE in multiset(names);
    }
    assert DATABASE !in INGRESS by { assert DATABASE[0] != INGRESS[0][0] && DATABASE[0] != INGRESS[1][0]; }
  }

  /**
   How every stop of distinct modules ends: with the database configured, the fence, the profiler and then the
   database come after all modules; the profiler is stopped once more in any case.
   */
  lemma StopSequenceEnds(names: seq<string>, available: set<string>) returns (modules: seq<Cleanup>)
    requires Distinct(names)
    ensures NoDatabase(modules)
    ensures StopSequence(names, available) ==
              modules
              + (if "database" !in names then []
                 else [StorageFence, Profiler] + if "database" in available then [Module("database")] else [])
              + [Profiler]
  {
    var front := OrderEnds(names);
    modules := AllCleanups(front, available);
    ModulesOnly(front, available);
    hide StopOrder, AllCleanups, NoDatabase;
    if DATABASE in names {
      CleanupsPush(front + [DATABASE], available, |front|);
      assert (front + [DATABASE])[..|front|] == front && (front + [DATABASE])[..|front| + 1] == front + [DATABASE];
    } else {
      assert front + [] == front;
    }
  }

  /** The application object, seen through its cleanups. */
  class GeesomeApp {
    const modules: seq<string>
    const available: set<string>
    /** The cleanups that throw, whatever the reason. */
    const throwing: set<Cleanup>
    var stopPromise: bool
    var attempts: seq<Cleanup>
    var warnings: seq<Cleanup>

    constructor (modules: seq<string>, available: set<string>, throwing: set<Cleanup>)
      ensures this.modules == modules && this.available == available && this.throwing == throwing
      ensures !stopPromise && attempts == [] && warnings == []
    {
      this.modules, this.available, this.throwing := modules, available, throwing;
      stopPromise, attempts, warnings := false, [], [];
    }

    /** A throwing cleanup becomes a warning. */
    method CleanupResource(c: Cleanup) returns (ok: bool)
      modifies this`attempts, this`warnings
      ensures attempts == old(attempts) + [c] && ok == (c !in throwing)
      ensures warnings == old(warnings) + if ok then [] else [c]
    {
      attempts := attempts + [c];
      ok := c !in throwing;
      if !ok { warnings := warnings + [c]; }
    }

    /** All cleanups are attempted, in order, no matter which of them throw. */
    method StopModules()
      modifies this`attempts, this`warnings
      ensures attempts == old(attempts) + StopSequence(modules, available)
    {
      hide StopOrder, AllCleanups;
      var order := StopOrder(modules);
      NoCleanups(order[..0], available);
      for i := 0 to |order|
        invariant attempts == old(attempts) + AllCleanups(order[..i], available)
      {
        CleanupsPush(order, available, i);
        if order[i] == DATABASE {
          var _ := CleanupResource(StorageFence);
          var _ := CleanupResource(Profiler);
        }
        if order[i] in available {
          var _ := CleanupResource(Module(order[i]));
        }
      }
      assert order[..|order|] == order;
      var _ := CleanupResource(Profiler);
    }

    /** However often it is called, the modules are stopped once. */
    method Stop()
      modifies this
      ensures stopPromise
      ensures attempts == old(attempts) + if old(stopPromise) then [] else StopSequence(modules, available)
    {
      if !stopPromise {
        stopPromise := true;
        StopModules();
      }
    }
  }

  // ---------------------------------------------------------------- signals

  datatype Signal = SIGINT | SIGTERM

  function ExitCode(signal: Signal): int {
    if signal.SIGINT? then 130 else 143
  }

  /** The shutdown promise: not made, racing the deadline, decided, or its handlers have run. */
  datatype Phase = Idle | Racing | Decided(ok: bool) | Concluded

  datatype StopCall = NotCalled | Called | Finished

  /** `exits` are the codes processTarget.exit was called with; a real process ends at the first. */
  datatype Process = Process(phase: Phase, stop: StopCall, stops: nat, listening: bool, exits: seq<int>, errors: nat)

  const REGISTERED := Process(Idle, NotCalled, 0, true, [], 0)

  datatype Event =
    | Receive(signal: Signal)
    | RequestShutdown(signal: Signal)   // controller.shutdown
    | CallStop                          // the microtask that calls app.stop
    | StopEnds(ok: bool)
    | Deadline
    | Conclude
    | Dispose

  predicate Enabled(p: Process, e: Event) {
    match e
    case Receive(_) => p.listening
    case RequestShutdown(_) => true
    case CallStop => p.phase != Idle && p.stop == NotCalled
    case StopEnds(_) => p.stop == Called
    case Deadline => p.phase == Racing
    case Conclude => p.phase.Decided?
    case Dispose => true
  }

  function BeginShutdown(p: Process): Process {
    if p.phase == Idle then p.(phase := Racing) else p
  }

  function Apply(p: Process, e: Event): Process
    requires Enabled(p, e)
  {
    match e
    case Receive(signal) =>
      if p.phase != Idle then p.(listening := false, exits := p.exits + [ExitCode(signal)]) else BeginShutdown(p)
    case RequestShutdown(_) => BeginShutdown(p)
    case CallStop => p.(stop := Called, stops := p.stops + 1)
    case StopEnds(ok) => p.(stop := Finished, phase := if p.phase == Racing then Decided(ok) else p.phase)
    case Deadline => p.(phase := Decided(false))
    case Conclude =>
      if p.phase.ok then p.(phase := Concluded, listening := false, exits := p.exits + [0])
      else p.(phase := Concluded, listening := false, errors := p.errors + 1, exits := p.exits + [1])
    case Dispose => p.(listening := false)
  }

  ghost predicate IsRun(states: seq<Process>, events: seq<Event>) {
    && |states| == |events| + 1 && states[0] == REGISTERED
    && forall i :: 0 <= i < |events| ==> Enabled(states[i], events[i]) && states[i + 1] == Apply(states[i], events[i])
  }

  predicate FromSignal(code: int) {
    code == 130 || code == 143
  }

  /** The codes a shutdown itself ends with. */
  function Conclusions(exits: seq<int>): seq<int> {
    if exits == [] then []
    else Conclusions(exits[..|exits| - 1]) + if FromSignal(exits[|exits| - 1]) then [] else [exits[|exits| - 1]]
  }

  ghost predicate Inv(p: Process) {
    && p.stops == (if p.stop == NotCalled then 0 else 1)
    && (p.phase == Idle ==> p.stop == NotCalled && p.exits == [])
    && |Conclusions(p.exits)| == (if p.phase == Concluded then 1 else 0)
    && (p.listening ==> p.exits == [])
    && |p.exits| <= |Conclusions(p.exits)| + 1
    && p.errors == |Conclusions(p.exits)| - (if 0 in Conclusions(p.exits) then 1 else 0)
    && (forall i :: 0 <= i < |p.exits| ==> p.exits[i] in {0, 1, 130, 143})
  }

  lemma ExitPush(exits: seq<int>, code: int)
    ensures Conclusions(exits + [code]) == Conclusions(exits) + if FromSignal(code) then [] else [code]
  {
    assert (exits + [code])[..|exits|] == exits;
  }

  lemma StepKeepsInv(p: Process, e: Event)
    requires Enabled(p, e) && Inv(p)
    ensures Inv(Apply(p, e))
  {
    ExitPush(p.exits, 0);
    ExitPush(p.exits, 1);
    ExitPush(p.exits, 130);
    ExitPush(p.exits, 143);
    hide Conclusions;
  }

  lemma {:induction false} RunKeepsInv(states: seq<Process>, events: seq<Event>, n: nat)
    requires IsRun(states, events) && n < |states|
    ensures Inv(states[n])
  {
    if n == 0 {
    } else {
      RunKeepsInv(states, events, n - 1);
      hide Inv, Enabled, Apply;
      StepKeepsInv(states[n - 1], events[n - 1]);
    }
  }

  /**
   For any signals, requests, endings and deadlines: app.stop is called at most once, the shutdown
   concludes at most once, at most one signal forces an exit, and no exit code but 0, 1, 130 and 143 is used.
   */
  lemma ShutsDownOnce(states: seq<Process>, events: seq<Event>, n: nat)
    requires IsRun(states, events) && n < |states|
    ensures states[n].stops <= 1 && |states[n].exits| <= 2 && |Conclusions(states[n].exits)| <= 1
    ensures forall i :: 0 <= i < |states[n].exits| ==> states[n].exits[i] in {0, 1, 130, 143}
  {
    RunKeepsInv(states, events, n);
    hide IsRun, Conclusions;
  }

  /** A signal exits at once exactly when a shutdown has begun, with the code of that signal, and only the first such one does. */
  lemma SecondSignalExitsAtOnce(states: seq<Process>, events: seq<Event>, n: nat)
    requires IsRun(states, events) && n < |events| && events[n].Receive?
    ensures states[n].exits == []
    ensures states[n].phase != Idle ==>
              states[n + 1].exits == [if events[n].signal == SIGINT then 130 else 143] && !states[n + 1].listening
    ensures states[n].phase == Idle ==> states[n + 1].exits == [] && states[n + 1].phase == Racing
  {
    RunKeepsInv(states, events, n);
    assert Enabled(states[n], events[n]) && states[n + 1] == Apply(states[n], events[n]);
  }

  /** A shutdown has begun exactly when a signal was received or controller.shutdown was called. */
  lemma {:induction false} BeginsIff(states: seq<Process>, events: seq<Event>, n: nat)
    requires IsRun(states, events) && n < |states|
    ensures states[n].phase != Idle <==> exists i :: 0 <= i < n && (events[i].Receive? || events[i].RequestShutdown?)
  {
    if n == 0 {
    } else {
      BeginsIff(states, events, n - 1);
      assert Enabled(states[n - 1], events[n - 1]) && states[n] == Apply(states[n - 1], events[n - 1]);
      RunKeepsInv(states, events, n - 1);
    }
  }

  /** Requests and dispose may come in every state, a signal while it is listened for, the deadline while it is raced. */
  lemma EventsMayCome(p: Process, signal: Signal)
    ensures Enabled(p, RequestShutdown(signal)) && Enabled(p, Dispose)
    ensures (p.listening ==> Enabled(p, Receive(signal))) && (p.phase == Racing ==> Enabled(p, Deadline))
    ensures p.stop == Called ==> Enabled(p, StopEnds(true)) && Enabled(p, StopEnds(false))
  {}

  /** Signals are listened for from the start until the first dispose, the end of the shutdown or an exit at once. */
  lemma {:induction false} ListensIff(states: seq<Process>, events: seq<Event>, n: nat)
    requires IsRun(states, events) && n < |states|
    ensures states[n].listening <==>
            forall i :: 0 <= i < n ==> !events[i].Dispose? && !events[i].Conclude? && (events[i].Receive? ==> states[i].phase == Idle)
  {
    if n == 0 {
    } else {
      ListensIff(states, events, n - 1);
      assert Enabled(states[n - 1], events[n - 1]) && states[n] == Apply(states[n - 1], events[n - 1]);
    }
  }

  lemma FinishedStep(p: Process, e: Event)
    requires Enabled(p, e) && (p.stop == Finished || e.StopEnds?)
    ensures Apply(p, e).stop == Finished
  {}

  /** app.stop settles at most once, and is not called again after it. */
  lemma {:induction false} StopSettlesOnce(states: seq<Process>, events: seq<Event>, n: nat, m: nat)
    requires IsRun(states, events) && n < m < |states| && events[n].StopEnds?
    ensures states[m].stop == Finished && (m < |events| ==> !events[m].StopEnds? && !events[m].CallStop?)
  {
    hide Apply;
    if n < m - 1 { StopSettlesOnce(states, events, n, m - 1); }
    FinishedStep(states[m - 1], events[m - 1]);
    if m < |events| { assert Enabled(states[m], events[m]); }
  }

  lemma SilentStep(p: Process, e: Event)
    requires Enabled(p, e) && (!p.listening || e.Dispose?)
    ensures !Apply(p, e).listening
  {}

  /** After dispose no signal is handled any more. */
  lemma {:induction false} DisposedIsSilent(states: seq<Process>, events: seq<Event>, n: nat, m: nat)
    requires IsRun(states, events) && n < m < |states| && events[n].Dispose?
    ensures !states[m].listening && (m < |events| ==> !events[m].Receive?)
  {
    hide Apply;
    if n < m - 1 { DisposedIsSilent(states, events, n, m - 1); }
    SilentStep(states[m - 1], events[m - 1]);
    if m < |events| { assert Enabled(states[m], events[m]); }
  }

  /** The shutdown has ended, or will end, with code 0 or with code 1. */
  predicate EndsWith(p: Process, ok: bool) {
    (if ok then 0 else 1) in Conclusions(p.exits) || p.phase == Decided(ok)
  }

  /** What decides the race: app.stop succeeds, or it fails, or the deadline passes. */
  predicate DecidesRace(p: Process, e: Event, ok: bool) {
    p.phase == Racing && (e == StopEnds(ok) || (e == Deadline && !ok))
  }

  lemma EndsWithStep(p: Process, e: Event, ok: bool)
    requires Enabled(p, e) && Inv(p)
    ensures EndsWith(Apply(p, e), ok) <==> EndsWith(p, ok) || DecidesRace(p, e, ok)
  {
    ExitPush(p.exits, 0);
    ExitPush(p.exits, 1);
    ExitPush(p.exits, 130);
    ExitPush(p.exits, 143);
    hide Conclusions;
  }

  /**
   The exit code of the shutdown is 0 exactly when app.stop succeeded before the deadline, and 1 exactly when
   it failed before the deadline or the deadline came first.
   */
  lemma {:induction false} CodeSaysHowItEnded(states: seq<Process>, events: seq<Event>, n: nat, ok: bool)
    requires IsRun(states, events) && n < |states|
    ensures EndsWith(states[n], ok) <==> exists i :: 0 <= i < n && DecidesRace(states[i], events[i], ok)
  {
    if n == 0 {
      assert Conclusions([]) == [];
    } else {
      CodeSaysHowItEnded(states, events, n - 1, ok);
      RunKeepsInv(states, events, n - 1);
      hide Inv, Enabled, Apply, EndsWith, DecidesRace;
      EndsWithStep(states[n - 1], events[n - 1], ok);
    }
  }

  // ---------------------------------------------------------------- the controller as it runs

  class ShutdownController {
    var shutdownPromise: Phase
    var stopCall: StopCall
    var stops: nat
    var listening: bool
    var exits: seq<int>
    var errors: nat

    function View(): Process
      reads this
    {
      Process(shutdownPromise, stopCall, stops, listening, exits, errors)
    }

    ghost predicate Valid()
      reads this
    {
      Inv(View())
    }

    /** registerProcessShutdown */
    constructor ()
      ensures Valid() && View() == REGISTERED
    {
      shutdownPromise, stopCall, stops, listening, exits, errors := Idle, NotCalled, 0, true, [], 0;
      new;
      assert Conclusions([]) == [];
    }

    method Dispose()
      requires Valid()
      modifies this
      ensures Valid() && View() == Apply(old(View()), Event.Dispose)
    {
      StepKeepsInv(View(), Event.Dispose);
      hide Inv;
      listening := false;
    }

    method Shutdown(signal: Signal)
      requires Valid()
      modifies this
      ensures Valid() && View() == Apply(old(View()), RequestShutdown(signal))
    {
      StepKeepsInv(View(), RequestShutdown(signal));
      hide Inv;
      if shutdownPromise == Idle { shutdownPromise := Racing; }
    }

    method HandleSignal(signal: Signal)
      requires Valid() && listening
      modifies this
      ensures Valid() && View() == Apply(old(View()), Receive(signal))
    {
      StepKeepsInv(View(), Receive(signal));
      hide Inv;
      if shutdownPromise != Idle {
        listening := false;
        exits := exits + [ExitCode(signal)];
        return;
      }
      shutdownPromise := Racing;
    }

    method CallStop()
      requires Valid() && Enabled(View(), Event.CallStop)
      modifies this
      ensures Valid() && View() == Apply(old(View()), Event.CallStop)
    {
      StepKeepsInv(View(), Event.CallStop);
      hide Inv;
      stopCall := Called;
      stops := stops + 1;
    }

    /** app.stop settles, or the deadline passes; only the first of the two decides. */
    method RaceSettles(e: Event)
      requires Valid() && Enabled(View(), e) && (e.StopEnds? || e.Deadline?)
      modifies this
      ensures Valid() && View() == Apply(old(View()), e)
    {
      StepKeepsInv(View(), e);
      hide Inv;
      if e.StopEnds? { stopCall := Finished; }
      if shutdownPromise == Racing { shutdownPromise := Decided(e.StopEnds? && e.ok); }
    }

    /** The then or the catch handler of the shutdown promise. */
    method Conclude()
      requires Valid() && Enabled(View(), Event.Conclude)
      modifies this
      ensures Valid() && View() == Apply(old(View()), Event.Conclude)
    {
      ghost var after := Apply(View(), Event.Conclude);
      StepKeepsInv(View(), Event.Conclude);
      hide Inv, Enabled;
      listening := false;
      if shutdownPromise.ok {
        exits := exits + [0];
      } else {
        errors := errors + 1;
        exits := exits + [1];
      }
      shutdownPromise := Concluded;
      assert View() == after;
    }
  }
}
