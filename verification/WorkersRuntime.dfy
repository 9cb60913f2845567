/** The closures of app/backgroundWorker.ts as objects, each method one event of the machine in Workers. */
module WorkersRuntime {
  import opened Wrappers
  import opened Workers

  class IntervalWorker {
    /** Every promise chain made so far; runPromise and stopPromise refer to them by position. */
    var runs: seq<Run>
    var runPromise: Option<nat>
    var stopPromise: Option<Option<nat>>
    var stopped: bool

    function View(): Worker
      reads this
    {
      Worker(runs, runPromise, stopped, stopPromise)
    }

    ghost predicate Valid()
      reads this
    {
      Inv(View())
    }

    constructor (runImmediately: bool)
      ensures Valid() && View() == if runImmediately then Apply(STARTED, Tick) else STARTED
    {
      runs, runPromise, stopPromise, stopped := [], None, None, false;
      new;
      if runImmediately { RunOnce(); }
    }

    method RunOnce()
      requires Valid()
      modifies this
      ensures Valid() && View() == Apply(old(View()), Tick)
    {
      StepKeepsInv(View(), Tick);
      if stopped || runPromise.Some? {
        return;
      }
      runPromise := Some(|runs|);
      runs := runs + [Scheduled];
    }

    method Begin(run: nat)
      requires Valid() && Enabled(View(), Event.Begin(run))
      modifies this
      ensures Valid() && View() == Apply(old(View()), Event.Begin(run))
    {
      StepKeepsInv(View(), Event.Begin(run));
      runs := runs[run := Running];
    }

    /** The callback's promise settles: `ok` goes to the finally callback, a rejection to onError first. */
    method CallbackSettled(run: nat, ok: bool)
      requires Valid() && Enabled(View(), Succeed(run))
      modifies this
      ensures Valid() && View() == Apply(old(View()), if ok then Succeed(run) else Fail(run))
    {
      StepKeepsInv(View(), if ok then Succeed(run) else Fail(run));
      runs := runs[run := if ok then Settling(false) else Failed];
    }

    method OnError(run: nat, throws: bool)
      requires Valid() && Enabled(View(), Handle(run, throws))
      modifies this
      ensures Valid() && View() == Apply(old(View()), Handle(run, throws))
    {
      StepKeepsInv(View(), Handle(run, throws));
      runs := runs[run := Settling(throws)];
    }

    method Finally(run: nat)
      requires Valid() && Enabled(View(), Event.Finally(run))
      modifies this
      ensures Valid() && View() == Apply(old(View()), Event.Finally(run))
    {
      StepKeepsInv(View(), Event.Finally(run));
      runPromise := None;
      runs := runs[run := Settled(runs[run].rejected)];
    }

    /** The same promise on every call. */
    method Stop() returns (promise: Option<nat>)
      requires Valid()
      modifies this
      ensures Valid() && View() == Apply(old(View()), Event.Stop) && stopPromise == Some(promise)
      ensures old(stopPromise).Some? ==> Some(promise) == old(stopPromise)
    {
      StepKeepsInv(View(), Event.Stop);
      if stopPromise.None? {
        stopped := true;
        stopPromise := Some(runPromise);
      }
      promise := stopPromise.value;
    }
  }

  class IntervalWorkerGroup {
    var workers: seq<IntervalWorker>
    var stopped: bool
    /** Every member ever added; the workers field is emptied by the stop. */
    ghost var members: seq<IntervalWorker>

    ghost function Views(ws: seq<IntervalWorker>): (r: seq<Worker>)
      reads ws
      ensures |r| == |ws| && forall i :: 0 <= i < |ws| ==> r[i] == ws[i].View()
    {
      seq(|ws|, i requires 0 <= i < |ws| reads ws => ws[i].View())
    }

    ghost function View(): Group
      reads this, members
    {
      Group(Views(members), stopped)
    }

    ghost predicate Valid()
      reads this, members
    {
      && workers == (if stopped then [] else members)
      && (forall i, j :: 0 <= i < j < |members| ==> members[i] != members[j])
      && GroupInv(View())
    }

    constructor ()
      ensures Valid() && View() == EMPTY_GROUP
    {
      workers, stopped, members := [], false, [];
    }

    /** False where the code throws. */
    method Add(runImmediately: bool) returns (ok: bool)
      requires Valid()
      modifies this
      ensures Valid() && ok == !old(stopped) && View() == GroupApply(old(View()), GroupEvent.Add(runImmediately))
      ensures ok ==> |members| == |old(members)| + 1 && members[..|old(members)|] == old(members) && fresh(members[|old(members)|])
    {
      GroupStepKeepsInv(View(), GroupEvent.Add(runImmediately));
      if stopped {
        return false;
      }
      ghost var before := Views(members);
      var worker := new IntervalWorker(runImmediately);
      workers := workers + [worker];
      members := members + [worker];
      ok := true;
      assert Views(members) == before + [worker.View()];
    }

    static method StopEach(activeWorkers: seq<IntervalWorker>)
      requires forall i, j :: 0 <= i < j < |activeWorkers| ==> activeWorkers[i] != activeWorkers[j]
      requires forall i :: 0 <= i < |activeWorkers| ==> activeWorkers[i].Valid()
      modifies activeWorkers
      ensures forall i :: 0 <= i < |activeWorkers| ==>
                activeWorkers[i].View() == Apply(old(activeWorkers[i].View()), Event.Stop)
    {
      hide Apply, Inv, IntervalWorker.View;
      for i := 0 to |activeWorkers|
        invariant forall j :: 0 <= j < i ==> activeWorkers[j].View() == Apply(old(activeWorkers[j].View()), Event.Stop)
        invariant forall j :: i <= j < |activeWorkers| ==> activeWorkers[j].View() == old(activeWorkers[j].View())
      {
        var _ := activeWorkers[i].Stop();
      }
    }

    static lemma ViewsAre(ws: seq<IntervalWorker>, views: seq<Worker>)
      requires |ws| == |views| && forall i :: 0 <= i < |ws| ==> ws[i].View() == views[i]
      ensures forall i :: 0 <= i < |ws| ==> Inv(views[i]) ==> ws[i].Valid()
    {}

    /** Stops every member, once. */
    method Stop()
      requires Valid()
      modifies this, members
      ensures Valid() && View() == GroupApply(old(View()), StopAll) && members == old(members)
    {
      GroupStepKeepsInv(View(), StopAll);
      if stopped {
        return;
      }
      ghost var before := View().workers;
      ViewsAre(members, before);
      hide Apply, Inv, IntervalWorker.View, IntervalWorker.Valid;
      stopped := true;
      var activeWorkers := workers;
      workers := [];
      StopEach(activeWorkers);
      ghost var after := StopWorkers(before);
      assert forall i :: 0 <= i < |members| ==> members[i].View() == after[i];
      assert View() == Group(after, true);
    }
  }
}
