/** The client code of the refusing locks, one method per stretch of code between two awaits. */
module StorageTryLocksRuntime {
  import opened Wrappers
  import opened StorageTryLocks

  class LockRuntime {
    const hash: string -> int
    var calls: seq<Call>
    var sessions: seq<Session>

    constructor (hash: string -> int)
      ensures this.hash == hash && View() == INITIAL && Inv(hash, View())
    {
      this.hash := hash;
      calls, sessions := [], [];
    }

    ghost function View(): State
      reads this
    {
      State(calls, sessions)
    }

    /** What every method promises: it is the given step of the protocol, and the invariant still holds. */
    twostate predicate Performs(step: Step)
      reads this
    {
      old(Enabled(View(), step)) && View() == Apply(hash, old(View()), step) && Inv(hash, View())
    }

    twostate lemma Done(step: Step)
      requires old(Enabled(View(), step)) && old(Inv(hash, View())) && View() == Apply(hash, old(View()), step)
      ensures Performs(step)
    {
      forall k | 0 <= k < |calls| ensures CallOk(hash, View(), k) {
        StepKeepsCalls(hash, old(View()), step, k);
      }
      StepKeepsSessions(hash, old(View()), step);
    }

    method SetPhase(k: nat, p: Phase)
      requires k < |calls|
      modifies this`calls
      ensures calls == old(calls)[k := old(calls)[k].(phase := p)]
    {
      calls := calls[k := calls[k].(phase := p)];
    }

    /** Entry: a control call made inside an open control context nests or is refused; any other call asks its pool. */
    method Enter(kind: Kind, process: nat, identity: string, store: Option<nat>)
      requires Inv(hash, View()) && Enabled(View(), Begin(kind, process, identity, store))
      modifies this
      ensures Performs(Begin(kind, process, identity, store))
    {
      var lock := LockOf(hash, kind, identity);
      var phase := Connecting;
      if kind.Control? && store.Some? {
        var outer := calls[store.value];
        var active := outer.phase.Running? || outer.phase.Probing?;
        if active {
          if outer.identity != identity || outer.lock.space != lock.space {
            phase := Phase.Done(NestingForbidden);
          } else if outer.broken {
            phase := Phase.Done(Failed);
          } else {
            phase := NestedProbing;
          }
        }
      }
      calls := calls + [StorageTryLocks.Call(kind, process, identity, lock, store, phase, false, false)];
      Done(Begin(kind, process, identity, store));
    }

    /** The answer of pg_try_advisory_lock. */
    method TryLock(k: nat)
      requires Inv(hash, View()) && Enabled(View(), Try(k))
      modifies this
      ensures Performs(Try(k))
    {
      var sid := calls[k].phase.sid;
      var lock := calls[k].lock;
      if forall other :: 0 <= other < |sessions| && other != sid ==> sessions[other].lock != Some(lock) {
        sessions := sessions[sid := sessions[sid].(lock := Some(lock))];
        calls := calls[k := calls[k].(phase := Running(sid), locked := true)];
      } else {
        SetPhase(k, Leaving(sid, if calls[k].kind.Worker? then NothingToDo else Refused));
      }
      Done(Try(k));
    }

    /** The callback settled; a control call that succeeded probes its session once more before it returns. */
    method CallbackSettled(k: nat, ok: bool)
      requires Inv(hash, View()) && Enabled(View(), Finish(k, ok))
      modifies this
      ensures Performs(Finish(k, ok))
    {
      var call := calls[k];
      var sid := call.phase.sid;
      if ok && call.kind.Control? && !call.broken {
        SetPhase(k, Probing(sid));
      } else {
        SetPhase(k, Leaving(sid, if ok && !call.kind.Control? then Returned else Failed));
      }
      Done(Finish(k, ok));
    }

    /** The unlock inside the finally block. */
    method FinallyUnlock(k: nat)
      requires Inv(hash, View()) && Enabled(View(), Unlock(k))
      modifies this
      ensures Performs(Unlock(k))
    {
      var call := calls[k];
      var sid := call.phase.sid;
      var outcome := call.phase.outcome;
      if call.locked && !call.broken {
        if sessions[sid].alive {
          sessions := sessions[sid := sessions[sid].(lock := None)];
        } else if call.kind.Task? {
          sessions := sessions[sid := sessions[sid].(place := Leaked)];
          SetPhase(k, Phase.Done(Failed));
          Done(Unlock(k));
          return;
        } else {
          outcome := Failed;
        }
      }
      SetPhase(k, Handing(sid, outcome));
      Done(Unlock(k));
    }

    /** connection.release(broken), or releaseConnection for the application pool. */
    method FinallyRelease(k: nat)
      requires Inv(hash, View()) && Enabled(View(), Hand(k))
      modifies this
      ensures Performs(Hand(k))
    {
      var call := calls[k];
      var sid := call.phase.sid;
      sessions := sessions[sid := sessions[sid].(place := if call.broken then Destroyed else Idle)];
      SetPhase(k, Phase.Done(call.phase.outcome));
      Done(Hand(k));
    }
  }
}
