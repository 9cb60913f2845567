/**
 The client code of withStorageFence, one method for every stretch of code between two awaits.
 The fields stand for the objects the code updates in place; each method performs exactly the
 step of the protocol and keeps its invariant.
 */
module StorageFenceRuntime {
  import opened Wrappers
  import opened StorageFence
  import opened StorageFenceSafety

  class FenceRuntime {
    var calls: seq<Call>
    var contexts: seq<Context>
    var sessions: seq<Session>
    var queue: seq<nat>

    constructor ()
      ensures View() == INITIAL && Inv(View())
    {
      calls, contexts, sessions, queue := [], [], [], [];
    }

    ghost function View(): State
      reads this
    {
      State(calls, contexts, sessions, queue)
    }

    method SetPhase(k: nat, p: Phase)
      requires k < |calls|
      modifies this`calls
      ensures calls == old(calls)[k := old(calls)[k].(phase := p)]
    {
      calls := calls[k := calls[k].(phase := p)];
    }

    /** withStorageFence up to its first await: join the caller's open context, refuse an upgrade, or ask the pool. */
    method Call(process: nat, store: Option<nat>, parent: Option<nat>, mode: Mode, wait: bool)
      requires Inv(View()) && BeginEnabled(View(), process, store, parent)
      modifies this
      ensures View() == old(Apply(View(), Begin(process, store, parent, mode, wait))) && Inv(View())
    {
      ghost var s := View();
      var phase := Connecting;
      if store.Some? && contexts[store.value].active {
        var c := store.value;
        if mode == Exclusive && contexts[c].mode != Exclusive {
          phase := Done(UpgradeForbidden);
        } else {
          contexts := contexts[c := contexts[c].(users := contexts[c].users + 1)];
          phase := Running(c);
        }
      }
      calls := calls + [StorageFence.Call(process, store, parent, mode, wait, phase)];
      StepKeepsInv(s, Begin(process, store, parent, mode, wait));
    }

    /** pool.connect() resolved with an idle connection: build the context and send the lock statement. */
    method Connected(k: nat, sid: nat)
      requires Inv(View()) && Enabled(View(), ConnectIdle(k, sid))
      modifies this
      ensures View() == old(Apply(View(), ConnectIdle(k, sid))) && Inv(View())
    {
      ghost var s := View();
      var c := |contexts|;
      var call := calls[k];
      contexts := contexts + [Context(k, sid, call.process, call.mode, 1, true, false, false, 0, 0)];
      var lock := if sessions[sid].alive then Asked(call.mode, call.wait) else NoLock;
      sessions := sessions[sid := sessions[sid].(place := CheckedOut(c), lock := lock)];
      SetPhase(k, Locking(c));
      StepKeepsInv(s, ConnectIdle(k, sid));
    }

    /** pool.connect() resolved with a connection opened for this call, which the pool had room for. */
    method ConnectedFresh(k: nat)
      requires Inv(View()) && Enabled(View(), ConnectFresh(k))
      modifies this
      ensures View() == old(Apply(View(), ConnectFresh(k))) && Inv(View())
    {
      ghost var s := View();
      var c, sid := |contexts|, |sessions|;
      var call := calls[k];
      sessions := sessions + [Session(call.process, true, CheckedOut(c), Asked(call.mode, call.wait))];
      contexts := contexts + [Context(k, sid, call.process, call.mode, 1, true, false, false, 0, 0)];
      SetPhase(k, Locking(c));
      StepKeepsInv(s, ConnectFresh(k));
    }

    /** The lock statement answered that the lock is held: enter the callback inside the context. */
    method LockGranted(k: nat)
      requires Inv(View()) && Enabled(View(), LockReply(k))
      modifies this
      ensures View() == old(Apply(View(), LockReply(k))) && Inv(View())
    {
      ghost var s := View();
      var c := calls[k].phase.context;
      contexts := contexts[c := contexts[c].(started := true)];
      SetPhase(k, Running(c));
      StepKeepsInv(s, LockReply(k));
    }

    /** pg_try_advisory_lock answered false: hand the connection back undestroyed and report maintenance. */
    method LockDenied(k: nat)
      requires Inv(View()) && Enabled(View(), StorageFence.LockRefused(k))
      modifies this
      ensures View() == old(Apply(View(), StorageFence.LockRefused(k))) && Inv(View())
    {
      ghost var s := View();
      var sid := contexts[calls[k].phase.context].sid;
      sessions := sessions[sid := sessions[sid].(place := Idle, lock := NoLock)];
      SetPhase(k, Done(MaintenanceBusy));
      StepKeepsInv(s, StorageFence.LockRefused(k));
    }

    /** The lock statement failed: the connection is thrown away whatever the server still holds. */
    method LockThrew(k: nat)
      requires Inv(View()) && Enabled(View(), StorageFence.LockError(k))
      modifies this
      ensures View() == old(Apply(View(), StorageFence.LockError(k))) && Inv(View())
    {
      ghost var s := View();
      var sid := contexts[calls[k].phase.context].sid;
      sessions := sessions[sid := sessions[sid].(place := Destroyed)];
      SetPhase(k, Done(LockFailed));
      StepKeepsInv(s, StorageFence.LockError(k));
    }

    /** The 'error' listener of the connection. */
    method OnError(c: nat)
      requires Inv(View()) && Enabled(View(), StorageFence.ErrorEvent(c))
      modifies this
      ensures View() == old(Apply(View(), StorageFence.ErrorEvent(c))) && Inv(View())
    {
      ghost var s := View();
      contexts := contexts[c := contexts[c].(broken := true)];
      StepKeepsInv(s, StorageFence.ErrorEvent(c));
    }

    /** assertHeld up to its probe: true when the probe is sent, false when storage_fence_lost is thrown at once. */
    method AssertHeld(c: nat) returns (sent: bool)
      requires Inv(View()) && InContext(View(), c) && contexts[c].started
      modifies this
      ensures sent <==> old(Enabled(View(), StorageFence.CheckSend(c)))
      ensures View() == if sent then old(Apply(View(), StorageFence.CheckSend(c))) else old(View())
      ensures Inv(View())
    {
      ghost var s := View();
      sent := !(contexts[c].broken || !contexts[c].active);
      if sent {
        contexts := contexts[c := contexts[c].(checks := contexts[c].checks + 1)];
        StepKeepsInv(s, StorageFence.CheckSend(c));
      }
    }

    /** context.release up to its first await. */
    method Release(k: nat)
      requires Inv(View()) && Enabled(View(), StorageFence.Leave(k))
      modifies this
      ensures View() == old(Apply(View(), StorageFence.Leave(k))) && Inv(View())
    {
      ghost var s := View();
      var c := calls[k].phase.context;
      contexts := contexts[c := contexts[c].(users := contexts[c].users - 1)];
      if contexts[c].users != 0 {
        SetPhase(k, Done(Returned));
      } else {
        contexts := contexts[c := contexts[c].(active := false, closer := k)];
        SetPhase(k, if !contexts[c].broken then Unlocking(c) else Returning(c));
      }
      StepKeepsInv(s, StorageFence.Leave(k));
    }

    /** The finally block of context.release: destroy a broken connection, hand any other back to the pool. */
    method ReleaseConnection(k: nat)
      requires Inv(View()) && Enabled(View(), StorageFence.Return(k))
      modifies this
      ensures View() == old(Apply(View(), StorageFence.Return(k))) && Inv(View())
    {
      ghost var s := View();
      var x := contexts[calls[k].phase.context];
      sessions := sessions[x.sid := sessions[x.sid].(place := if x.broken then Destroyed else Idle)];
      SetPhase(k, Done(Returned));
      StepKeepsInv(s, StorageFence.Return(k));
    }
  }
}
