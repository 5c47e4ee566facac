/** The critical sections of btusb's transmit path as methods on the driver's fields. */
module BtusbTx {
  import opened Autosuspend

  class BtusbData {
    var urbs: map<nat, Place>
    var txInFlight: int
    var suspending: bool
    var suspendCount: int
    var pm: Pm
    var deferred: seq<nat>
    ghost var appended: seq<nat>
    ghost var popped: seq<Pop>
    ghost var resumes: nat

    ghost function State(): Autosuspend.State
      reads this
    {
      Autosuspend.State(urbs, txInFlight, suspending, suspendCount, pm, deferred, appended, popped, resumes)
    }

    constructor ()
      ensures State() == INITIAL
    {
      urbs, txInFlight, suspending, suspendCount := map[], 0, false, 0;
      pm, deferred, appended, popped, resumes := Awake, [], [], [], 0;
    }

    /** The critical section of `submit_or_queue_tx_urb`. */
    method SubmitOrQueue(urb: nat) returns (wasSuspending: bool)
      requires urb !in urbs && TxLockFree(State())
      modifies this`urbs, this`txInFlight
      ensures State() == Step(old(State()), Send(urb)) && wasSuspending == suspending
    {
      wasSuspending := suspending;
      if !wasSuspending {
        txInFlight := txInFlight + 1;
        urbs := urbs[urb := Committed];
      } else {
        urbs := urbs[urb := Deferring];
      }
    }

    /** The critical section of `btusb_tx_complete`. */
    method TxComplete(urb: nat)
      requires At(State(), urb, Outstanding) && TxLockFree(State())
      modifies this`urbs, this`txInFlight
      ensures State() == Step(old(State()), Complete(urb))
    {
      txInFlight := txInFlight - 1;
      urbs := urbs[urb := Completed];
    }

    /** `btusb_suspend` up to the end of its critical section; `busy` is -EBUSY. */
    method Suspend(auto: bool, connections: nat) returns (busy: bool)
      requires Inv(State()) && (pm.Awake? || pm.Asleep?)
      modifies this`suspendCount, this`suspending, this`pm
      ensures State() == Step(old(State()), Event.Suspend(auto, connections))
      ensures busy <==> auto && (connections > 0 || (old(pm).Awake? && txInFlight != 0))
      ensures suspendCount == old(suspendCount) + if busy then 0 else 1
      ensures !busy && old(pm).Awake? ==> suspending && pm == Asleep(auto)
      ensures busy || old(pm).Asleep? ==> suspending == old(suspending) && pm == old(pm)
    {
      if auto && connections > 0 {
        return true;
      }
      var nested := suspendCount;
      suspendCount := suspendCount + 1;
      if nested != 0 {
        return false;
      }
      if !(auto && txInFlight != 0) {
        suspending, pm := true, Asleep(auto);
      } else {
        suspendCount := suspendCount - 1;
        return true;
      }
      busy := false;
    }

    /** Senders put the URBs `us` on the anchor, outside `txlock`; one that is not about to be deferred does not. */
    method Arrive(us: seq<nat>) returns (ghost es: seq<Event>)
      modifies this`urbs, this`deferred, this`appended
      ensures State() == Run(old(State()), es) && forall e <- es :: e.Defer?
      ensures us == [] ==> deferred == old(deferred)
    {
      es := [];
      hide Step;
      for i := 0 to |us|
        invariant State() == Run(old(State()), es) && forall e <- es :: e.Defer?
        invariant i == 0 ==> deferred == old(deferred)
      {
        RunMore(old(State()), es, Defer(us[i]));
        es := es + [Defer(us[i])];
        ArriveOne(us[i]);
      }
    }

    method ArriveOne(u: nat)
      modifies this`urbs, this`deferred, this`appended
      ensures State() == Step(old(State()), Defer(u))
    {
      if u in urbs && urbs[u] == Deferring {
        urbs := urbs[u := Deferred];
        deferred, appended := deferred + [u], appended + [u];
      }
    }

    /** One turn of the first loop of `play_deferred`; `more` tells that the loop goes on. */
    method PlayOne(ok: bool) returns (more: bool)
      requires pm.Playing?
      modifies this`urbs, this`txInFlight, this`deferred, this`popped, this`pm
      ensures State() == Step(old(State()), PlayNext(ok)) && more == pm.Playing? && (!more ==> pm.Dropping?)
      ensures more ==> |deferred| + 1 == |old(deferred)|
    {
      if deferred == [] {
        pm := Dropping;
        return false;
      }
      var u := deferred[0];
      deferred := deferred[1..];
      popped := popped + [Pop(u, ok, resumes)];
      if !ok {
        urbs, pm := urbs[u := Discarded], Dropping;
        return false;
      }
      urbs, txInFlight := urbs[u := Outstanding], txInFlight + 1;
      more := true;
    }

    /** One turn of the second loop; after the last one the caller clears BTUSB_SUSPENDING and drops the lock. */
    method DropOne() returns (more: bool)
      requires pm.Dropping?
      modifies this`urbs, this`deferred, this`popped, this`pm, this`suspending
      ensures State() == Step(old(State()), DropNext) && more == pm.Dropping? && (!more ==> pm.Awake?)
      ensures more ==> |deferred| + 1 == |old(deferred)|
    {
      if deferred == [] {
        pm, suspending := Awake, false;
        return false;
      }
      urbs, popped := urbs[deferred[0] := Discarded], popped + [Pop(deferred[0], false, resumes)];
      deferred := deferred[1..];
      more := true;
    }

    /** `play_deferred` and the end of the resume. Before each look at the anchor the senders may put the URBs of the
        next turn there; the turn also says how a submission ends. It is a run of the protocol, and each URB that was
        deferred is submitted or thrown away as the protocol's theorem says. */
    method PlayDeferred(turns: seq<(seq<nat>, bool)>) returns (ghost es: seq<Event>)
      requires Inv(State()) && pm.Playing?
      modifies this`urbs, this`txInFlight, this`deferred, this`appended, this`popped, this`pm, this`suspending
      ensures State() == Run(old(State()), es) && Inv(State()) && pm.Awake?
      ensures forall e <- es :: e.Defer? || e.PlayNext? || e.DropNext?
      ensures forall u :: At(old(State()), u, Deferred) ==>
                if EverDooms(old(State()), es, u) then At(State(), u, Discarded) else Submitted(State(), u)
    {
      ghost var s0 := State();
      es := [];
      var k, more := 0, true;
      hide Step, Inv, EverDooms, Submitted, At;
      while more
        invariant State() == Run(s0, es) && LoopEvents(es) && (if more then pm.Playing? else pm.Dropping?)
        decreases if k < |turns| then |turns| - k else 0, if more then |deferred| + 1 else 0
      {
        var turn := if k < |turns| then turns[k] else ([], true);
        ghost var fs := Arrive(turn.0);
        DefersKeepPm(Run(s0, es), fs);
        more := PlayOne(turn.1);
        RunTurn(s0, es, fs, PlayNext(turn.1));
        es := es + fs + [PlayNext(turn.1)];
        k := k + 1;
      }
      more := true;
      while more
        invariant State() == Run(s0, es) && LoopEvents(es) && (if more then pm.Dropping? else pm.Awake?)
        decreases if k < |turns| then |turns| - k else 0, if more then |deferred| + 1 else 0
      {
        var us := if k < |turns| then turns[k].0 else [];
        ghost var fs := Arrive(us);
        DefersKeepPm(Run(s0, es), fs);
        more := DropOne();
        RunTurn(s0, es, fs, DropNext);
        es := es + fs + [DropNext];
        k := k + 1;
      }
      RunKeepsInv(s0, es);
      forall u | At(s0, u, Deferred)
        ensures if EverDooms(s0, es, u) then At(State(), u, Discarded) else Submitted(State(), u)
      {
        DeferredIsSentIff(s0, es, u);
      }
    }
  }

  ghost predicate LoopEvents(es: seq<Event>) {
    forall e <- es :: e.Defer? || e.PlayNext? || e.DropNext?
  }

  lemma {:induction false} RunMore(s: State, es: seq<Event>, e: Event)
    ensures Run(s, es + [e]) == Step(Run(s, es), e)
    decreases |es|
  {
    hide Step;
    if es == [] {
      assert [] + [e] == [e] && [e][1..] == [];
      assert Run(s, [e]) == Run(Step(s, e), []);
    } else {
      assert (es + [e])[1..] == es[1..] + [e];
      RunMore(Step(s, es[0]), es[1..], e);
    }
  }

  lemma {:induction false} RunBoth(s: State, es: seq<Event>, fs: seq<Event>)
    ensures Run(s, es + fs) == Run(Run(s, es), fs)
    decreases |es|
  {
    hide Step;
    if es == [] {
      assert [] + fs == fs;
    } else {
      assert (es + fs)[1..] == es[1..] + fs;
      RunBoth(Step(s, es[0]), es[1..], fs);
    }
  }

  lemma RunTurn(s: State, es: seq<Event>, fs: seq<Event>, e: Event)
    requires LoopEvents(es) && (forall f <- fs :: f.Defer?) && (e.PlayNext? || e.DropNext?)
    ensures Run(s, es + fs + [e]) == Step(Run(Run(s, es), fs), e) && LoopEvents(es + fs + [e])
  {
    RunMore(s, es + fs, e);
    RunBoth(s, es, fs);
  }

  lemma {:induction false} DefersKeepPm(s: State, es: seq<Event>)
    requires forall e <- es :: e.Defer?
    ensures Run(s, es).pm == s.pm
    decreases |es|
  {
    if es != [] {
      DefersKeepPm(Step(s, es[0]), es[1..]);
    }
  }
}
