/** The life of one URB in the deferred-transmission protocol: how it gets to each of its places. */
module AutosuspendUrbs {
  import opened Autosuspend

  /** The first loop of `play_deferred` hands URB `u` to the USB core. */
  predicate Plays(s: State, e: Event, u: nat) {
    s.pm.Playing? && e == PlayNext(true) && s.deferred != [] && s.deferred[0] == u
  }

  /** URB `u` is finished by its completion. */
  predicate Finishes(s: State, e: Event, u: nat) {
    e == Complete(u) && (At(s, u, Isoc) || (At(s, u, Outstanding) && TxLockFree(s)))
  }

  predicate Enters(s: State, e: Event, u: nat) {
    e == Send(u) && u !in s.urbs && TxLockFree(s)
  }

  lemma {:induction false} ScuttleElsewhere(s: State, u: nat)
    requires AnchorMatches(s) && !At(s, u, Deferred)
    ensures (u in Scuttle(s).urbs <==> u in s.urbs) && (u in s.urbs ==> Scuttle(s).urbs[u] == s.urbs[u])
    decreases |s.deferred|
  {
    if s.deferred != [] {
      TakeKeepsAnchor(s, Discarded);
      assert At(s, s.deferred[0], Deferred);
      ScuttleElsewhere(TakeDeferred(s, Discarded), u);
    }
  }

  lemma ScuttlePlaces(s: State, u: nat, p: Place)
    requires AnchorMatches(s) && !p.Discarded?
    ensures At(Scuttle(s), u, p) <==> At(s, u, p) && !p.Deferred?
  {
    ScuttleDooms(s, u);
    if !At(s, u, Deferred) {
      ScuttleElsewhere(s, u);
    }
  }

  lemma FailedResumePlaces(s: State, u: nat, p: Place)
    requires AnchorMatches(s) && !p.Discarded?
    ensures At(Step(s, ResumeFailed), u, p) <==> At(s, u, p) && !(p.Deferred? && s.pm.Resuming?)
  {
    ScuttlePlaces(s, u, p);
    hide Scuttle, AnchorMatches;
  }

  /** A sender that is not held back commits its URB, and its submission ends that, with success or not. */
  lemma CommittedPlaces(s: State, e: Event, u: nat)
    requires AnchorMatches(s)
    ensures var s' := Step(s, e);
            && (At(s', u, Committed) <==> (At(s, u, Committed) && !(e.Submit? && e.urb == u)) || (Enters(s, e, u) && !s.suspending))
            && (At(s', u, Failed) <==> At(s, u, Failed) || (At(s, u, Committed) && e == Submit(u, false)))
  {
    assert s.deferred != [] ==> At(s, s.deferred[0], Deferred);
    hide AnchorMatches, Scuttle;
    if e.ResumeFailed? {
      FailedResumePlaces(s, u, Committed);
      FailedResumePlaces(s, u, Failed);
      hide Step, At;
    }
  }

  /** The USB core has the URBs that were submitted or played, until their completion finishes them. */
  lemma OutstandingPlaces(s: State, e: Event, u: nat)
    requires AnchorMatches(s)
    ensures var s' := Step(s, e);
            && (At(s', u, Outstanding) <==> (At(s, u, Outstanding) && !Finishes(s, e, u))
                                            || (At(s, u, Committed) && e == Submit(u, true)) || Plays(s, e, u))
            && (At(s', u, Completed) <==> At(s, u, Completed) || Finishes(s, e, u))
  {
    assert s.deferred != [] ==> At(s, s.deferred[0], Deferred);
    hide AnchorMatches, Scuttle;
    if e.ResumeFailed? {
      FailedResumePlaces(s, u, Outstanding);
      FailedResumePlaces(s, u, Completed);
      hide Step, At;
    }
  }

  /** And the others: a sender that is held back defers it, and it waits on the anchor until it is played or given up;
      an isochronous one is handed over without being counted, even while suspending. */
  lemma UncountedPlaces(s: State, e: Event, u: nat)
    requires AnchorMatches(s)
    ensures var s' := Step(s, e);
            && (At(s', u, Deferring) <==> (At(s, u, Deferring) && e != Defer(u)) || (Enters(s, e, u) && s.suspending))
            && (At(s', u, Deferred) ==> At(s, u, Deferred) || (At(s, u, Deferring) && e == Defer(u)))
            && (At(s, u, Deferring) && e == Defer(u) ==> At(s', u, Deferred))
            && (At(s', u, Isoc) <==> (At(s, u, Isoc) && !Finishes(s, e, u)) || (e == SendIsoc(u, true) && u !in s.urbs))
  {
    assert s.deferred != [] ==> At(s, s.deferred[0], Deferred);
    hide AnchorMatches, Scuttle;
    if e.ResumeFailed? {
      FailedResumePlaces(s, u, Deferring);
      FailedResumePlaces(s, u, Deferred);
      FailedResumePlaces(s, u, Isoc);
      hide Step, At;
    }
  }
}
