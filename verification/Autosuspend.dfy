/** The deferred-transmission protocol of btusb around `tx_in_flight`, at the granularity of `txlock` and of the
    anchors' own locks. Senders, completions and the power-management calls interleave freely. */
module Autosuspend {

  /** Where a transmit URB is. A `Committed` one has been counted and is about to be submitted, a `Deferring` one is
      about to be put on the deferred anchor, a `Failed` one was counted and then refused by the USB core. */
  datatype Place = Committed | Outstanding | Deferring | Deferred | Completed | Failed | Discarded | Isoc

  predicate Counts(p: Place) {
    p.Committed? || p.Outstanding? || p.Failed?
  }

  /** `Playing` and `Dropping` are the two loops of `play_deferred`, during which `txlock` is held. */
  datatype Pm = Awake | Asleep(auto: bool) | Resuming(auto: bool) | Scuttled | Playing | Dropping

  /** An URB taken off the deferred anchor, whether it was submitted, and by which resume. */
  datatype Pop = Pop(urb: nat, played: bool, resume: nat)

  /** `appended` and `popped` record the traffic of the deferred anchor; `resumes` numbers the resumes. */
  datatype State = State(
    urbs: map<nat, Place>, txInFlight: int, suspending: bool, suspendCount: int, pm: Pm,
    deferred: seq<nat>, appended: seq<nat>, popped: seq<Pop>, resumes: nat)

  datatype Event =
    | Send(urb: nat)
    | Submit(urb: nat, ok: bool)
    | Defer(urb: nat)
    | Complete(urb: nat)
    | SendIsoc(urb: nat, ok: bool)
    | Suspend(auto: bool, connections: nat)
    | Resume
    | ResumeNotRunning
    | ResumeFailed
    | ResumeUnlock
    | ResumePlay
    | PlayNext(ok: bool)
    | DropNext

  const INITIAL := State(map[], 0, false, 0, Awake, [], [], [], 0)

  predicate At(s: State, u: nat, p: Place) {
    u in s.urbs && s.urbs[u] == p
  }

  predicate TxLockFree(s: State) {
    !s.pm.Playing? && !s.pm.Dropping?
  }

  function Move(s: State, u: nat, p: Place): State {
    s.(urbs := s.urbs[u := p])
  }

  /** Takes the first URB off the deferred anchor. */
  function TakeDeferred(s: State, p: Place): State
    requires s.deferred != []
  {
    var u := s.deferred[0];
    Move(s, u, p).(deferred := s.deferred[1..], popped := s.popped + [Pop(u, p.Outstanding?, s.resumes)])
  }

  function Scuttle(s: State): (s': State)
    ensures s'.deferred == []
    decreases |s.deferred|
  {
    if s.deferred == [] then s else Scuttle(TakeDeferred(s, Discarded))
  }

  /** `btusb_suspend` up to the end of its critical section. */
  function SuspendStep(s: State, auto: bool, connections: nat): State {
    if auto && connections > 0 then s
    else if s.suspendCount > 0 then s.(suspendCount := s.suspendCount + 1)
    else if !(auto && s.txInFlight != 0) then s.(suspendCount := 1, suspending := true, pm := Asleep(auto))
    else s
  }

  /** An event that is not enabled changes nothing. */
  function Step(s: State, e: Event): State {
    match e
    case Send(u) =>
      if u in s.urbs || !TxLockFree(s) then s
      else if s.suspending then Move(s, u, Deferring)
      else Move(s, u, Committed).(txInFlight := s.txInFlight + 1)
    case Submit(u, ok) => if At(s, u, Committed) then Move(s, u, if ok then Outstanding else Failed) else s
    case Defer(u) =>
      if At(s, u, Deferring) then Move(s, u, Deferred).(deferred := s.deferred + [u], appended := s.appended + [u]) else s
    case Complete(u) =>
      if At(s, u, Isoc) then Move(s, u, Completed)
      else if At(s, u, Outstanding) && TxLockFree(s) then Move(s, u, Completed).(txInFlight := s.txInFlight - 1)
      else s
    case SendIsoc(u, ok) => if u in s.urbs then s else Move(s, u, if ok then Isoc else Discarded)
    case Suspend(auto, connections) =>
      if s.pm.Awake? || s.pm.Asleep? then SuspendStep(s, auto, connections) else s
    case Resume =>
      if !s.pm.Asleep? then s
      else if s.suspendCount > 1 then s.(suspendCount := s.suspendCount - 1)
      else s.(suspendCount := 0, pm := Resuming(s.pm.auto), resumes := s.resumes + 1)
    case ResumeNotRunning => if s.pm.Resuming? then s.(suspending := false, pm := Awake) else s
    case ResumeFailed => if s.pm.Resuming? then Scuttle(s).(pm := Scuttled) else s
    case ResumeUnlock => if s.pm.Scuttled? then s.(suspending := false, pm := Awake) else s
    case ResumePlay => if s.pm.Resuming? then s.(pm := Playing) else s
    case PlayNext(ok) =>
      if !s.pm.Playing? then s
      else if s.deferred == [] then s.(pm := Dropping)
      else if ok then TakeDeferred(s, Outstanding).(txInFlight := s.txInFlight + 1)
      else TakeDeferred(s, Discarded).(pm := Dropping)
    case DropNext =>
      if !s.pm.Dropping? then s
      else if s.deferred == [] then s.(suspending := false, pm := Awake)
      else TakeDeferred(s, Discarded)
  }

  function Run(s: State, es: seq<Event>): State
    decreases |es|
  {
    if es == [] then s else Run(Step(s, es[0]), es[1..])
  }

  // ---- the count ----

  ghost function Counted(urbs: map<nat, Place>): set<nat> {
    set u | u in urbs && Counts(urbs[u])
  }

  lemma CountedMove(urbs: map<nat, Place>, u: nat, p: Place)
    ensures |Counted(urbs[u := p])|
         == |Counted(urbs)| - (if u in urbs && Counts(urbs[u]) then 1 else 0) + (if Counts(p) then 1 else 0)
  {
    assert Counted(urbs[u := p]) == if Counts(p) then Counted(urbs) + {u} else Counted(urbs) - {u};
  }

  function Urbs(ps: seq<Pop>): (us: seq<nat>)
    ensures |us| == |ps|
  {
    seq(|ps|, i requires 0 <= i < |ps| => ps[i].urb)
  }

  /** The deferred anchor: its URBs, each once, are the ones whose place says so. */
  ghost predicate AnchorMatches(s: State) {
    && (forall i :: 0 <= i < |s.deferred| ==> At(s, s.deferred[i], Deferred))
    && (forall i, j :: 0 <= i < j < |s.deferred| ==> s.deferred[i] != s.deferred[j])
    && (forall u | u in s.urbs && s.urbs[u].Deferred? :: u in s.deferred)
  }

  /** Within one resume the submitted URBs come before the discarded ones. */
  ghost predicate PrefixPlayed(s: State) {
    && (forall i :: 0 <= i < |s.popped| ==> s.popped[i].resume <= s.resumes)
    && (forall i, j :: 0 <= i < j < |s.popped| && s.popped[i].resume == s.popped[j].resume && s.popped[j].played ==> s.popped[i].played)
    && (s.pm.Playing? ==> forall i :: 0 <= i < |s.popped| && s.popped[i].resume == s.resumes ==> s.popped[i].played)
    && (s.pm.Resuming? ==> forall i :: 0 <= i < |s.popped| ==> s.popped[i].resume < s.resumes)
  }

  /** The deferred anchor is a queue: what was taken off is what was put on first, in that order. */
  ghost predicate Fifo(s: State) {
    s.appended == Urbs(s.popped) + s.deferred && PrefixPlayed(s)
  }

  ghost predicate Inv(s: State) {
    && s.txInFlight == |Counted(s.urbs)|
    && s.suspendCount >= 0
    && (s.pm.Asleep? <==> s.suspendCount > 0)
    && (s.suspending <==> !s.pm.Awake?)
    && ((s.pm.Asleep? || s.pm.Resuming?) && s.pm.auto ==> s.txInFlight == 0)
    && AnchorMatches(s)
    && Fifo(s)
  }

  // ---- every step keeps the invariant ----

  lemma MoveKeeps(s: State, u: nat, p: Place)
    requires AnchorMatches(s) && !At(s, u, Deferred) && !p.Deferred?
    ensures AnchorMatches(Move(s, u, p))
  {
  }

  lemma DeferKeeps(s: State, u: nat)
    requires AnchorMatches(s) && s.appended == Urbs(s.popped) + s.deferred && At(s, u, Deferring)
    ensures var s' := Step(s, Defer(u));
            AnchorMatches(s') && s'.appended == Urbs(s'.popped) + s'.deferred
  {
    var s' := Step(s, Defer(u));
    assert s'.deferred[|s.deferred|] == u;
    assert s.urbs[u := Deferred][u] == Deferred;
  }

  lemma TakeKeepsAnchor(s: State, p: Place)
    requires AnchorMatches(s) && s.deferred != [] && !p.Deferred?
    ensures AnchorMatches(TakeDeferred(s, p))
  {
    var s' := TakeDeferred(s, p);
    forall u | u in s'.urbs && s'.urbs[u].Deferred? ensures u in s'.deferred {
      assert u in s.deferred && u != s.deferred[0];
    }
  }

  lemma TakeKeeps(s: State, p: Place)
    requires AnchorMatches(s) && s.appended == Urbs(s.popped) + s.deferred && s.deferred != [] && !p.Deferred?
    ensures var s' := TakeDeferred(s, p);
            && AnchorMatches(s') && s'.appended == Urbs(s'.popped) + s'.deferred
            && |Counted(s'.urbs)| == |Counted(s.urbs)| + (if Counts(p) then 1 else 0)
  {
    var s' := TakeDeferred(s, p);
    TakeKeepsAnchor(s, p);
    CountedMove(s.urbs, s.deferred[0], p);
    assert At(s, s.deferred[0], Deferred);
    hide AnchorMatches, Counted;
    assert Urbs(s'.popped) == Urbs(s.popped) + [s.deferred[0]];
  }

  /** In the current resume nothing was submitted from the anchor so far. */
  ghost predicate NothingPlayed(s: State) {
    forall i :: 0 <= i < |s.popped| && s.popped[i].resume == s.resumes ==> !s.popped[i].played
  }

  lemma {:induction false} ScuttleKeeps(s: State)
    requires AnchorMatches(s) && s.appended == Urbs(s.popped) + s.deferred
    requires s.pm.Resuming? && PrefixPlayed(s.(pm := Scuttled)) && NothingPlayed(s)
    ensures var s' := Scuttle(s);
            && AnchorMatches(s') && s'.appended == Urbs(s'.popped) + s'.deferred && PrefixPlayed(s'.(pm := Scuttled))
            && |Counted(s'.urbs)| == |Counted(s.urbs)|
            && s'.(urbs := s.urbs, popped := s.popped, deferred := s.deferred) == s
    decreases |s.deferred|
  {
    if s.deferred != [] {
      TakeKeeps(s, Discarded);
      hide AnchorMatches;
      ScuttleKeeps(TakeDeferred(s, Discarded));
    }
  }

  lemma SenderKeepsInv(s: State, e: Event)
    requires Inv(s) && (e.Send? || e.Submit? || e.Defer? || e.Complete? || e.SendIsoc?)
    ensures Inv(Step(s, e))
  {
    if e.Defer? {
      if At(s, e.urb, Deferring) {
        DeferKeeps(s, e.urb);
        CountedMove(s.urbs, e.urb, Deferred);
      }
    } else if Step(s, e) != s {
      var p := Step(s, e).urbs[e.urb];
      MoveKeeps(s, e.urb, p);
      CountedMove(s.urbs, e.urb, p);
      CountedMember(s.urbs, e.urb);
    }
  }

  lemma CountedMember(urbs: map<nat, Place>, u: nat)
    ensures |Counted(urbs)| == 0 ==> !(u in urbs && Counts(urbs[u]))
  {
    if u in urbs && Counts(urbs[u]) {
      assert u in Counted(urbs);
    }
  }

  lemma PowerKeepsInv(s: State, e: Event)
    requires Inv(s) && (e.Suspend? || e.Resume? || e.ResumeNotRunning? || e.ResumeFailed? || e.ResumeUnlock? || e.ResumePlay?)
    ensures Inv(Step(s, e))
  {
    if e.ResumeFailed? && s.pm.Resuming? {
      ScuttleKeeps(s);
    }
  }

  lemma PlayKeepsInv(s: State, ok: bool)
    requires Inv(s) && s.pm.Playing? && s.deferred != []
    ensures Inv(Step(s, PlayNext(ok)))
  {
    TakeKeeps(s, if ok then Outstanding else Discarded);
    hide AnchorMatches, Counted, Urbs;
  }

  lemma DropKeepsInv(s: State)
    requires Inv(s) && s.pm.Dropping? && s.deferred != []
    ensures Inv(Step(s, DropNext))
  {
    TakeKeeps(s, Discarded);
    hide AnchorMatches, Counted, Urbs;
  }

  lemma LoopEndKeepsInv(s: State, e: Event)
    requires Inv(s) && (e.PlayNext? || e.DropNext?)
    requires s.deferred == [] || (e.PlayNext? && !s.pm.Playing?) || (e.DropNext? && !s.pm.Dropping?)
    ensures Inv(Step(s, e))
  {
    assert AnchorMatches(Step(s, e));
    hide AnchorMatches, Counted, Urbs;
  }

  lemma StepKeepsInv(s: State, e: Event)
    requires Inv(s)
    ensures Inv(Step(s, e))
  {
    match e
    case PlayNext(ok) => if s.pm.Playing? && s.deferred != [] { PlayKeepsInv(s, ok); } else { LoopEndKeepsInv(s, e); }
    case DropNext => if s.pm.Dropping? && s.deferred != [] { DropKeepsInv(s); } else { LoopEndKeepsInv(s, e); }
    case Send(_) => SenderKeepsInv(s, e);
    case Submit(_, _) => SenderKeepsInv(s, e);
    case Defer(_) => SenderKeepsInv(s, e);
    case Complete(_) => SenderKeepsInv(s, e);
    case SendIsoc(_, _) => SenderKeepsInv(s, e);
    case _ => PowerKeepsInv(s, e);
  }

  /** Every interleaving: `tx_in_flight` is the number of counted URBs, so it is never negative; the deferred anchor
      is a queue of which each resume submits a prefix; and after a successful autosuspend nothing is counted. */
  lemma {:induction false} RunKeepsInv(s: State, es: seq<Event>)
    requires Inv(s)
    ensures Inv(Run(s, es))
    decreases |es|
  {
    if es != [] {
      StepKeepsInv(s, es[0]);
      hide Inv, Step;
      RunKeepsInv(Step(s, es[0]), es[1..]);
    }
  }

  lemma InitialKeeps()
    ensures Inv(INITIAL)
  {
    assert Counted(INITIAL.urbs) == {};
  }

  // ---- suspended means quiet ----

  /** The event hands a counted URB to the USB core. */
  predicate Submits(s: State, e: Event) {
    (e.Submit? && At(s, e.urb, Committed)) || (e.PlayNext? && s.pm.Playing? && s.deferred != [])
  }

  predicate Down(s: State) {
    s.pm.Asleep? || s.pm.Resuming?
  }

  /** In every run, from a successful autosuspend until `play_deferred` no counted URB is submitted. */
  lemma AutosuspendIsQuiet(es: seq<Event>, e: Event)
    ensures var s := Run(INITIAL, es);
            Down(s) && s.pm.auto ==> !Submits(s, e)
  {
    InitialKeeps();
    RunKeepsInv(INITIAL, es);
    if e.Submit? {
      CountedMember(Run(INITIAL, es).urbs, e.urb);
    }
  }

  ghost predicate SomeCounted(s: State) {
    exists u | u in s.urbs :: Counts(s.urbs[u])
  }

  lemma CountedIff(s: State)
    requires Inv(s)
    ensures s.txInFlight != 0 <==> SomeCounted(s)
  {
    if SomeCounted(s) {
      var u :| u in s.urbs && Counts(s.urbs[u]);
      CountedMember(s.urbs, u);
    } else {
      assert Counted(s.urbs) == {};
    }
  }

  /** While awake, an autosuspend succeeds exactly when there is no connection and no URB is committed, outstanding or
      lost to a failed submission; a system suspend always succeeds. A suspend that is refused changes nothing. */
  lemma AutosuspendSucceedsIff(s: State, auto: bool, connections: nat)
    requires Inv(s) && s.pm.Awake?
    ensures var s' := Step(s, Suspend(auto, connections));
            if auto && (connections > 0 || SomeCounted(s)) then s' == s
            else s' == s.(pm := Asleep(auto), suspending := true, suspendCount := 1)
  {
    CountedIff(s);
  }

  /** While asleep, only an autosuspend with a connection is refused; every other suspend nests by one, and as many
      resumes as suspends wake the device up. */
  lemma SuspendsNest(s: State, auto: bool, connections: nat)
    requires Inv(s) && s.pm.Asleep?
    ensures var s' := Step(s, Suspend(auto, connections));
            s' == if auto && connections > 0 then s else s.(suspendCount := s.suspendCount + 1)
    ensures var s' := Step(s, Resume);
            && s'.suspendCount == s.suspendCount - 1 && s'.urbs == s.urbs && s'.txInFlight == s.txInFlight
            && s'.deferred == s.deferred && s'.suspending
            && (if s.suspendCount == 1 then s'.pm == Resuming(s.pm.auto) else s'.pm == s.pm)
  {
  }

  ghost predicate DownThroughout(s: State, es: seq<Event>)
    decreases |es|
  {
    Down(s) && (es != [] ==> DownThroughout(Step(s, es[0]), es[1..]))
  }

  ghost predicate EverSubmits(s: State, es: seq<Event>)
    decreases |es|
  {
    es != [] && (Submits(s, es[0]) || EverSubmits(Step(s, es[0]), es[1..]))
  }

  ghost predicate SomeCommitted(s: State) {
    exists u :: At(s, u, Committed)
  }

  lemma {:induction false} NoneCommittedStays(s: State, es: seq<Event>)
    requires Inv(s) && !SomeCommitted(s) && DownThroughout(s, es)
    ensures !EverSubmits(s, es)
    decreases |es|
  {
    if es != [] {
      var s1 := Step(s, es[0]);
      StepKeepsInv(s, es[0]);
      if es[0].ResumeFailed? && Down(s1) {
        assert s1 == s;
      }
      forall u ensures !At(s1, u, Committed) {
        assert !At(s, u, Committed);
      }
      hide Inv;
      NoneCommittedStays(s1, es[1..]);
    }
  }

  ghost predicate MaySubmitWhileDown(s: State) {
    exists es :: DownThroughout(s, es) && EverSubmits(s, es)
  }

  /** After any suspend: a counted URB can be submitted before the resume exactly when some sender had already
      been counted when the suspend took the lock. A system suspend does not exclude that; an autosuspend does. */
  lemma SubmitsWhileDownIff(s: State)
    requires Inv(s) && s.pm.Asleep?
    ensures MaySubmitWhileDown(s) <==> SomeCommitted(s)
  {
    if SomeCommitted(s) {
      var u :| At(s, u, Committed);
      var es := [Submit(u, true)];
      assert es[1..] == [];
      assert DownThroughout(s, es) && EverSubmits(s, es);
    } else {
      forall es | DownThroughout(s, es) ensures !EverSubmits(s, es) {
        NoneCommittedStays(s, es);
      }
    }
  }

  // ---- failed submissions ----

  lemma {:induction false} ScuttleFrame(s: State, u: nat)
    requires AnchorMatches(s) && s.appended == Urbs(s.popped) + s.deferred && At(s, u, Failed)
    ensures At(Scuttle(s), u, Failed)
    decreases |s.deferred|
  {
    if s.deferred != [] {
      TakeKeeps(s, Discarded);
      ScuttleFrame(TakeDeferred(s, Discarded), u);
    }
  }

  lemma FailedStays(s: State, e: Event, u: nat)
    requires Inv(s) && At(s, u, Failed)
    ensures At(Step(s, e), u, Failed)
  {
    if e.ResumeFailed? && s.pm.Resuming? {
      ScuttleFrame(s, u);
    }
    assert s.deferred != [] ==> At(s, s.deferred[0], Deferred);
  }

  /** A refused submission leaves the count raised for good: no autosuspend ever succeeds again. */
  lemma {:induction false} FailureBlocksAutosuspend(s: State, es: seq<Event>, u: nat)
    requires Inv(s) && At(s, u, Failed)
    ensures var s' := Run(s, es);
            At(s', u, Failed) && s'.txInFlight > 0
            && forall n: nat :: s'.pm.Awake? ==> Step(s', Suspend(true, n)) == s'
    decreases |es|
  {
    if es == [] {
      CountedMember(s.urbs, u);
    } else {
      StepKeepsInv(s, es[0]);
      FailedStays(s, es[0], u);
      hide Inv, Step;
      FailureBlocksAutosuspend(Step(s, es[0]), es[1..], u);
    }
  }

  // ---- what becomes of deferred URBs ----

  /** URB `u` has been thrown away, or waits on the anchor for the loop that does so. */
  predicate Doomed(s: State, u: nat) {
    At(s, u, Discarded) || (s.pm.Dropping? && At(s, u, Deferred))
  }

  /** The first loop of `play_deferred` or a failed resume finds URB `u` on the anchor and gives it up. */
  predicate FailsWith(s: State, e: Event, u: nat) {
    At(s, u, Deferred) && ((s.pm.Playing? && e == PlayNext(false)) || (s.pm.Resuming? && e == ResumeFailed))
  }

  /** URB `u` is put on the anchor after the first loop has ended. */
  predicate DefersLate(s: State, e: Event, u: nat) {
    At(s, u, Deferring) && s.pm.Dropping? && e == Defer(u)
  }

  predicate RefusesIsoc(s: State, e: Event, u: nat) {
    u !in s.urbs && e == SendIsoc(u, false)
  }

  predicate Dooms(s: State, e: Event, u: nat) {
    FailsWith(s, e, u) || DefersLate(s, e, u) || RefusesIsoc(s, e, u)
  }

  predicate EverDooms(s: State, es: seq<Event>, u: nat)
    decreases |es|
  {
    es != [] && (Dooms(s, es[0], u) || EverDooms(Step(s, es[0]), es[1..], u))
  }

  predicate EverDefersLate(s: State, es: seq<Event>, u: nat)
    decreases |es|
  {
    es != [] && (DefersLate(s, es[0], u) || EverDefersLate(Step(s, es[0]), es[1..], u))
  }

  lemma {:induction false} ScuttleDooms(s: State, u: nat)
    requires AnchorMatches(s)
    ensures At(Scuttle(s), u, Discarded) <==> At(s, u, Discarded) || At(s, u, Deferred)
    ensures !At(Scuttle(s), u, Deferred)
    decreases |s.deferred|
  {
    if s.deferred == [] {
      assert At(s, u, Deferred) ==> u in s.deferred;
    } else {
      TakeKeepsAnchor(s, Discarded);
      assert At(s, s.deferred[0], Deferred);
      ScuttleDooms(TakeDeferred(s, Discarded), u);
    }
  }

  lemma LoopDooms(s: State, e: Event, u: nat)
    requires AnchorMatches(s) && (e.PlayNext? || e.DropNext?)
    ensures Doomed(Step(s, e), u) <==> Doomed(s, u) || Dooms(s, e, u)
    ensures Handled(s, u) ==> Handled(Step(s, e), u)
  {
    assert At(s, u, Deferred) ==> u in s.deferred;
    assert s.deferred != [] ==> At(s, s.deferred[0], Deferred);
    hide AnchorMatches;
  }

  lemma FailedResumeDooms(s: State, u: nat)
    requires AnchorMatches(s)
    ensures Doomed(Step(s, ResumeFailed), u) <==> Doomed(s, u) || Dooms(s, ResumeFailed, u)
    ensures Handled(s, u) ==> Handled(Step(s, ResumeFailed), u)
  {
    ScuttleDooms(s, u);
    if Submitted(s, u) {
      ScuttleLeaves(s, u);
    }
    hide AnchorMatches, Scuttle;
  }

  lemma OtherDooms(s: State, e: Event, u: nat)
    requires !e.PlayNext? && !e.DropNext? && !e.ResumeFailed?
    ensures Doomed(Step(s, e), u) <==> Doomed(s, u) || Dooms(s, e, u)
    ensures Handled(s, u) ==> Handled(Step(s, e), u)
  {
  }

  lemma StepDooms(s: State, e: Event, u: nat)
    requires AnchorMatches(s)
    ensures Doomed(Step(s, e), u) <==> Doomed(s, u) || Dooms(s, e, u)
    ensures Handled(s, u) ==> Handled(Step(s, e), u)
  {
    match e
    case PlayNext(ok) => LoopDooms(s, e, u);
    case DropNext => LoopDooms(s, e, u);
    case ResumeFailed => FailedResumeDooms(s, u);
    case _ => OtherDooms(s, e, u); hide Step, Doomed, Dooms, Handled, AnchorMatches;
  }

  /** In every interleaving: an URB is thrown away if and only if it was on the anchor when a submission or the resume
      failed, was put there between the two loops of `play_deferred`, or is a refused isochronous one. */
  lemma {:induction false} DoomedIff(s: State, es: seq<Event>, u: nat)
    requires Inv(s)
    ensures Doomed(Run(s, es), u) <==> Doomed(s, u) || EverDooms(s, es, u)
    decreases |es|
  {
    if es != [] {
      StepKeepsInv(s, es[0]);
      StepDooms(s, es[0], u);
      hide Inv, Step, Doomed, Dooms;
      DoomedIff(Step(s, es[0]), es[1..], u);
    }
  }

  predicate FailureFree(es: seq<Event>) {
    forall e | e in es :: e != PlayNext(false) && e != ResumeFailed && !e.SendIsoc?
  }

  lemma {:induction false} OnlyLateDooms(s: State, es: seq<Event>, u: nat)
    requires FailureFree(es)
    ensures EverDooms(s, es, u) <==> EverDefersLate(s, es, u)
    decreases |es|
  {
    if es != [] {
      assert es[0] in es;
      assert forall e | e in es[1..] :: e in es;
      hide Step, DefersLate;
      OnlyLateDooms(Step(s, es[0]), es[1..], u);
    }
  }

  /** In particular, in every run without a failure that does not stop between the loops, an URB is thrown away if and
      only if it was put on the anchor between the two loops of `play_deferred`. */
  lemma LostIffLate(s: State, es: seq<Event>, u: nat)
    requires Inv(s) && FailureFree(es) && !Doomed(s, u) && !Run(s, es).pm.Dropping?
    ensures At(Run(s, es), u, Discarded) <==> EverDefersLate(s, es, u)
  {
    DoomedIff(s, es, u);
    OnlyLateDooms(s, es, u);
    hide Run, EverDooms, EverDefersLate, Inv;
  }

  predicate Submitted(s: State, u: nat) {
    At(s, u, Outstanding) || At(s, u, Completed)
  }

  /** What a deferred URB can be once `play_deferred` has begun. */
  predicate Handled(s: State, u: nat) {
    Submitted(s, u) || Doomed(s, u) || (s.pm.Playing? && At(s, u, Deferred))
  }

  lemma {:induction false} ScuttleLeaves(s: State, u: nat)
    requires AnchorMatches(s) && Submitted(s, u)
    ensures Submitted(Scuttle(s), u)
    decreases |s.deferred|
  {
    if s.deferred != [] {
      TakeKeepsAnchor(s, Discarded);
      assert At(s, s.deferred[0], Deferred);
      ScuttleLeaves(TakeDeferred(s, Discarded), u);
    }
  }

  lemma {:induction false} RunHandles(s: State, es: seq<Event>, u: nat)
    requires Inv(s) && Handled(s, u)
    ensures Handled(Run(s, es), u)
    decreases |es|
  {
    if es != [] {
      StepKeepsInv(s, es[0]);
      StepDooms(s, es[0], u);
      hide Inv, Step, Handled;
      RunHandles(Step(s, es[0]), es[1..], u);
    }
  }

  /** In every interleaving: of the URBs on the anchor when `play_deferred` begins, those that no failed submission
      finds there have been handed to the USB core when its loops are over, and the others have been thrown away. */
  lemma DeferredIsSentIff(s: State, es: seq<Event>, u: nat)
    requires Inv(s) && s.pm.Playing? && At(s, u, Deferred) && TxLockFree(Run(s, es))
    ensures var s' := Run(s, es);
            if EverDooms(s, es, u) then At(s', u, Discarded) else Submitted(s', u)
  {
    DoomedIff(s, es, u);
    RunHandles(s, es, u);
    hide Run, EverDooms, Inv;
  }

  function PlayNexts(es: seq<Event>): nat {
    if es == [] then 0 else (if es[0].PlayNext? then 1 else 0) + PlayNexts(es[1..])
  }

  function Defers(es: seq<Event>): nat {
    if es == [] then 0 else (if es[0].Defer? then 1 else 0) + Defers(es[1..])
  }

  predicate EverDropping(s: State, es: seq<Event>)
    decreases |es|
  {
    s.pm.Dropping? || (es != [] && EverDropping(Step(s, es[0]), es[1..]))
  }

  /** The first loop ends: it takes at most one turn for each URB on the anchor or put there meanwhile, and one more. */
  lemma {:induction false} PlayEnds(s: State, es: seq<Event>)
    requires s.pm.Playing? && PlayNexts(es) > |s.deferred| + Defers(es)
    ensures EverDropping(s, es)
    decreases |es|
  {
    var s1 := Step(s, es[0]);
    if !s1.pm.Dropping? {
      PlayEnds(s1, es[1..]);
    }
  }

  ghost predicate LosesWithoutFailure(es: seq<Event>, u: nat) {
    && (forall i :: 0 <= i < |es| ==> (es[i].PlayNext? ==> es[i].ok) && !es[i].ResumeFailed?)
    && At(Run(INITIAL, es), u, Discarded) && Run(INITIAL, es).pm.Awake?
  }

  lemma SleepAndSend(s: State, u: nat)
    requires Inv(s) && s.pm.Awake? && s.txInFlight == 0 && u !in s.urbs
    ensures var s' := Step(Step(Step(s, Suspend(true, 0)), Send(u)), Resume);
            s' == s.(pm := Resuming(true), suspending := true, urbs := s.urbs[u := Deferring], resumes := s.resumes + 1)
  {
    hide AnchorMatches, Fifo, Counted;
  }

  lemma DeferBetweenLoops(s: State, u: nat)
    requires s.pm.Resuming? && s.deferred == [] && At(s, u, Deferring)
    ensures var s' := Step(Step(Step(s, ResumePlay), PlayNext(true)), Defer(u));
            s' == s.(pm := Dropping, urbs := s.urbs[u := Deferred], deferred := [u], appended := s.appended + [u])
  {
  }

  lemma DroppedLate(s: State, u: nat)
    requires s.pm.Dropping? && s.deferred == [u]
    ensures var s' := Run(s, [DropNext, DropNext]);
            s'.pm.Awake? && At(s', u, Discarded)
  {
    var es := [DropNext, DropNext];
    assert es[1..] == [DropNext] && es[1..][1..] == [];
    assert Run(s, es) == Run(Step(s, DropNext), es[1..]);
    assert Run(Step(s, DropNext), es[1..]) == Run(Step(Step(s, DropNext), DropNext), []);
  }

  /** The anchor is filled outside `txlock`, so an URB put there between the two loops of `play_deferred`
      is thrown away although no submission failed. */
  lemma DeferredCanBeLost(u: nat)
    ensures exists es :: LosesWithoutFailure(es, u)
  {
    hide Step, Run, Inv;
    var up := [ResumePlay, PlayNext(true), Defer(u)] + [DropNext, DropNext];
    var es := [Suspend(true, 0), Send(u), Resume] + up;
    InitialKeeps();
    SleepAndSend(INITIAL, u);
    var s1 := Step(Step(Step(INITIAL, Suspend(true, 0)), Send(u)), Resume);
    DeferBetweenLoops(s1, u);
    Unroll3(INITIAL, Suspend(true, 0), Send(u), Resume, up);
    Unroll3(s1, ResumePlay, PlayNext(true), Defer(u), [DropNext, DropNext]);
    DroppedLate(Step(Step(Step(s1, ResumePlay), PlayNext(true)), Defer(u)), u);
    assert LosesWithoutFailure(es, u);
  }

  lemma Unroll3(s: State, e1: Event, e2: Event, e3: Event, es: seq<Event>)
    ensures Run(s, [e1, e2, e3] + es) == Run(Step(Step(Step(s, e1), e2), e3), es)
  {
    hide Step;
    var all := [e1, e2, e3] + es;
    assert all[1..] == [e2, e3] + es;
    assert all[1..][1..] == [e3] + es;
    assert all[1..][1..][1..] == es;
    assert Run(s, all) == Run(Step(s, e1), all[1..]);
    assert Run(Step(s, e1), all[1..]) == Run(Step(Step(s, e1), e2), all[1..][1..]);
  }
}
