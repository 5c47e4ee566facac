/** What a block-ack session guarantees: conservation of frames, why a frame may be dropped, that frames
    never wait without a timer, and for which window sizes delivery is in order. */
module ReorderProperties {
  import opened Basics
  import opened SequenceNumber
  import opened ReorderBuffer
  import opened ReorderWindow
  import opened ReorderRefinement
  import opened ReorderTimeout
  import opened ReorderRuns

  // ---- conservation, for every window size: copies of a frame `f` are counted on both sides ----

  function Times(f: Frame, fs: seq<Frame>): nat {
    if fs == [] then 0 else (if fs[0] == f then 1 else 0) + Times(f, fs[1..])
  }

  lemma {:induction false} TimesConcat(f: Frame, a: seq<Frame>, b: seq<Frame>)
    ensures Times(f, a + b) == Times(f, a) + Times(f, b)
  {
    if a == [] {
      assert a + b == b;
    } else {
      TimesConcat(f, a[1..], b);
      assert (a + b)[1..] == a[1..] + b;
    }
  }

  function One(f: Frame, slot: Option<Entry>): nat {
    if slot.Some? && slot.value.frame == f then 1 else 0
  }

  /** How often `f` is buffered. */
  function Held(f: Frame, slots: Slots): nat {
    if slots == [] then 0 else Held(f, slots[..|slots| - 1]) + One(f, slots[|slots| - 1])
  }

  lemma {:induction false} HeldUpdate(f: Frame, slots: Slots, i: nat, slot: Option<Entry>)
    requires i < |slots|
    ensures Held(f, slots[i := slot]) + One(f, slots[i]) == Held(f, slots) + One(f, slot)
  {
    var n := |slots| - 1;
    if i == n {
      assert slots[i := slot][..n] == slots[..n];
    } else {
      HeldUpdate(f, slots[..n], i, slot);
      assert slots[i := slot][..n] == slots[..n][i := slot];
    }
  }

  lemma {:induction false} HeldEmpty(f: Frame, slots: Slots)
    requires forall i :: 0 <= i < |slots| ==> slots[i].None?
    ensures Held(f, slots) == 0
  {
    if slots != [] {
      HeldEmpty(f, slots[..|slots| - 1]);
    }
  }

  ghost predicate Conserves(f: Frame, t: Tid, r: (Tid, seq<Frame>)) {
    Held(f, t.slots) == Held(f, r.0.slots) + Times(f, r.1)
  }

  lemma AggrReleaseConserves(f: Frame, t: Tid, idx: nat)
    requires WellFormed(t) && idx < t.size
    ensures Conserves(f, t, AggrRelease(t, idx))
  {
    if t.slots[idx].Some? {
      HeldUpdate(f, t.slots, idx, None);
    }
  }

  lemma ConservesCompose(f: Frame, t: Tid, r1: (Tid, seq<Frame>), r2: (Tid, seq<Frame>))
    requires Conserves(f, t, r1) && Conserves(f, r1.0, r2)
    ensures Conserves(f, t, (r2.0, r1.1 + r2.1))
  {
    TimesConcat(f, r1.1, r2.1);
  }

  lemma {:induction false} ReleaseFramesConserves(f: Frame, t: Tid, head: nat)
    requires WellFormed(t) && head < SN_MODULO
    ensures Conserves(f, t, ReleaseFrames(t, head))
    decreases SnSub(head, t.head)
  {
    hide SnSub;
    if SnLess(t.head, head) {
      SnLessStep(t.head, head);
      var r1 := AggrRelease(t, t.head % t.size);
      AggrReleaseConserves(f, t, t.head % t.size);
      ReleaseFramesConserves(f, r1.0, head);
      hide Conserves;
      ConservesCompose(f, t, r1, ReleaseFrames(r1.0, head));
    }
  }

  lemma {:induction false} ReleaseHeadConserves(f: Frame, t: Tid)
    requires WellFormed(t)
    ensures Conserves(f, t, ReleaseHead(t))
    decreases t.nframes
  {
    if t.slots[t.head % t.size].Some? {
      OccupiedRemove(t.slots, t.head % t.size);
      var r1 := AggrRelease(t, t.head % t.size);
      AggrReleaseConserves(f, t, t.head % t.size);
      ReleaseHeadConserves(f, r1.0);
      ConservesCompose(f, t, r1, ReleaseHead(r1.0));
    }
  }

  lemma {:induction false} ScanConserves(f: Frame, t: Tid, start: nat, left: nat, n: nat, now: nat)
    requires WellFormed(t) && start < t.size && left < t.size
    ensures Conserves(f, t, Scan(t, start, left, n, now))
    decreases left
  {
    hide ScanSlot, Expired, ReleaseFrames;
    if left != 0 && n != 0 {
      var slot := t.slots[ScanSlot(start, left, t.size)];
      if slot.None? {
        ScanConserves(f, t, start, left - 1, n, now);
      } else if !Expired(slot.value, now, t.timeo) {
        ScanConserves(f, t, start, left - 1, n - 1, now);
      } else {
        var r1 := ReleaseFrames(t, slot.value.frame.seqno);
        ReleaseFramesConserves(f, t, slot.value.frame.seqno);
        ScanConserves(f, r1.0, start, left - 1, n - 1, now);
        ConservesCompose(f, t, r1, Scan(r1.0, start, left - 1, n - 1, now));
      }
    }
  }

  lemma CheckReleaseConserves(f: Frame, t: Tid, now: nat)
    requires WellFormed(t)
    ensures Conserves(f, t, CheckRelease(t, now))
  {
    if t.nframes > 0 {
      var r1 := ReleaseHead(t);
      ReleaseHeadConserves(f, t);
      var r2 := Scan(r1.0, r1.0.head % r1.0.size, r1.0.size - 1, r1.0.nframes, now);
      ScanConserves(f, r1.0, r1.0.head % r1.0.size, r1.0.size - 1, r1.0.nframes, now);
      ReleaseHeadConserves(f, r2.0);
      ConservesCompose(f, t, r1, r2);
      ConservesCompose(f, t, (r2.0, r1.1 + r2.1), ReleaseHead(r2.0));
    }
  }

  lemma {:induction false} FreeSlotsConserves(f: Frame, slots: Slots, i: nat, n: nat)
    requires i <= |slots|
    ensures var (s, m, out) := FreeSlots(slots, i, n); Held(f, slots) == Held(f, s) + Times(f, out)
    decreases |slots| - i
  {
    if n != 0 && i < |slots| {
      if slots[i].None? {
        FreeSlotsConserves(f, slots, i + 1, n);
      } else {
        HeldUpdate(f, slots, i, None);
        FreeSlotsConserves(f, slots[i := None], i + 1, n - 1);
        var (s, m, out) := FreeSlots(slots[i := None], i + 1, n - 1);
        TimesConcat(f, [slots[i].value.frame], out);
        hide Held;
      }
    }
  }

  /** What arrives or was buffered is afterwards passed on, released, freed or still buffered: once each. */
  ghost predicate StepConserves(f: Frame, t: Tid, given: seq<Frame>, r: Result) {
    Held(f, t.slots) + Times(f, given)
    == Held(f, r.tid.slots) + Times(f, r.passed) + Times(f, r.released) + Times(f, r.freed)
  }

  lemma StoreConserves(f: Frame, t: Tid, idx: nat, e: Entry)
    requires WellFormed(t) && idx < t.size && t.slots[idx].None? && e.frame.seqno < SN_MODULO
    ensures var t' := t.(slots := t.slots[idx := Some(e)], nframes := t.nframes + 1);
            && WellFormed(t')
            && var r := ReleaseHead(t');
            Held(f, t.slots) + Times(f, [e.frame]) == Held(f, r.0.slots) + Times(f, r.1)
  {
    OccupiedAdd(t.slots, idx, e);
    HeldUpdate(f, t.slots, idx, Some(e));
    hide Held;
    ReleaseHeadConserves(f, t.(slots := t.slots[idx := Some(e)], nframes := t.nframes + 1));
  }

  lemma MakeRoomConserves(f: Frame, t: Tid, seqno: nat)
    requires WellFormed(t)
    ensures Conserves(f, t, MakeRoom(t, seqno))
  {
    ReleaseFramesConserves(f, t, FlushTarget(seqno, t.size));
  }

  lemma AdmitConserves(f: Frame, t: Tid, g: Frame, now: nat)
    requires WellFormed(t) && g.seqno < SN_MODULO
    ensures StepConserves(f, t, [g], Admit(t, g, now))
  {
    hide Held, MakeRoom, SnSub, SnLess, ReleaseHead;
    var r1 := MakeRoom(t, g.seqno);
    MakeRoomConserves(f, t, g.seqno);
    var idx := g.seqno % r1.0.size;
    if r1.0.slots[idx].None? {
      var e := Entry(g, now);
      StoreConserves(f, r1.0, idx, e);
      var t2 := r1.0.(slots := r1.0.slots[idx := Some(e)], nframes := r1.0.nframes + 1);
      TimesConcat(f, r1.1, ReleaseHead(t2).1);
    }
  }

  lemma ReorderConserves(f: Frame, t: Tid, g: Frame, now: nat)
    requires WellFormed(t) && g.seqno < SN_MODULO
    ensures StepConserves(f, t, [g], Reorder(t, g, now))
  {
    if !t.stopped && !SnLess(g.seqno, t.head) {
      if g.seqno == t.head {
        var t1 := t.(started := true, head := SnInc(t.head));
        ReleaseHeadConserves(f, t1);
        TimesConcat(f, [g], ReleaseHead(t1).1);
      } else {
        AdmitConserves(f, t.(started := true), g, now);
      }
    }
  }

  function Given(e: Event): seq<Frame> {
    if e.Arrival? then [e.frame] else []
  }

  lemma EffectConserves(f: Frame, s: Session, e: Event)
    requires WellFormed(s.tid) && ValidEvent(e)
    ensures StepConserves(f, s.tid, Given(e), Effect(s, e))
  {
    match e
    case Arrival(g, now) =>
      ReorderConserves(f, s.tid, g, now);
    case BlockAckReq(seqno) =>
      var r1 := ReleaseFrames(s.tid, seqno);
      ReleaseFramesConserves(f, s.tid, seqno);
      ReleaseHeadConserves(f, r1.0);
      ConservesCompose(f, s.tid, r1, ReleaseHead(r1.0));
    case Expire(now) =>
      CheckReleaseConserves(f, s.tid, now);
    case Stop =>
      FreeSlotsConserves(f, s.tid.slots, 0, s.tid.nframes);
    case _ =>
  }

  function GivenInRun(es: seq<Event>): seq<Frame> {
    if es == [] then [] else Given(es[0]) + GivenInRun(es[1..])
  }

  /** All frames that leave the session in a run: passed by, released or freed. */
  function LeavingInRun(s: Session, es: seq<Event>): seq<Frame>
    requires WellFormed(s.tid) && forall e <- es :: ValidEvent(e)
    decreases |es|
  {
    if es == [] then
      []
    else
      var r := Effect(s, es[0]);
      (r.passed + r.released + r.freed) + LeavingInRun(Step(s, es[0]), es[1..])
  }

  /** Conservation over a run, for every window size: nothing is lost and nothing is duplicated. */
  lemma {:induction false} RunConserves(f: Frame, s: Session, es: seq<Event>)
    requires WellFormed(s.tid) && forall e <- es :: ValidEvent(e)
    ensures Held(f, s.tid.slots) + Times(f, GivenInRun(es))
            == Held(f, Run(s, es).tid.slots) + Times(f, LeavingInRun(s, es))
    decreases |es|
  {
    if es != [] {
      var r := Effect(s, es[0]);
      EffectConserves(f, s, es[0]);
      StepTid(s, es[0]);
      hide Effect, Step, Held;
      RunConserves(f, Step(s, es[0]), es[1..]);
      TimesConcat(f, Given(es[0]), GivenInRun(es[1..]));
      TimesConcat(f, r.passed, r.released);
      TimesConcat(f, r.passed + r.released, r.freed);
      TimesConcat(f, r.passed + r.released + r.freed, LeavingInRun(Step(s, es[0]), es[1..]));
    }
  }

  /** Shutdown frees exactly what was buffered. */
  lemma ShutdownFreesAll(f: Frame, t: Tid)
    requires WellFormed(t)
    ensures Times(f, Shutdown(t).freed) == Held(f, t.slots) && Shutdown(t).tid.nframes == 0
  {
    FreeSlotsConserves(f, t.slots, 0, t.nframes);
    HeldEmpty(f, Shutdown(t).tid.slots);
  }

  lemma StoppedEffect(s: Session, e: Event)
    requires WellFormed(s.tid) && s.tid.stopped && s.tid.nframes == 0 && ValidEvent(e)
    ensures var r := Effect(s, e);
            && r.passed == Given(e) && r.released == [] && r.freed == [] && r.tid.stopped && r.tid.nframes == 0
  {
  }

  /** A stopped session buffers nothing any more: every frame passes by. */
  lemma {:induction false} StoppedPassesAll(s: Session, es: seq<Event>)
    requires WellFormed(s.tid) && s.tid.stopped && s.tid.nframes == 0 && forall e <- es :: ValidEvent(e)
    ensures Run(s, es).tid.stopped && Run(s, es).tid.nframes == 0
    ensures LeavingInRun(s, es) == GivenInRun(es)
    decreases |es|
  {
    if es != [] {
      var r := Effect(s, es[0]);
      StepTid(s, es[0]);
      assert r.passed + r.released + r.freed == Given(es[0]) && r.tid.stopped && r.tid.nframes == 0 by {
        StoppedEffect(s, es[0]);
      }
      hide Step, Effect;
      StoppedPassesAll(Step(s, es[0]), es[1..]);
    }
  }

  // ---- why a frame is dropped ----

  /** A frame is freed on arrival exactly when it is behind the head of a started session or its
      sequence number is already buffered. */
  lemma FreedOnArrival(t: Tid, uh: nat, f: Frame, now: nat)
    requires Settled(t, uh) && f.seqno < SN_MODULO && !t.stopped
    ensures Reorder(t, f, now).freed == [f] || Reorder(t, f, now).freed == []
    ensures Reorder(t, f, now).freed == [f] <==>
            if SnLess(f.seqno, t.head) then t.started
            else exists i :: 0 <= i < t.size && t.slots[i].Some? && t.slots[i].value.frame.seqno == f.seqno
  {
    if !SnLess(f.seqno, t.head) {
      ReorderRefines(t, uh, f, now);
      AheadOf(uh, f.seqno);
      var u := uh + SnSub(f.seqno, t.head);
      DuplicateInWindow(WindowOf(t, uh), t.size, f, SnSub(f.seqno, t.head), now);
      hide Reorder, Arrive;
      HeldByNumber(t, uh, u);
    }
  }

  lemma DuplicateInWindow(w: Window, size: nat, f: Frame, d: nat, now: nat)
    requires w.head !in w.held && forall v | v in w.held :: v < w.head + size
    ensures Arrive(w, size, f, d, now).freed == (if w.head + d in w.held then [f] else [])
  {
    if d >= size && d > 0 {
      FlushReleases(w, w.head + d - size + 1);
    }
  }

  lemma HeldByNumber(t: Tid, uh: nat, u: nat)
    requires Settled(t, uh) && uh <= u < uh + SN_MODULO
    ensures u in HeldOf(t, uh) <==>
            exists i :: 0 <= i < t.size && t.slots[i].Some? && t.slots[i].value.frame.seqno == u % SN_MODULO
  {
    if i :| 0 <= i < t.size && t.slots[i].Some? && t.slots[i].value.frame.seqno == u % SN_MODULO {
      var v := NumberOfSlot(t, uh, i);
      assert v in HeldOf(t, uh);
      SnSubOfUnwrapped(u, uh);
      SnSubOfUnwrapped(v, uh);
    }
    if u in HeldOf(t, uh) {
      assert t.slots[u % t.size].value.frame.seqno == u % SN_MODULO;
    }
  }

  // ---- the timer ----

  /** While frames are buffered, the delayed work is pending or its current execution will queue it again. */
  ghost predicate TimerArmed(s: Session) {
    s.tid.nframes > 0 ==> s.pending || s.phase.Entered? || s.phase == Scanned(true)
  }

  lemma {:induction false} ReleaseFramesShrinks(t: Tid, head: nat)
    requires WellFormed(t) && head < SN_MODULO
    ensures ReleaseFrames(t, head).0.nframes <= t.nframes
    decreases SnSub(head, t.head)
  {
    hide SnSub;
    if SnLess(t.head, head) {
      SnLessStep(t.head, head);
      ReleaseFramesShrinks(AggrRelease(t, t.head % t.size).0, head);
    }
  }

  lemma {:induction false} ReleaseHeadShrinks(t: Tid)
    requires WellFormed(t)
    ensures ReleaseHead(t).0.nframes <= t.nframes
    decreases t.nframes
  {
    if t.slots[t.head % t.size].Some? {
      OccupiedRemove(t.slots, t.head % t.size);
      ReleaseHeadShrinks(AggrRelease(t, t.head % t.size).0);
    }
  }

  /** Frames are only added by an arrival that queues the work. */
  lemma OnlyArmedGrows(s: Session, e: Event)
    requires WellFormed(s.tid) && ValidEvent(e) && !e.Expire?
    ensures Effect(s, e).armed || Effect(s, e).tid.nframes <= s.tid.nframes
  {
    match e
    case Arrival(f, now) =>
      var t0 := s.tid.(started := true);
      ReleaseHeadShrinks(t0.(head := SnInc(t0.head)));
      ReleaseFramesShrinks(t0, FlushTarget(f.seqno, t0.size));
    case BlockAckReq(seqno) =>
      ReleaseFramesShrinks(s.tid, seqno);
      ReleaseHeadShrinks(ReleaseFrames(s.tid, seqno).0);
    case _ =>
  }

  lemma {:induction false} RunStaysArmed(s: Session, es: seq<Event>)
    requires WellFormed(s.tid) && TimerArmed(s) && forall e <- es :: ValidEvent(e)
    ensures TimerArmed(Run(s, es))
    decreases |es|
  {
    if es != [] {
      StepTid(s, es[0]);
      if !es[0].Expire? {
        OnlyArmedGrows(s, es[0]);
      }
      if !es[0].Expire? || s.phase.Entered? {
        hide Effect;
        RunStaysArmed(Step(s, es[0]), es[1..]);
      } else {
        RunStaysArmed(s, es[1..]);
      }
    }
  }

  // ---- the window size ----

  /** Every run of every session with this window size delivers in strictly increasing order. */
  ghost predicate AlwaysInOrder(size: nat)
    requires 0 < size
  {
    forall ssn: nat, timeo: nat, es: seq<Event> | ssn < SN_MODULO && (forall e <- es :: ValidEvent(e)) ::
      StrictlyIncreasing(Deliveries(Open(ssn, size, timeo), ssn, es))
  }

  /** The first frame ahead of an empty window whose slot is also the head's slot is released at once. */
  lemma ReleasedTooEarly(t: Tid, f: Frame, now: nat)
    requires WellFormed(t) && t.nframes == 0 && !t.stopped && f.seqno < SN_MODULO && f.seqno != t.head
    requires !SnLess(f.seqno, t.head)
    requires MakeRoom(t.(started := true), f.seqno) == (t.(started := true), [])
    requires f.seqno % t.size == t.head % t.size
    ensures var r := Reorder(t, f, now);
            r.released == [f] && r.tid == t.(started := true, head := SnInc(t.head))
  {
    var t0 := t.(started := true);
    var idx := t.head % t.size;
    assert t.slots[idx].None? by {
      assert idx !in Occupied(t.slots);
    }
    var t2 := t0.(slots := t0.slots[idx := Some(Entry(f, now))], nframes := 1);
    OccupiedAdd(t0.slots, idx, Entry(f, now));
    var t3 := t2.(head := SnInc(t.head), slots := t2.slots[idx := None], nframes := 0);
    assert t2.slots[idx := None] == t.slots;
    assert AggrRelease(t2, idx) == (t3, [f]);
    assert t3.slots[t3.head % t3.size].None? by {
      assert t3.head % t3.size !in Occupied(t.slots);
    }
    assert ReleaseHead(t3) == (t3, []);
    assert ReleaseHead(t2) == (t3, [f] + []);
  }

  /** The first arrival of the breaking run: its frame leaves at once and the head moves by one. */
  lemma EarlyArrival(ssn: nat, size: nat, f: Frame)
    requires ssn < SN_MODULO && 0 < size && f.seqno < SN_MODULO && f.seqno != ssn && !SnLess(f.seqno, ssn)
    requires var t := Start(ssn, size, 0).(started := true);
             MakeRoom(t, f.seqno) == (t, []) && f.seqno % size == ssn % size
    ensures var s := Open(ssn, size, 0);
            var r := Effect(s, Arrival(f, 0));
            var t := Start(ssn, size, 0).(started := true, head := SnInc(ssn));
            r.released == [f] && r.tid == t && Step(s, Arrival(f, 0)).tid == t
  {
    var s := Open(ssn, size, 0);
    hide SnSub, SnLess, MakeRoom, Reorder;
    ReleasedTooEarly(s.tid, f, 0);
  }

  lemma TwoDeliveries(s: Session, uh: nat, e: Event, f: Frame, g: Frame)
    requires WellFormed(s.tid) && ValidEvent(e) && s.tid.head == uh && g.seqno == SnInc(uh)
    requires var r := Effect(s, e);
             && r.released == [f] && Step(s, e).tid == r.tid
             && r.tid.head == SnInc(uh) && r.tid.nframes == 0 && !r.tid.stopped
    ensures Deliveries(s, uh, [e, Arrival(g, 0)]) == [uh + SnSub(f.seqno, uh), uh + 1]
  {
    hide SnSub, Effect, Step, Deliveries, SnInc;
    FirstDelivery(s, uh, e, Arrival(g, 0), uh + SnSub(f.seqno, uh));
    DueIsDelivered(Step(s, e), uh + 1, g);
  }

  /** The run that breaks the order: a frame ahead is released at once, then the one that was due. */
  lemma TooEarlyThenDue(ssn: nat, size: nat, f: Frame, g: Frame)
    requires ssn < SN_MODULO && 0 < size && f.seqno < SN_MODULO && f.seqno != ssn && !SnLess(f.seqno, ssn)
    requires g.seqno == SnInc(ssn)
    requires var t := Start(ssn, size, 0).(started := true);
             MakeRoom(t, f.seqno) == (t, []) && f.seqno % size == ssn % size
    ensures Deliveries(Open(ssn, size, 0), ssn, [Arrival(f, 0), Arrival(g, 0)]) == [ssn + SnSub(f.seqno, ssn), ssn + 1]
  {
    hide SnSub, Effect, Step, Deliveries, SnInc, MakeRoom, SnLess;
    EarlyArrival(ssn, size, f);
    TwoDeliveries(Open(ssn, size, 0), ssn, Arrival(f, 0), f, g);
  }

  lemma FirstDelivery(s: Session, uh: nat, e1: Event, e2: Event, u: nat)
    requires WellFormed(s.tid) && ValidEvent(e1) && ValidEvent(e2) && s.tid.head == uh
    requires var r := Effect(s, e1);
             && |r.released| == 1 && uh + SnSub(r.released[0].seqno, s.tid.head) == u && r.tid.head == SnInc(uh)
    ensures Deliveries(s, uh, [e1, e2]) == [u] + Deliveries(Step(s, e1), uh + 1, [e2])
  {
    hide Effect, Step, SnSub, SnInc;
    var r := Effect(s, e1);
    SnSubInc(uh);
    assert NextHead(s.tid, uh, r.tid) == uh + 1;
    assert Numbers(s.tid, uh, r.released) == [u];
    hide NextHead, Numbers;
    assert [e1, e2][1..] == [e2];
    assert Deliveries(s, uh, [e1, e2]) == Numbers(s.tid, uh, r.released) + Deliveries(Step(s, e1), uh + 1, [e1, e2][1..]);
  }

  lemma DueIsDelivered(s: Session, uh: nat, g: Frame)
    requires WellFormed(s.tid) && s.tid.nframes == 0 && !s.tid.stopped && g.seqno == s.tid.head
    ensures Deliveries(s, uh, [Arrival(g, 0)]) == [uh]
  {
    var r := Effect(s, Arrival(g, 0));
    SnSubZero(g.seqno, s.tid.head);
    assert r.released == [g];
    assert Numbers(s.tid, uh, r.released) == [uh];
    assert [Arrival(g, 0)][1..] == [];
  }

  /** How far ahead the frame of the breaking run is, and where the session starts. */
  function BreakingStart(size: nat): (nat, nat)
    requires 0 < size
  {
    if size == 1 then (0, SN_MODULO / 2) else (SN_MODULO - 1, SN_MODULO % size)
  }

  lemma WrappedSlot(size: nat)
    requires 1 < size < SN_MODULO && SN_MODULO % size != 0
    ensures var d := SN_MODULO % size;
            && (SN_MODULO - 1 + d) % SN_MODULO == d - 1
            && (d - 1) % size == (SN_MODULO - 1) % size
  {
    var d := SN_MODULO % size;
    ModUnique(SN_MODULO - 1 + d, 1, d - 1, SN_MODULO);
    assert SN_MODULO == (SN_MODULO / size) * size + d;
    ModUnique(SN_MODULO - 1, SN_MODULO / size, d - 1, size);
    ModUnique(d - 1, 0, d - 1, size);
  }

  lemma BreakingSlots(size: nat)
    requires 0 < size <= SN_MODULO / 2 && !GoodSize(size)
    ensures var (ssn, d) := BreakingStart(size);
            var seqno := (ssn + d) % SN_MODULO;
            && ssn < SN_MODULO && 0 < d <= SN_MODULO / 2
            && seqno % size == ssn % size
            && (SnLess(seqno, ssn + size) || (size == 1 && SnInc(SnSub(seqno, size)) == SN_MODULO / 2))
  {
    if size > 1 {
      WrappedSlot(size);
      WindowTest(SN_MODULO - 1, SN_MODULO % size, size);
      hide SnSub, SnLess;
      assert (SN_MODULO - 1) % SN_MODULO == SN_MODULO - 1;
    }
  }

  lemma EarlyFrameFits(size: nat)
    requires 0 < size <= SN_MODULO / 2 && !GoodSize(size)
    ensures var (ssn, d) := BreakingStart(size);
            var seqno := (ssn + d) % SN_MODULO;
            var t := Start(ssn, size, 0).(started := true);
            && seqno != ssn && !SnLess(seqno, ssn) && MakeRoom(t, seqno) == (t, [])
  {
    BreakingSlots(size);
    var (ssn, d) := BreakingStart(size);
    SnSubOfUnwrapped(ssn + d, ssn);
    var seqno := (ssn + d) % SN_MODULO;
    SnSubZero(seqno, ssn);
    hide SnSub;
    if !SnLess(seqno, ssn + size) {
      ReleaseFramesStays(Start(ssn, size, 0).(started := true), SN_MODULO / 2);
    }
  }

  /** A session whose window size does not divide 4096, or is 1, has a run that delivers out of order. */
  lemma BadSizeBreaksOrder(size: nat)
    requires 0 < size <= SN_MODULO / 2 && !GoodSize(size)
    ensures !AlwaysInOrder(size)
  {
    var (ssn, d) := BreakingStart(size);
    BreakingSlots(size);
    EarlyFrameFits(size);
    var f := Frame(0, (ssn + d) % SN_MODULO);
    var g := Frame(1, SnInc(ssn));
    hide Deliveries, SnSub, Start, MakeRoom, SnInc;
    TooEarlyThenDue(ssn, size, f, g);
    var es := [Arrival(f, 0), Arrival(g, 0)];
    SnSubZero(f.seqno, ssn);
    var us := Deliveries(Open(ssn, size, 0), ssn, es);
    assert us[0] >= us[1];
  }

  /** In-order delivery holds for exactly the window sizes that divide 4096, from 2 up to half the circle. */
  lemma InOrderIffGoodSize(size: nat)
    requires 0 < size <= SN_MODULO / 2
    ensures AlwaysInOrder(size) <==> GoodSize(size)
  {
    if GoodSize(size) {
      forall ssn: nat, timeo: nat, es: seq<Event> | ssn < SN_MODULO && (forall e <- es :: ValidEvent(e))
        ensures StrictlyIncreasing(Deliveries(Open(ssn, size, timeo), ssn, es))
      {
        StartIsSettled(ssn, size, timeo);
        RunInOrder(Open(ssn, size, timeo), ssn, es);
      }
    } else {
      BadSizeBreaksOrder(size);
    }
  }
}
