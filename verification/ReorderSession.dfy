/** A session from its start, in terms of what has happened to it: when it counts as started, which arrivals pass it
    by, where its buffered frames come from, and which frames a timeout releases. */
module ReorderSession {
  import opened Basics
  import opened SequenceNumber
  import opened ReorderBuffer
  import opened ReorderWindow
  import opened ReorderRefinement
  import opened ReorderTimeout
  import opened ReorderRuns
  import opened ReorderProperties

  // ---- what one event may change ----

  /** Slots are only emptied. */
  ghost predicate Cleared(a: Slots, b: Slots) {
    |a| == |b| && forall i :: 0 <= i < |a| ==> b[i] == a[i] || b[i].None?
  }

  /** A release leaves the marks and the timeout alone and only empties slots. */
  ghost predicate OnlyReleases(t: Tid, t': Tid) {
    t'.started == t.started && t'.stopped == t.stopped && t'.timeo == t.timeo && Cleared(t.slots, t'.slots)
  }

  lemma OnlyReleasesCompose(t: Tid, t1: Tid, t2: Tid)
    requires OnlyReleases(t, t1) && OnlyReleases(t1, t2)
    ensures OnlyReleases(t, t2)
  {
  }

  lemma {:induction false} ReleaseFramesOnly(t: Tid, head: nat)
    requires WellFormed(t) && head < SN_MODULO
    ensures OnlyReleases(t, ReleaseFrames(t, head).0)
    decreases SnSub(head, t.head)
  {
    hide SnSub;
    if SnLess(t.head, head) {
      SnLessStep(t.head, head);
      var t1 := AggrRelease(t, t.head % t.size).0;
      ReleaseFramesOnly(t1, head);
      OnlyReleasesCompose(t, t1, ReleaseFrames(t1, head).0);
    }
  }

  lemma {:induction false} ReleaseHeadOnly(t: Tid)
    requires WellFormed(t)
    ensures OnlyReleases(t, ReleaseHead(t).0)
    decreases t.nframes
  {
    if t.slots[t.head % t.size].Some? {
      OccupiedRemove(t.slots, t.head % t.size);
      var t1 := AggrRelease(t, t.head % t.size).0;
      ReleaseHeadOnly(t1);
      OnlyReleasesCompose(t, t1, ReleaseHead(t1).0);
    }
  }

  lemma {:induction false} ScanOnly(t: Tid, start: nat, left: nat, n: nat, now: nat)
    requires WellFormed(t) && start < t.size && left < t.size
    ensures OnlyReleases(t, Scan(t, start, left, n, now).0)
    decreases left
  {
    hide SnSub, ReleaseFrames, Expired, ScanSlot;
    if left > 0 && n > 0 {
      var slot := t.slots[ScanSlot(start, left, t.size)];
      if slot.None? {
        ScanOnly(t, start, left - 1, n, now);
      } else if !Expired(slot.value, now, t.timeo) {
        ScanOnly(t, start, left - 1, n - 1, now);
      } else {
        var t1 := ReleaseFrames(t, slot.value.frame.seqno).0;
        ReleaseFramesOnly(t, slot.value.frame.seqno);
        ScanOnly(t1, start, left - 1, n - 1, now);
        OnlyReleasesCompose(t, t1, Scan(t1, start, left - 1, n - 1, now).0);
      }
    }
  }

  lemma CheckReleaseOnly(t: Tid, now: nat)
    requires WellFormed(t)
    ensures OnlyReleases(t, CheckRelease(t, now).0)
  {
    if t.nframes > 0 {
      var t1 := ReleaseHead(t).0;
      var t2 := Scan(t1, t1.head % t1.size, t1.size - 1, t1.nframes, now).0;
      ReleaseHeadOnly(t);
      ScanOnly(t1, t1.head % t1.size, t1.size - 1, t1.nframes, now);
      ReleaseHeadOnly(t2);
      hide ReleaseHead, Scan;
      OnlyReleasesCompose(t, t1, t2);
      OnlyReleasesCompose(t, t2, ReleaseHead(t2).0);
    }
  }

  /** Every frame in a slot was there before, or is the one that arrived, stamped with its time. */
  ghost predicate OnlyStores(slots: Slots, f: Frame, now: nat, slots': Slots) {
    |slots'| == |slots| && forall i :: 0 <= i < |slots| && slots'[i].Some? ==> slots'[i] == slots[i] || slots'[i] == Some(Entry(f, now))
  }

  ghost predicate SameMarks(t: Tid, t': Tid) {
    t'.started == t.started && t'.stopped == t.stopped && t'.timeo == t.timeo
  }

  lemma AdmitStores(t: Tid, f: Frame, now: nat)
    requires WellFormed(t) && f.seqno < SN_MODULO
    ensures var t' := Admit(t, f, now).tid; SameMarks(t, t') && OnlyStores(t.slots, f, now, t'.slots)
  {
    ReleaseFramesOnly(t, FlushTarget(f.seqno, t.size));
    var t1 := MakeRoom(t, f.seqno).0;
    assert OnlyReleases(t, t1);
    var idx := f.seqno % t1.size;
    assert OnlyReleases(t, t1) ==> SameMarks(t, t1) && OnlyStores(t.slots, f, now, t1.slots);
    hide ReleaseHead, MakeRoom, OnlyReleases, OnlyStores, SameMarks, SnSub;
    if t1.slots[idx].None? {
      OccupiedAdd(t1.slots, idx, Entry(f, now));
      var t2 := t1.(slots := t1.slots[idx := Some(Entry(f, now))], nframes := t1.nframes + 1);
      ReleaseHeadOnly(t2);
      StoreThenRelease(t, t1, idx, f, now, t2, ReleaseHead(t2).0);
    }
  }

  lemma StoreThenRelease(t: Tid, t1: Tid, idx: nat, f: Frame, now: nat, t2: Tid, t3: Tid)
    requires OnlyReleases(t, t1) && idx < |t1.slots| && OnlyReleases(t2, t3)
    requires t2 == t1.(slots := t1.slots[idx := Some(Entry(f, now))], nframes := t2.nframes)
    ensures SameMarks(t, t3) && OnlyStores(t.slots, f, now, t3.slots)
  {
  }

  // ---- started and stopped ----

  /** The session accepts the arriving frame: it has not been stopped, and the frame is not behind its head. */
  predicate Takes(s: Session, e: Event) {
    e.Arrival? && !s.tid.stopped && !SnLess(e.frame.seqno, s.tid.head)
  }

  lemma ReorderMarks(t: Tid, f: Frame, now: nat)
    requires WellFormed(t) && f.seqno < SN_MODULO
    ensures var t' := Reorder(t, f, now).tid;
            && t'.started == (t.started || (!t.stopped && !SnLess(f.seqno, t.head)))
            && t'.stopped == t.stopped && t'.timeo == t.timeo && OnlyStores(t.slots, f, now, t'.slots)
  {
    hide SnSub, ReleaseHead, Admit;
    var t0 := t.(started := true);
    AdmitStores(t0, f, now);
    ReleaseHeadOnly(t0.(head := SnInc(t0.head)));
  }

  ghost predicate EventStores(slots: Slots, e: Event, slots': Slots) {
    if e.Arrival? then OnlyStores(slots, e.frame, e.now, slots') else Cleared(slots, slots')
  }

  lemma {:induction false} FreeSlotsCleared(slots: Slots, i: nat, n: nat)
    requires i <= |slots|
    ensures Cleared(slots, FreeSlots(slots, i, n).0)
    decreases |slots| - i
  {
    if n > 0 && i < |slots| {
      if slots[i].None? {
        FreeSlotsCleared(slots, i + 1, n);
      } else {
        FreeSlotsCleared(slots[i := None], i + 1, n - 1);
      }
    }
  }

  lemma StepMarks(s: Session, e: Event)
    requires WellFormed(s.tid) && ValidEvent(e)
    ensures var t' := Step(s, e).tid;
            && t'.started == (s.tid.started || Takes(s, e)) && t'.stopped == (s.tid.stopped || e.Stop?)
            && t'.timeo == s.tid.timeo && EventStores(s.tid.slots, e, t'.slots)
  {
    StepTid(s, e);
    hide Step, Reorder, ReleaseFrames, ReleaseHead, CheckRelease, FreeSlots;
    match e
    case Arrival(f, now) => ReorderMarks(s.tid, f, now);
    case BlockAckReq(seqno) =>
      var t1 := ReleaseFrames(s.tid, seqno).0;
      ReleaseFramesOnly(s.tid, seqno);
      ReleaseHeadOnly(t1);
      OnlyReleasesCompose(s.tid, t1, ReleaseHead(t1).0);
    case Expire(now) => CheckReleaseOnly(s.tid, now);
    case Stop => FreeSlotsCleared(s.tid.slots, 0, s.tid.nframes);
    case _ =>
  }

  ghost predicate EverTakes(s: Session, es: seq<Event>)
    requires WellFormed(s.tid) && forall e <- es :: ValidEvent(e)
    decreases |es|
  {
    es != [] && (Takes(s, es[0]) || EverTakes(Step(s, es[0]), es[1..]))
  }

  /** In every run of every window size: started means that some frame was accepted, stopped that the session was
      stopped, and the timeout is the one it was opened with. */
  lemma {:induction false} RunMarks(s: Session, es: seq<Event>)
    requires WellFormed(s.tid) && forall e <- es :: ValidEvent(e)
    ensures var t' := Run(s, es).tid;
            && (t'.started <==> s.tid.started || EverTakes(s, es))
            && (t'.stopped <==> s.tid.stopped || Stop in es)
            && t'.timeo == s.tid.timeo
    decreases |es|
  {
    if es != [] {
      StepMarks(s, es[0]);
      assert Stop in es <==> es[0] == Stop || Stop in es[1..];
      hide Step, Takes;
      RunMarks(Step(s, es[0]), es[1..]);
    }
  }

  /** In every run, a buffered frame is one that arrived, and it carries the time of that arrival. */
  lemma {:induction false} BufferedHasArrived(s: Session, es: seq<Event>, i: nat)
    requires WellFormed(s.tid) && (forall e <- es :: ValidEvent(e)) && i < s.tid.size
    ensures var slot := Run(s, es).tid.slots[i];
            slot.Some? ==> slot == s.tid.slots[i] || Arrival(slot.value.frame, slot.value.time) in es
    decreases |es|
  {
    if es != [] {
      StepMarks(s, es[0]);
      hide Step, Takes;
      BufferedHasArrived(Step(s, es[0]), es[1..], i);
    }
  }

  // ---- before the first accepted frame ----

  ghost predicate Empty(t: Tid) {
    forall i :: 0 <= i < |t.slots| ==> t.slots[i].None?
  }

  lemma EmptyIffNone(t: Tid)
    requires WellFormed(t)
    ensures Empty(t) <==> t.nframes == 0
  {
    if t.nframes == 0 {
      forall i | 0 <= i < |t.slots| ensures t.slots[i].None? {
        assert i !in Occupied(t.slots);
      }
    } else {
      var i :| i in Occupied(t.slots);
    }
  }

  lemma {:induction false} EmptyReleases(t: Tid, head: nat)
    requires WellFormed(t) && Empty(t) && head < SN_MODULO
    ensures var (t', out) := ReleaseFrames(t, head); Empty(t') && out == []
    decreases SnSub(head, t.head)
  {
    hide SnSub;
    if SnLess(t.head, head) {
      SnLessStep(t.head, head);
      EmptyReleases(AggrRelease(t, t.head % t.size).0, head);
    }
  }

  lemma UntakenStep(s: Session, e: Event)
    requires WellFormed(s.tid) && ValidEvent(e) && Empty(s.tid) && !s.tid.started && !Takes(s, e)
    ensures Empty(Step(s, e).tid) && Effect(s, e).released == []
  {
    StepTid(s, e);
    EmptyIffNone(s.tid);
    hide Step;
    if e.BlockAckReq? {
      EmptyReleases(s.tid, e.seqno);
    } else if e.Stop? {
      FreeSlotsCleared(s.tid.slots, 0, s.tid.nframes);
    }
  }

  function ReleasedInRun(s: Session, es: seq<Event>): seq<Frame>
    requires WellFormed(s.tid) && forall e <- es :: ValidEvent(e)
    decreases |es|
  {
    if es == [] then [] else Effect(s, es[0]).released + ReleasedInRun(Step(s, es[0]), es[1..])
  }

  /** Nothing is released or buffered before a frame has been accepted. */
  lemma {:induction false} NothingBeforeTaking(s: Session, es: seq<Event>)
    requires WellFormed(s.tid) && (forall e <- es :: ValidEvent(e)) && Empty(s.tid) && !s.tid.started
    requires !EverTakes(s, es)
    ensures Empty(Run(s, es).tid) && ReleasedInRun(s, es) == []
    decreases |es|
  {
    if es != [] {
      UntakenStep(s, es[0]);
      StepMarks(s, es[0]);
      hide Step, Effect, Takes;
      NothingBeforeTaking(Step(s, es[0]), es[1..]);
    }
  }

  /** An arrival in any run of a session: it passes by if and only if the session was stopped, or the frame is behind
      the head and none has been accepted yet. So from the first frame released or buffered until the stop, none does. */
  lemma PassedIff(ssn: nat, size: nat, timeo: nat, es: seq<Event>, f: Frame, now: nat)
    requires ssn < SN_MODULO && 0 < size && f.seqno < SN_MODULO && forall e <- es :: ValidEvent(e)
    ensures var s0 := Open(ssn, size, timeo);
            var s := Run(s0, es);
            var r := Effect(s, Arrival(f, now));
            && (if Stop in es || (SnLess(f.seqno, s.tid.head) && !EverTakes(s0, es)) then r.passed == [f] else r.passed == [])
            && (ReleasedInRun(s0, es) != [] || s.tid.nframes > 0 ==> EverTakes(s0, es))
  {
    var s0 := Open(ssn, size, timeo);
    var s := Run(s0, es);
    RunMarks(s0, es);
    if !EverTakes(s0, es) {
      NothingBeforeTaking(s0, es);
      EmptyIffNone(s.tid);
    }
    hide Run, EverTakes, ReleasedInRun, ReleaseHead, Admit, SnSub;
  }

  /** And it is freed if and only if, in a session not stopped, it is behind the head after some frame was accepted, or
      ahead of it with a number that is buffered; every other frame that does not pass by is released or buffered. */
  lemma FreedIff(ssn: nat, size: nat, timeo: nat, es: seq<Event>, f: Frame, now: nat)
    requires ssn < SN_MODULO && GoodSize(size) && f.seqno < SN_MODULO && forall e <- es :: ValidEvent(e)
    ensures var s0 := Open(ssn, size, timeo);
            var t := Run(s0, es).tid;
            Effect(Run(s0, es), Arrival(f, now)).freed == [f] <==>
              Stop !in es &&
              if SnLess(f.seqno, t.head) then EverTakes(s0, es)
              else exists i :: 0 <= i < t.size && t.slots[i].Some? && t.slots[i].value.frame.seqno == f.seqno
  {
    var s0 := Open(ssn, size, timeo);
    StartIsSettled(ssn, size, timeo);
    RunMarks(s0, es);
    var uh := RunStaysSettled(s0, ssn, es);
    var t := Run(s0, es).tid;
    if !t.stopped {
      FreedOnArrival(t, uh, f, now);
    } else {
      assert Reorder(t, f, now).freed == [];
    }
    hide Run, EverTakes, Settled, Reorder;
  }

  // ---- which frames a timeout releases ----

  /** The range in which the 32-bit comparison of jiffies is one of times. */
  predicate Timely(e: Entry, now: nat, timeo: nat) {
    e.time <= now <= e.time + timeo + 0x8000_0000 && timeo < 0x8000_0000
  }

  predicate Overdue(e: Entry, now: nat, timeo: nat) {
    now > e.time + timeo
  }

  lemma ExpiredIff(e: Entry, now: nat, timeo: nat)
    requires Timely(e, now, timeo)
    ensures Expired(e, now, timeo) <==> Overdue(e, now, timeo)
  {
    var d := e.time + timeo - now;
    if d < 0 {
      assert d % 0x1_0000_0000 == d + 0x1_0000_0000;
    }
  }

  ghost predicate AllTimely(t: Tid, now: nat) {
    forall i :: 0 <= i < |t.slots| && t.slots[i].Some? ==> Timely(t.slots[i].value, now, t.timeo)
  }

  /** Some buffered frame is overdue, and `u` lies before it or is reached from it without a gap. */
  ghost predicate Leaves(held: Held, u: nat, now: nat, timeo: nat) {
    exists v | v in held :: Overdue(held[v], now, timeo) && (u < v || forall k :: v <= k <= u ==> k in held)
  }

  /** The window drains from the last overdue frame, `last`, up to `head'`. */
  lemma LeavesIff(w: Window, last: nat, head': nat, u: nat, now: nat, timeo: nat)
    requires u in w.held && w.head !in w.held && (forall v | v in w.held :: w.head <= v)
    requires last == w.head || (last in w.held && Overdue(w.held[last], now, timeo))
    requires forall v | v in w.held && Overdue(w.held[v], now, timeo) :: v <= last
    requires last <= head' && head' !in w.held && forall k | last <= k < head' :: k in w.held
    ensures u < head' <==> Leaves(w.held, u, now, timeo)
  {
    hide Overdue;
    if u < head' {
      assert last != w.head;
    }
  }

  lemma LastOverdue(w: Window, size: nat, now: nat, timeo: nat)
    requires forall v | v in w.held :: w.head <= v < w.head + size && Timely(w.held[v], now, timeo)
    ensures var last := LastExpired(w.held, w.head, w.head + size, w.head, now, timeo);
            && w.head <= last
            && (last == w.head || (last in w.held && Overdue(w.held[last], now, timeo)))
            && (forall v | v in w.held && Overdue(w.held[v], now, timeo) :: v <= last)
  {
    LastExpiredIsLast(w.held, w.head, w.head + size, w.head, now, timeo);
    forall v | v in w.held ensures Expired(w.held[v], now, timeo) <==> Overdue(w.held[v], now, timeo) {
      ExpiredIff(w.held[v], now, timeo);
    }
    hide Expired, Overdue, LastExpired, Timely;
  }

  lemma FlushThenDrain(w: Window, target: nat)
    requires w.head <= target && forall v | v in w.held :: w.head <= v
    ensures var w1 := Flush(w, target).0;
            var w2 := Drain(w1).0;
            && w1.held == (map v | v in w.held && v >= target :: w.held[v])
            && target <= w2.head && w2.head !in w1.held && (forall k | target <= k < w2.head :: k in w1.held)
            && w2.held == (map v | v in w1.held && v >= w2.head :: w1.held[v])
  {
    var (w1, r1) := Flush(w, target);
    FlushReleases(w, target);
    HeldAfter(w, w1, r1);
    DrainReleases(w1);
    hide Flush, Drain;
    HeldAfter(w1, Drain(w1).0, Drain(w1).1);
    hide Releases;
  }

  /** What a timeout does to the window: everything before the new head goes. */
  lemma TimeoutHead(w: Window, size: nat, now: nat, timeo: nat)
    requires w.head !in w.held && forall v | v in w.held :: w.head <= v < w.head + size
    ensures var last := LastExpired(w.held, w.head, w.head + size, w.head, now, timeo);
            var w' := Timeout(w, size, now, timeo).0;
            && last <= w'.head && w.head <= w'.head && w'.head !in w.held && (forall k | last <= k < w'.head :: k in w.held)
            && w'.held == (map v | v in w.held && v >= w'.head :: w.held[v])
  {
    var last := LastExpired(w.held, w.head, w.head + size, w.head, now, timeo);
    LastExpiredIsLast(w.held, w.head, w.head + size, w.head, now, timeo);
    FlushThenDrain(w, last);
    hide Expired, LastExpired, Flush, Drain;
  }

  lemma HeldAfter(w: Window, w': Window, rs: seq<Release>)
    requires Releases(w, w', rs) && forall v | v in w.held :: w.head <= v
    ensures w.head <= w'.head && w'.held == (map v | v in w.held && v >= w'.head :: w.held[v])
  {
  }

  lemma TimeoutWindow(w: Window, size: nat, now: nat, timeo: nat, u: nat)
    requires w.head !in w.held && (forall v | v in w.held :: w.head <= v < w.head + size && Timely(w.held[v], now, timeo))
    requires u in w.held
    ensures var w' := Timeout(w, size, now, timeo).0;
            && w.head <= w'.head && w'.held == (map v | v in w.held && v >= w'.head :: w.held[v])
            && (u < w'.head <==> Leaves(w.held, u, now, timeo))
  {
    LastOverdue(w, size, now, timeo);
    TimeoutHead(w, size, now, timeo);
    hide Timely, Overdue, LastExpired, Timeout, Leaves;
    LeavesIff(w, LastExpired(w.held, w.head, w.head + size, w.head, now, timeo), Timeout(w, size, now, timeo).0.head, u, now, timeo);
  }

  /** A timeout, slot by slot and in the fields of the frames: a buffered frame leaves if and only if one has waited
      longer than the timeout and it is that frame, lies before it, or follows it without a gap. */
  lemma TimeoutExact(t: Tid, uh: nat, now: nat, u: nat)
    requires Settled(t, uh) && AllTimely(t, now) && u in HeldOf(t, uh)
    ensures var t' := CheckRelease(t, now).0;
            t'.size == t.size &&
            t'.slots[u % t.size] == if Leaves(HeldOf(t, uh), u, now, t.timeo) then None else t.slots[u % t.size]
  {
    var w := WindowOf(t, uh);
    CheckReleaseRefines(t, uh, now);
    forall v | v in w.held ensures Timely(w.held[v], now, t.timeo) {
    }
    TimeoutWindow(w, t.size, now, t.timeo, u);
    var w' := Timeout(w, t.size, now, t.timeo).0;
    var t' := CheckRelease(t, now).0;
    assert HeldOf(t', w'.head) == w'.held && uh <= u < uh + t.size && w.held == HeldOf(t, uh);
    assert u in w.held ==> t.slots[u % t.size] == Some(w.held[u]);
    hide Timeout, CheckRelease, Leaves, Timely, Settled, AllTimely, WindowOf;
    SlotAfter(t, t', uh, w'.head, u);
  }

  /** The slot of a number after the head has moved from `uh` to `uh'`. */
  lemma SlotAfter(t: Tid, t': Tid, uh: nat, uh': nat, u: nat)
    requires 0 < t.size == |t.slots| == t'.size == |t'.slots| && u in HeldOf(t, uh) && uh <= uh'
    requires HeldOf(t', uh') == (map v | v in HeldOf(t, uh) && v >= uh' :: HeldOf(t, uh)[v])
    ensures t'.slots[u % t.size] == if u < uh' then None else t.slots[u % t.size]
  {
    if u >= uh' {
      assert u in HeldOf(t', uh');
    } else if u + t.size >= uh' {
      AddOne(u, t.size);
      assert u + t.size !in HeldOf(t', uh');
    } else {
      var v := NumberOfSlot(t', uh', u % t.size);
      assert v !in HeldOf(t', uh');
    }
  }

  /** Afterwards nothing overdue is left. */
  lemma NothingOverdueLeft(t: Tid, uh: nat, now: nat, i: nat)
    requires Settled(t, uh) && i < t.size
    ensures var t' := CheckRelease(t, now).0;
            t'.size == t.size && (t'.slots[i].Some? && Timely(t'.slots[i].value, now, t.timeo) ==> now <= t'.slots[i].value.time + t.timeo)
  {
    TimeoutLeavesNoExpired(t, uh, now);
    var t' := CheckRelease(t, now).0;
    if t'.slots[i].Some? && Timely(t'.slots[i].value, now, t.timeo) {
      ExpiredIff(t'.slots[i].value, now, t.timeo);
    }
    hide CheckRelease, Expired;
  }

  // ---- how long a session waits ----

  datatype AccessCategory = Background | BestEffort | Video | Voice

  /** The user priorities of the four access categories (IEEE 802.11-2020, table 10-1). */
  function CategoryOf(tidno: nat): AccessCategory
    requires tidno < 8
  {
    if tidno == 1 || tidno == 2 then Background
    else if tidno == 0 || tidno == 3 then BestEffort
    else if tidno == 4 || tidno == 5 then Video
    else Voice
  }

  /** Background and best-effort sessions wait a tenth of a second, all others, traffic streams included, a 25th. */
  lemma TimeoByCategory(hz: nat, tidno: nat)
    ensures tidno < 8 && (CategoryOf(tidno).Background? || CategoryOf(tidno).BestEffort?) ==> Timeo(hz, tidno) == hz / 10
    ensures tidno >= 8 || CategoryOf(tidno).Video? || CategoryOf(tidno).Voice? ==> Timeo(hz, tidno) == hz / 25
  {
  }
}
