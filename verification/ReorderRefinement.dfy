/** The circular buffer of ReorderBuffer behaves as the unbounded window of ReorderWindow. */
module ReorderRefinement {
  import opened Basics
  import opened SequenceNumber
  import opened ReorderBuffer
  import opened ReorderWindow

  /** Window sizes for which a slot index means the same on both sides of the wrap. */
  predicate GoodSize(size: nat) {
    2 <= size <= SN_MODULO / 2 && SN_MODULO % size == 0
  }

  /** The buffered frames by unbounded number, when the head stands for `uh`. */
  ghost function HeldOf(t: Tid, uh: nat): Held
    requires 0 < t.size == |t.slots|
  {
    map u: nat | uh <= u < uh + t.size && t.slots[u % t.size].Some? :: t.slots[u % t.size].value
  }

  ghost function WindowOf(t: Tid, uh: nat): Window
    requires 0 < t.size == |t.slots|
  {
    Window(uh, HeldOf(t, uh))
  }

  /** A frame in slot i has a sequence number congruent to i and lies less than `size` ahead of the head. */
  ghost predicate Aligned(t: Tid, uh: nat) {
    && WellFormed(t) && GoodSize(t.size)
    && uh % SN_MODULO == t.head
    && (forall u | u in HeldOf(t, uh) :: HeldOf(t, uh)[u].frame.seqno == u % SN_MODULO)
  }

  /** What holds whenever the lock is free: also, the head's own slot is empty. */
  ghost predicate Settled(t: Tid, uh: nat) {
    Aligned(t, uh) && uh !in HeldOf(t, uh)
  }

  lemma HeadSlot(t: Tid, uh: nat)
    requires Aligned(t, uh)
    ensures t.head % t.size == uh % t.size
  {
    SlotOfUnwrapped(uh, t.size);
  }

  lemma HeldAfterAdvance(t: Tid, t': Tid, uh: nat)
    requires 0 < t.size == |t.slots| && t'.size == t.size
    requires t'.slots == t.slots[uh % t.size := None]
    ensures HeldOf(t', uh + 1) == HeldOf(t, uh) - {uh}
  {
    forall u | uh < u <= uh + t.size
      ensures u % t.size == uh % t.size <==> u == uh + t.size
    {
      SlotReuse(uh, u, t.size);
    }
  }

  lemma PopIsSlot(t: Tid, t': Tid, uh: nat, idx: nat, out: seq<Frame>)
    requires 0 < t.size == |t.slots| && t'.size == t.size && idx == uh % t.size
    requires t'.slots == t.slots[idx := None]
    requires out == if t.slots[idx].None? then [] else [t.slots[idx].value.frame]
    ensures WindowOf(t', uh + 1) == Pop(WindowOf(t, uh)).0
    ensures out == Frames(Pop(WindowOf(t, uh)).1)
  {
    HeldAfterAdvance(t, t', uh);
    assert uh in HeldOf(t, uh) <==> t.slots[idx].Some?;
    if uh !in HeldOf(t, uh) {
      assert HeldOf(t, uh) - {uh} == HeldOf(t, uh);
    }
  }

  lemma AggrReleaseRefines(t: Tid, uh: nat)
    requires Aligned(t, uh)
    ensures var (t', out) := AggrRelease(t, t.head % t.size);
            var (w', rs) := Pop(WindowOf(t, uh));
            Aligned(t', uh + 1) && WindowOf(t', uh + 1) == w' && out == Frames(rs)
  {
    HeadSlot(t, uh);
    var idx := t.head % t.size;
    var (t', out) := AggrRelease(t, idx);
    PopIsSlot(t, t', uh, idx, out);
    SnIncUnwrapped(uh);
    var h := HeldOf(t', uh + 1);
    assert h == HeldOf(t, uh) - {uh};
  }

  lemma {:induction false} ReleaseFramesRefines(t: Tid, uh: nat, target: nat)
    requires Aligned(t, uh) && target < uh + SN_MODULO / 2
    ensures var (t', out) := ReleaseFrames(t, target % SN_MODULO);
            var (w', rs) := Flush(WindowOf(t, uh), target);
            target >= uh ==> Aligned(t', w'.head) && WindowOf(t', w'.head) == w' && out == Frames(rs)
    decreases target - uh
  {
    hide SnSub, SnLess, HeldOf;
    if target >= uh {
      SnLessUnwrapped(uh, target);
      if target > uh {
        AggrReleaseRefines(t, uh);
        var (t1, out1) := AggrRelease(t, t.head % t.size);
        ReleaseFramesRefines(t1, uh + 1, target);
        var (w1, r1) := Pop(WindowOf(t, uh));
        FramesConcat(r1, Flush(w1, target).1);
      }
    }
  }

  /** A target that is behind the head, or half the circle away, releases nothing. */
  lemma ReleaseFramesStays(t: Tid, head: nat)
    requires WellFormed(t) && head < SN_MODULO
    requires SnSub(head, t.head) == 0 || SnSub(head, t.head) >= SN_MODULO / 2
    ensures ReleaseFrames(t, head) == (t, [])
  {
    SnSubFlip(t.head, head);
  }

  lemma {:induction false} ReleaseHeadRefines(t: Tid, uh: nat)
    requires Aligned(t, uh)
    ensures var (t', out) := ReleaseHead(t);
            var (w', rs) := Drain(WindowOf(t, uh));
            Settled(t', w'.head) && WindowOf(t', w'.head) == w' && out == Frames(rs)
    decreases t.nframes
  {
    HeadSlot(t, uh);
    if uh in HeldOf(t, uh) {
      OccupiedRemove(t.slots, t.head % t.size);
      AggrReleaseRefines(t, uh);
      var (t1, out1) := AggrRelease(t, t.head % t.size);
      ReleaseHeadRefines(t1, uh + 1);
      var (w1, r1) := Pop(WindowOf(t, uh));
      var (w2, r2) := Drain(w1);
      FramesConcat(r1, r2);
    }
  }

  lemma BarRefines(t: Tid, uh: nat, seqno: nat, d: nat)
    requires Aligned(t, uh) && seqno < SN_MODULO && d == SnSub(seqno, t.head)
    ensures var (t1, out1) := ReleaseFrames(t, seqno);
            var (w1, r1) := Flush(WindowOf(t, uh), uh + if d < SN_MODULO / 2 then d else 0);
            Aligned(t1, w1.head) && WindowOf(t1, w1.head) == w1 && out1 == Frames(r1)
  {
    if 0 < d < SN_MODULO / 2 {
      AheadOf(uh, seqno);
      ReleaseFramesRefines(t, uh, uh + d);
    } else {
      ReleaseFramesStays(t, seqno);
    }
  }

  lemma CheckCtlRefines(t: Tid, uh: nat, seqno: nat)
    requires Settled(t, uh) && !t.stopped && seqno < SN_MODULO
    ensures var d := SnSub(seqno, t.head);
            var r := CheckCtl(t, seqno);
            var (w', rs) := BlockAckRequest(WindowOf(t, uh), if d < SN_MODULO / 2 then d else 0);
            Settled(r.tid, w'.head) && WindowOf(r.tid, w'.head) == w' && r.released == Frames(rs)
  {
    hide HeldOf;
    var d := SnSub(seqno, t.head);
    BarRefines(t, uh, seqno, d);
    var (t1, out1) := ReleaseFrames(t, seqno);
    var (w1, r1) := Flush(WindowOf(t, uh), uh + if d < SN_MODULO / 2 then d else 0);
    ReleaseHeadRefines(t1, w1.head);
    FramesConcat(r1, Drain(w1).1);
  }

  /** The arriving frame is the one the window waits for. */
  lemma InOrderRefines(t: Tid, uh: nat)
    requires Settled(t, uh)
    ensures var t1 := t.(head := SnInc(t.head));
            var (t', out) := if t1.nframes > 0 then ReleaseHead(t1) else (t1, []);
            var (w', rs) := Drain(Window(uh + 1, WindowOf(t, uh).held));
            Settled(t', w'.head) && WindowOf(t', w'.head) == w' && out == Frames(rs)
  {
    var t1 := t.(head := SnInc(t.head));
    HeadSlot(t, uh);
    assert t1.slots == t.slots[uh % t.size := None];
    HeldAfterAdvance(t, t1, uh);
    assert HeldOf(t, uh) - {uh} == HeldOf(t, uh);
    SnIncUnwrapped(uh);
    assert Aligned(t1, uh + 1);
    if t1.nframes > 0 {
      ReleaseHeadRefines(t1, uh + 1);
    } else {
      NothingHeld(t1, uh + 1);
    }
  }

  lemma NothingHeld(t: Tid, uh: nat)
    requires WellFormed(t) && t.nframes == 0
    ensures HeldOf(t, uh) == map[]
  {
    forall u: nat ensures u !in HeldOf(t, uh) {
      assert u % t.size !in Occupied(t.slots);
    }
  }

  /** Storing a frame at unbounded number `u` of the window. */
  lemma StoreRefines(t: Tid, uh: nat, u: nat, e: Entry)
    requires Aligned(t, uh) && uh <= u < uh + t.size && u !in HeldOf(t, uh)
    requires e.frame.seqno == u % SN_MODULO
    ensures e.frame.seqno % t.size == u % t.size && t.slots[u % t.size].None?
    ensures var t' := t.(slots := t.slots[u % t.size := Some(e)], nframes := t.nframes + 1);
            Aligned(t', uh) && WindowOf(t', uh) == Window(uh, HeldOf(t, uh)[u := e])
  {
    SlotOfUnwrapped(u, t.size);
    var idx := u % t.size;
    var t' := t.(slots := t.slots[idx := Some(e)], nframes := t.nframes + 1);
    OccupiedAdd(t.slots, idx, e);
    forall v | uh <= v < uh + t.size && v % t.size == idx ensures v == u {
      if u <= v { SlotInjective(u, v, t.size); } else { SlotInjective(v, u, t.size); }
    }
    assert HeldOf(t', uh) == HeldOf(t, uh)[u := e];
  }

  /** The window after making room for the frame with unbounded number `u`. */
  function WindowRoom(w: Window, u: nat, size: nat): (Window, seq<Release>) {
    if u >= w.head + size then Flush(w, u - size + 1) else (w, [])
  }

  lemma MakeRoomRefines(t: Tid, uh: nat, d: nat)
    requires Aligned(t, uh) && 0 < d <= SN_MODULO / 2
    ensures var (t1, out1) := MakeRoom(t, (uh + d) % SN_MODULO);
            var (w1, r1) := WindowRoom(WindowOf(t, uh), uh + d, t.size);
            && Aligned(t1, w1.head) && WindowOf(t1, w1.head) == w1 && out1 == Frames(r1)
            && w1.head <= uh + d < w1.head + t.size && t1.size == t.size
  {
    WindowTest(uh, d, t.size);
    if d >= t.size {
      ReleaseFramesRefines(t, uh, uh + d - t.size + 1);
      FlushReleases(WindowOf(t, uh), uh + d - t.size + 1);
    }
  }

  /** If the slot of the arriving frame is taken, no room had to be made. */
  lemma DuplicateStays(w: Window, u: nat, size: nat)
    requires w.head < u && (forall v | v in w.held :: v < w.head + size)
    requires u in WindowRoom(w, u, size).0.held
    ensures WindowRoom(w, u, size) == (w, [])
  {
    if u >= w.head + size {
      FlushReleases(w, u - size + 1);
    }
  }

  lemma HeldBounds(t: Tid, uh: nat)
    requires 0 < t.size == |t.slots|
    ensures forall v | v in HeldOf(t, uh) :: uh <= v < uh + t.size
  {
  }

  lemma StoreAndDrain(t: Tid, uh: nat, u: nat, e: Entry)
    requires Aligned(t, uh) && uh <= u < uh + t.size && u !in HeldOf(t, uh)
    requires e.frame.seqno == u % SN_MODULO
    ensures var idx := e.frame.seqno % t.size;
            && t.slots[idx].None?
            && var t' := t.(slots := t.slots[idx := Some(e)], nframes := t.nframes + 1);
            && WellFormed(t')
            && var (w2, r2) := Drain(Window(uh, HeldOf(t, uh)[u := e]));
            var (t2, out2) := ReleaseHead(t');
            Settled(t2, w2.head) && WindowOf(t2, w2.head) == w2 && out2 == Frames(r2)
  {
    StoreRefines(t, uh, u, e);
    hide HeldOf;
    var t' := t.(slots := t.slots[u % t.size := Some(e)], nframes := t.nframes + 1);
    ReleaseHeadRefines(t', uh);
  }

  lemma SlotTaken(t: Tid, uh: nat, u: nat)
    requires Aligned(t, uh) && uh <= u < uh + t.size
    ensures t.slots[(u % SN_MODULO) % t.size].Some? <==> u in HeldOf(t, uh)
  {
    SlotOfUnwrapped(u, t.size);
  }

  lemma AdmitRefines(t: Tid, uh: nat, f: Frame, d: nat, now: nat)
    requires Settled(t, uh) && 0 < d <= SN_MODULO / 2 && f.seqno == (uh + d) % SN_MODULO
    ensures var r := Admit(t, f, now);
            var o := Arrive(WindowOf(t, uh), t.size, f, d, now);
            && Settled(r.tid, o.w.head) && WindowOf(r.tid, o.w.head) == o.w
            && r.released == Frames(o.released) && r.freed == o.freed && r.passed == []
  {
    hide HeldOf, SnSub, MakeRoom;
    var u := uh + d;
    var w := WindowOf(t, uh);
    MakeRoomRefines(t, uh, d);
    var (t1, out1) := MakeRoom(t, f.seqno);
    var (w1, r1) := WindowRoom(w, u, t.size);
    SlotTaken(t1, w1.head, u);
    if u in w1.held {
      HeldBounds(t, uh);
      DuplicateStays(w, u, t.size);
    } else {
      var e := Entry(f, now);
      StoreAndDrain(t1, w1.head, u, e);
      hide Drain, ReleaseHead, Settled;
      FramesConcat(r1, Drain(Window(w1.head, w1.held[u := e])).1);
    }
  }

  lemma StartedStays(t: Tid, uh: nat)
    requires Settled(t, uh)
    ensures Settled(t.(started := true), uh)
    ensures WindowOf(t.(started := true), uh) == WindowOf(t, uh)
  {
    assert HeldOf(t.(started := true), uh) == HeldOf(t, uh);
  }

  lemma ReorderInOrder(t: Tid, uh: nat, f: Frame, now: nat)
    requires Settled(t, uh) && !t.stopped && f.seqno == t.head
    ensures var r := Reorder(t, f, now);
            var o := Arrive(WindowOf(t, uh), t.size, f, 0, now);
            && Settled(r.tid, o.w.head) && WindowOf(r.tid, o.w.head) == o.w
            && r.released == Frames(o.released) && r.freed == o.freed && r.passed == []
  {
    var t0 := t.(started := true);
    StartedStays(t, uh);
    InOrderRefines(t0, uh);
    SnSubZero(f.seqno, t.head);
    hide HeldOf, SnSub;
    var rs := Drain(Window(uh + 1, HeldOf(t, uh))).1;
    FramesConcat([Release(uh, f)], rs);
    assert Frames([Release(uh, f)]) == [f];
  }

  lemma ReorderRefines(t: Tid, uh: nat, f: Frame, now: nat)
    requires Settled(t, uh) && f.seqno < SN_MODULO
    requires !t.stopped && !SnLess(f.seqno, t.head)
    ensures var r := Reorder(t, f, now);
            var o := Arrive(WindowOf(t, uh), t.size, f, SnSub(f.seqno, t.head), now);
            && Settled(r.tid, o.w.head) && WindowOf(r.tid, o.w.head) == o.w
            && r.released == Frames(o.released) && r.freed == o.freed && r.passed == []
  {
    SnSubZero(f.seqno, t.head);
    if f.seqno == t.head {
      ReorderInOrder(t, uh, f, now);
    } else {
      StartedStays(t, uh);
      AheadOf(uh, f.seqno);
      hide HeldOf, SnSub, Settled, Admit, Arrive;
      AdmitRefines(t.(started := true), uh, f, SnSub(f.seqno, t.head), now);
    }
  }
}
