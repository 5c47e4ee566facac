/** Whole runs of one block-ack session: arrivals, block-ack requests, the three steps of the delayed work
    and the shutdown, in any order and number. One event is one critical section of the session's lock. */
module ReorderRuns {
  import opened Basics
  import opened SequenceNumber
  import opened ReorderBuffer
  import opened ReorderWindow
  import opened ReorderRefinement
  import opened ReorderTimeout

  /** The delayed work: `Entered` after its timer fired, `Scanned` once it has dropped the lock again. */
  datatype Phase = Idle | Entered | Scanned(rearm: bool)

  datatype Session = Session(tid: Tid, pending: bool, phase: Phase)

  datatype Event =
    | Arrival(frame: Frame, now: nat)
    | BlockAckReq(seqno: nat)
    | Fire
    | Expire(now: nat)
    | Rearm
    | Stop

  predicate ValidEvent(e: Event) {
    match e
    case Arrival(f, _) => f.seqno < SN_MODULO
    case BlockAckReq(seqno) => seqno < SN_MODULO
    case _ => true
  }

  function Open(ssn: nat, size: nat, timeo: nat): Session
    requires ssn < SN_MODULO && 0 < size
  {
    Session(Start(ssn, size, timeo), false, Idle)
  }

  function Idles(t: Tid): Result {
    Result(t, [], [], [], false)
  }

  /** What the event does to the buffer; an event that is not enabled does nothing. */
  function Effect(s: Session, e: Event): (r: Result)
    requires WellFormed(s.tid) && ValidEvent(e)
    ensures WellFormed(r.tid) && r.tid.size == s.tid.size
  {
    match e
    case Arrival(f, now) => Reorder(s.tid, f, now)
    case BlockAckReq(seqno) => CheckCtl(s.tid, seqno)
    case Expire(now) =>
      if s.phase.Entered? then
        var (t, out) := CheckRelease(s.tid, now);
        Result(t, [], out, [], false)
      else
        Idles(s.tid)
    case Stop => Shutdown(s.tid)
    case Fire => Idles(s.tid)
    case Rearm => Idles(s.tid)
  }

  function Step(s: Session, e: Event): (s': Session)
    requires WellFormed(s.tid) && ValidEvent(e)
    ensures WellFormed(s'.tid) && s'.tid.size == s.tid.size
  {
    var r := Effect(s, e);
    match e
    case Fire => if s.pending && s.phase.Idle? then Session(r.tid, false, Entered) else s
    case Expire(_) => Session(r.tid, s.pending, if s.phase.Entered? then Scanned(r.tid.nframes > 0) else s.phase)
    case Rearm => if s.phase.Scanned? then Session(r.tid, s.pending || s.phase.rearm, Idle) else s
    case _ => Session(r.tid, s.pending || r.armed, s.phase)
  }

  /** The unbounded numbers of the frames `released`, counted from the head `uh` before the step. */
  function Numbers(t: Tid, uh: nat, released: seq<Frame>): (us: seq<nat>)
    ensures |us| == |released|
  {
    seq(|released|, i requires 0 <= i < |released| => uh + SnSub(released[i].seqno, t.head))
  }

  function NextHead(t: Tid, uh: nat, t': Tid): nat {
    uh + SnSub(t'.head, t.head)
  }

  /** Everything the session releases in a run, as unbounded sequence numbers, in the order of release. */
  function Deliveries(s: Session, uh: nat, es: seq<Event>): seq<nat>
    requires WellFormed(s.tid) && forall e <- es :: ValidEvent(e)
    decreases |es|
  {
    if es == [] then
      []
    else
      var r := Effect(s, es[0]);
      Numbers(s.tid, uh, r.released) + Deliveries(Step(s, es[0]), NextHead(s.tid, uh, r.tid), es[1..])
  }

  ghost predicate StrictlyIncreasing(us: seq<nat>) {
    forall i, j :: 0 <= i < j < |us| ==> us[i] < us[j]
  }

  ghost predicate Between(us: seq<nat>, lo: nat, hi: nat) {
    forall i :: 0 <= i < |us| ==> lo <= us[i] < hi
  }

  // ---- one step ----

  ghost predicate Numbered(rs: seq<Release>) {
    forall i :: 0 <= i < |rs| ==> rs[i].frame.seqno == rs[i].u % SN_MODULO
  }

  ghost predicate NumberedWindow(w: Window) {
    forall u | u in w.held :: w.held[u].frame.seqno == u % SN_MODULO
  }

  lemma ReleasesNumbered(w: Window, w': Window, rs: seq<Release>)
    requires NumberedWindow(w) && Releases(w, w', rs)
    ensures Numbered(rs) && NumberedWindow(w')
  {
  }

  lemma DrainBound(w: Window, hi: nat)
    requires w.head <= hi && forall u | u in w.held :: u < hi
    ensures Drain(w).0.head <= hi
  {
    DrainReleases(w);
    assert hi !in w.held;
  }

  /** What every transition of the window keeps: releases in order, numbered, and the head moves less than a circle. */
  ghost predicate Orderly(w: Window, w': Window, rs: seq<Release>) {
    && Increasing(rs, w.head, w'.head) && Numbered(rs)
    && w.head <= w'.head < w.head + SN_MODULO
  }

  lemma FlushDrainOrderly(w: Window, target: nat, hi: nat)
    requires NumberedWindow(w) && w.head <= target <= hi < w.head + SN_MODULO
    requires forall u | u in w.held :: u < hi
    ensures var (w1, r1) := Flush(w, target);
            var (w2, r2) := Drain(w1);
            Orderly(w, w2, r1 + r2)
  {
    var (w1, r1) := Flush(w, target);
    var (w2, r2) := Drain(w1);
    FlushReleases(w, target);
    DrainReleases(w1);
    ReleasesCompose(w, w1, w2, r1, r2);
    ReleasesNumbered(w, w2, r1 + r2);
    DrainBound(w1, hi);
  }

  lemma TimeoutOrderly(w: Window, size: nat, now: nat, timeo: nat)
    requires NumberedWindow(w) && size < SN_MODULO && forall u | u in w.held :: u < w.head + size
    ensures var (w', rs) := Timeout(w, size, now, timeo); Orderly(w, w', rs)
  {
    LastExpiredIsLast(w.held, w.head, w.head + size, w.head, now, timeo);
    FlushDrainOrderly(w, LastExpired(w.held, w.head, w.head + size, w.head, now, timeo), w.head + size);
  }

  lemma BlockAckRequestOrderly(w: Window, size: nat, d: nat)
    requires NumberedWindow(w) && size <= SN_MODULO / 2 && forall u | u in w.held :: u < w.head + size
    requires d < SN_MODULO / 2
    ensures var (w', rs) := BlockAckRequest(w, d); Orderly(w, w', rs)
  {
    FlushDrainOrderly(w, w.head + d, w.head + if d < size then size else d);
  }

  lemma ArriveOrderly(w: Window, size: nat, f: Frame, d: nat, now: nat)
    requires NumberedWindow(w) && 0 < size <= SN_MODULO / 2 && forall u | u in w.held :: w.head <= u < w.head + size
    requires d <= SN_MODULO / 2 && f.seqno == (w.head + d) % SN_MODULO
    ensures var o := Arrive(w, size, f, d, now); Orderly(w, o.w, o.released)
  {
    hide Flush, Drain;
    var u := w.head + d;
    if d == 0 {
      var w0 := Window(u + 1, w.held);
      DrainOrderly(w0, if size == 1 then u + 1 else w.head + size);
      PrependOrderly(w, Release(u, f), Drain(w0).0, Drain(w0).1);
    } else {
      RoomOrderly(w, u, size);
      var (w1, r1) := WindowRoom(w, u, size);
      if u !in w1.held {
        var w2 := Window(w1.head, w1.held[u := Entry(f, now)]);
        DrainOrderly(w2, if d >= size then u + 1 else w.head + size);
        OrderlyCompose(w, w1.head, Drain(w2).0, r1, Drain(w2).1);
      }
    }
  }

  lemma DrainOrderly(w: Window, hi: nat)
    requires NumberedWindow(w) && w.head <= hi < w.head + SN_MODULO && forall u | u in w.held :: u < hi
    ensures var (w', rs) := Drain(w); Orderly(w, w', rs) && w'.head <= hi
  {
    DrainReleases(w);
    ReleasesNumbered(w, Drain(w).0, Drain(w).1);
    DrainBound(w, hi);
  }

  lemma RoomOrderly(w: Window, u: nat, size: nat)
    requires NumberedWindow(w) && 0 < size <= SN_MODULO / 2 && forall v | v in w.held :: w.head <= v < w.head + size
    requires w.head < u <= w.head + SN_MODULO / 2
    ensures var (w1, r1) := WindowRoom(w, u, size);
            && Orderly(w, w1, r1) && NumberedWindow(w1)
            && w1.head <= u && (u >= w.head + size ==> w1.head == u - size + 1)
            && (forall v | v in w1.held :: v in w.held && v >= w1.head)
  {
    if u >= w.head + size {
      FlushReleases(w, u - size + 1);
      var (w1, r1) := Flush(w, u - size + 1);
      ReleasesNumbered(w, w1, r1);
    }
  }

  lemma OrderlyCompose(w: Window, mid: nat, w': Window, r1: seq<Release>, r2: seq<Release>)
    requires Increasing(r1, w.head, mid) && Increasing(r2, mid, w'.head) && Numbered(r1) && Numbered(r2)
    requires w.head <= mid <= w'.head < w.head + SN_MODULO
    ensures Orderly(w, w', r1 + r2)
  {
  }

  lemma PrependOrderly(w: Window, r: Release, w': Window, rs: seq<Release>)
    requires r.u == w.head && r.frame.seqno == r.u % SN_MODULO
    requires Increasing(rs, w.head + 1, w'.head) && Numbered(rs) && w.head + 1 <= w'.head < w.head + SN_MODULO
    ensures Orderly(w, w', [r] + rs)
  {
    assert Increasing([r], w.head, w.head + 1);
    OrderlyCompose(w, w.head + 1, w', [r], rs);
  }

  /** Numbers recovers the unbounded numbers from the 12-bit ones. */
  lemma NumbersAre(t: Tid, uh: nat, w: Window, w': Window, rs: seq<Release>, t': Tid)
    requires t.head == uh % SN_MODULO && t'.head == w'.head % SN_MODULO
    requires w.head == uh && Orderly(w, w', rs)
    ensures NextHead(t, uh, t') == w'.head
    ensures forall i :: 0 <= i < |rs| ==> Numbers(t, uh, Frames(rs))[i] == rs[i].u
  {
    SnSubOfUnwrapped(w'.head, uh);
    forall i | 0 <= i < |rs| ensures Numbers(t, uh, Frames(rs))[i] == rs[i].u {
      SnSubOfUnwrapped(rs[i].u, uh);
    }
  }

  ghost predicate StepsInOrder(t: Tid, uh: nat, r: Result) {
    var us := Numbers(t, uh, r.released);
    var uh' := NextHead(t, uh, r.tid);
    Settled(r.tid, uh') && uh <= uh' && Between(us, uh, uh') && StrictlyIncreasing(us)
  }

  lemma FromWindow(t: Tid, uh: nat, r: Result, w': Window, rs: seq<Release>)
    requires Settled(t, uh) && Settled(r.tid, w'.head)
    requires Orderly(WindowOf(t, uh), w', rs) && r.released == Frames(rs)
    ensures StepsInOrder(t, uh, r)
  {
    NumbersAre(t, uh, WindowOf(t, uh), w', rs, r.tid);
    hide Settled, Numbers, Numbered, HeldOf;
  }

  lemma Unchanged(t: Tid, t': Tid, uh: nat)
    requires Settled(t, uh) && WellFormed(t') && t'.head == t.head && t'.size == t.size && t'.slots == t.slots
    ensures StepsInOrder(t, uh, Result(t', [], [], [], false))
  {
    assert HeldOf(t', uh) == HeldOf(t, uh);
    assert SnSub(t'.head, t.head) == 0;
  }

  lemma ArrivalInOrder(t: Tid, uh: nat, f: Frame, now: nat)
    requires Settled(t, uh) && f.seqno < SN_MODULO
    ensures StepsInOrder(t, uh, Reorder(t, f, now))
  {
    if !t.stopped && !SnLess(f.seqno, t.head) {
      var d := SnSub(f.seqno, t.head);
      ReorderRefines(t, uh, f, now);
      HeldBounds(t, uh);
      AheadOf(uh, f.seqno);
      var w := WindowOf(t, uh);
      var o := Arrive(w, t.size, f, d, now);
      var r := Reorder(t, f, now);
      hide HeldOf, Arrive, Reorder;
      ArriveOrderly(w, t.size, f, d, now);
      FromWindow(t, uh, r, o.w, o.released);
    } else {
      Unchanged(t, Reorder(t, f, now).tid, uh);
    }
  }

  lemma ShutdownInOrder(t: Tid, uh: nat)
    requires Settled(t, uh)
    ensures StepsInOrder(t, uh, Shutdown(t))
  {
    var t' := Shutdown(t).tid;
    NothingHeld(t', uh);
    assert SnSub(t'.head, t.head) == 0;
  }

  lemma StepInOrder(s: Session, uh: nat, e: Event)
    requires Settled(s.tid, uh) && ValidEvent(e)
    ensures StepsInOrder(s.tid, uh, Effect(s, e))
  {
    var t := s.tid;
    var w := WindowOf(t, uh);
    HeldBounds(t, uh);
    match e
    case Arrival(f, now) =>
      ArrivalInOrder(t, uh, f, now);
    case BlockAckReq(seqno) =>
      if t.stopped {
        Unchanged(t, t, uh);
      } else {
        CheckCtlRefines(t, uh, seqno);
        var d := SnSub(seqno, t.head);
        var ahead := if d < SN_MODULO / 2 then d else 0;
        BlockAckRequestOrderly(w, t.size, ahead);
        var (w', rs) := BlockAckRequest(w, ahead);
        FromWindow(t, uh, CheckCtl(t, seqno), w', rs);
      }
    case Expire(now) =>
      if s.phase.Entered? {
        CheckReleaseRefines(t, uh, now);
        TimeoutOrderly(w, t.size, now, t.timeo);
        var (w', rs) := Timeout(w, t.size, now, t.timeo);
        FromWindow(t, uh, Effect(s, e), w', rs);
      } else {
        Unchanged(t, t, uh);
      }
    case Stop =>
      ShutdownInOrder(t, uh);
    case Fire =>
      Unchanged(t, t, uh);
    case Rearm =>
      Unchanged(t, t, uh);
  }

  // ---- whole runs ----

  /** Delivery in order, and never twice: over any run the released numbers increase strictly,
      across any number of wraps of the 12-bit counter. */
  lemma {:induction false} RunInOrder(s: Session, uh: nat, es: seq<Event>)
    requires Settled(s.tid, uh) && forall e <- es :: ValidEvent(e)
    ensures StrictlyIncreasing(Deliveries(s, uh, es))
    ensures forall u <- Deliveries(s, uh, es) :: u >= uh
    decreases |es|
  {
    if es != [] {
      StepInOrder(s, uh, es[0]);
      var r := Effect(s, es[0]);
      var uh' := NextHead(s.tid, uh, r.tid);
      StepTid(s, es[0]);
      hide HeldOf, Effect, Settled, Numbers, Step, NextHead;
      RunInOrder(Step(s, es[0]), uh', es[1..]);
      ConcatIncreasing(Numbers(s.tid, uh, r.released), Deliveries(Step(s, es[0]), uh', es[1..]), uh, uh');
    }
  }

  lemma StepTid(s: Session, e: Event)
    requires WellFormed(s.tid) && ValidEvent(e)
    ensures Step(s, e).tid == Effect(s, e).tid
  {
  }

  lemma ConcatIncreasing(us: seq<nat>, vs: seq<nat>, lo: nat, mid: nat)
    requires StrictlyIncreasing(us) && Between(us, lo, mid)
    requires StrictlyIncreasing(vs) && (forall v <- vs :: v >= mid) && lo <= mid
    ensures StrictlyIncreasing(us + vs) && forall u <- us + vs :: u >= lo
  {
    forall i, j | 0 <= i < j < |us + vs| ensures (us + vs)[i] < (us + vs)[j] {
      if j >= |us| { assert (us + vs)[j] in vs; }
    }
  }

  /** The window invariant of every state a run reaches. */
  lemma {:induction false} RunStaysSettled(s: Session, uh: nat, es: seq<Event>) returns (uh': nat)
    requires Settled(s.tid, uh) && forall e <- es :: ValidEvent(e)
    ensures uh <= uh' && Settled(Run(s, es).tid, uh')
    decreases |es|
  {
    uh' := uh;
    if es != [] {
      StepInOrder(s, uh, es[0]);
      assert Step(s, es[0]).tid == Effect(s, es[0]).tid;
      uh' := RunStaysSettled(Step(s, es[0]), NextHead(s.tid, uh, Effect(s, es[0]).tid), es[1..]);
    }
  }

  function Run(s: Session, es: seq<Event>): (s': Session)
    requires WellFormed(s.tid) && forall e <- es :: ValidEvent(e)
    ensures WellFormed(s'.tid) && s'.tid.size == s.tid.size
    decreases |es|
  {
    if es == [] then s else Run(Step(s, es[0]), es[1..])
  }

  lemma StartIsSettled(ssn: nat, size: nat, timeo: nat)
    requires ssn < SN_MODULO && GoodSize(size)
    ensures Settled(Start(ssn, size, timeo), ssn)
  {
    NothingHeld(Start(ssn, size, timeo), ssn);
  }

  /** The window invariant in terms of the slots alone. */
  ghost predicate WindowInvariant(t: Tid) {
    && WellFormed(t)
    && t.slots[t.head % t.size].None?
    && forall i :: 0 <= i < t.size && t.slots[i].Some? ==>
         var seqno := t.slots[i].value.frame.seqno;
         seqno % t.size == i && 1 <= SnSub(seqno, t.head) <= t.size - 1
  }

  lemma SettledIsWindowInvariant(t: Tid, uh: nat)
    requires WellFormed(t) && GoodSize(t.size) && uh % SN_MODULO == t.head
    ensures Settled(t, uh) <==> WindowInvariant(t)
  {
    SlotOfUnwrapped(uh, t.size);
    if Settled(t, uh) {
      forall i | 0 <= i < t.size && t.slots[i].Some?
        ensures t.slots[i].value.frame.seqno % t.size == i
        ensures 1 <= SnSub(t.slots[i].value.frame.seqno, t.head) <= t.size - 1
      {
        var u := NumberOfSlot(t, uh, i);
        assert u in HeldOf(t, uh);
        SlotOfUnwrapped(u, t.size);
        SnSubOfUnwrapped(u, uh);
      }
    }
    if WindowInvariant(t) {
      forall u | u in HeldOf(t, uh)
        ensures u != uh && HeldOf(t, uh)[u].frame.seqno == u % SN_MODULO
      {
        SlotDeterminesNumber(t, uh, u);
      }
    }
  }

  lemma SlotDeterminesNumber(t: Tid, uh: nat, u: nat)
    requires WindowInvariant(t) && GoodSize(t.size) && uh % SN_MODULO == t.head && uh <= u < uh + t.size
    requires t.slots[u % t.size].Some?
    ensures u != uh && t.slots[u % t.size].value.frame.seqno == u % SN_MODULO
  {
    var seqno := t.slots[u % t.size].value.frame.seqno;
    var v := uh + SnSub(seqno, t.head);
    AheadOf(uh, seqno);
    SlotOfUnwrapped(v, t.size);
    if u <= v { SlotInjective(u, v, t.size); } else { SlotInjective(v, u, t.size); }
  }
}
