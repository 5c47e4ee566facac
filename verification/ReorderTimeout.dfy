/** The timeout scan moves the head while it walks the ring from a fixed start; it still computes the
    one-line rule of ReorderWindow.Timeout. */
module ReorderTimeout {
  import opened Basics
  import opened SequenceNumber
  import opened ReorderBuffer
  import opened ReorderWindow
  import opened ReorderRefinement

  /** How many steps before its return to `start` the scan visits slot `i`. */
  function Back(start: nat, i: nat, size: nat): int {
    if i <= start then start - i else start - i + size
  }

  lemma ScanSlotAt(start: nat, left: nat, size: nat, i: nat)
    requires start < size && left < size && i < size
    ensures i == ScanSlot(start, left, size) <==> Back(start, i, size) == left
  {
  }

  /** In unbounded numbers a scan that ends at `hi` visits the slot of `c` when hi - c steps remain. */
  lemma ScanSlotUnwrapped(c: nat, hi: nat, size: nat)
    requires 0 < size && c <= hi < c + size
    ensures ScanSlot(hi % size, hi - c, size) == c % size
  {
    var r := hi % size;
    var q := hi / size;
    if hi - c <= r {
      ModUnique(c, q, r - (hi - c), size);
    } else {
      NextMultiple(q - 1, size);
      ModUnique(c, q - 1, r + size - (hi - c), size);
    }
  }

  /** The occupied slots the scan has yet to visit. */
  ghost function Unseen(slots: Slots, start: nat, left: nat): set<nat> {
    set i: nat | i < |slots| && slots[i].Some? && 1 <= Back(start, i, |slots|) <= left
  }

  lemma UnseenStep(slots: Slots, start: nat, left: nat)
    requires start < |slots| && 0 < left < |slots|
    ensures var idx := ScanSlot(start, left, |slots|);
            && idx < |slots|
            && Unseen(slots, start, left - 1) == Unseen(slots, start, left) - {idx}
            && (idx in Unseen(slots, start, left) <==> slots[idx].Some?)
  {
    forall i: nat | i < |slots|
      ensures i == ScanSlot(start, left, |slots|) <==> Back(start, i, |slots|) == left
    {
      ScanSlotAt(start, left, |slots|, i);
    }
    ScanSlotAt(start, left, |slots|, 0);
  }

  lemma UnseenInitially(slots: Slots, start: nat)
    requires start < |slots| && slots[start].None?
    ensures Unseen(slots, start, |slots| - 1) == Occupied(slots)
  {
  }

  lemma {:induction false} LastExpiredNone(held: Held, lo: nat, hi: nat, dflt: nat, now: nat, timeo: nat)
    requires forall u | lo <= u < hi :: u !in held
    ensures LastExpired(held, lo, hi, dflt, now, timeo) == dflt
    decreases hi - lo
  {
    if lo < hi {
      LastExpiredNone(held, lo + 1, hi, dflt, now, timeo);
    }
  }

  lemma {:induction false} LastExpiredAgree(h1: Held, h2: Held, lo: nat, hi: nat, dflt: nat, now: nat, timeo: nat)
    requires forall u | lo <= u < hi :: (u in h1 <==> u in h2) && (u in h1 ==> h1[u] == h2[u])
    ensures LastExpired(h1, lo, hi, dflt, now, timeo) == LastExpired(h2, lo, hi, dflt, now, timeo)
    decreases hi - lo
  {
    if lo < hi {
      LastExpiredAgree(h1, h2, lo + 1, hi,
                       if lo in h1 && Expired(h1[lo], now, timeo) then lo else dflt, now, timeo);
    }
  }

  /** The scan has reached number `c` and ends before `hi`; the head is behind `c`. */
  ghost predicate Scanning(t: Tid, uh: nat, c: nat, hi: nat, start: nat, n: nat) {
    && Aligned(t, uh)
    && uh < c <= hi <= uh + t.size && start == hi % t.size
    && (forall v | v in HeldOf(t, uh) :: v < hi)
    && n == |Unseen(t.slots, start, hi - c)|
  }

  /** The position reached is occupied exactly when its unbounded number is held. */
  lemma ScanPosition(t: Tid, uh: nat, c: nat, hi: nat, start: nat, n: nat)
    requires Scanning(t, uh, c, hi, start, n) && c < hi
    ensures var slot := t.slots[ScanSlot(start, hi - c, t.size)];
            && (slot.Some? <==> c in HeldOf(t, uh))
            && (slot.Some? ==> slot.value == HeldOf(t, uh)[c] && slot.value.frame.seqno == c % SN_MODULO)
  {
    ScanSlotUnwrapped(c, hi, t.size);
  }

  lemma UnseenIsHeld(t: Tid, uh: nat, c: nat, hi: nat, start: nat)
    requires Scanning(t, uh, c, hi, start, 0)
    ensures forall u | c <= u < hi :: u !in HeldOf(t, uh)
  {
    forall u | c <= u < hi
      ensures u !in HeldOf(t, uh)
    {
      ScanSlotUnwrapped(u, hi, t.size);
      ScanSlotAt(start, hi - u, t.size, u % t.size);
      assert u % t.size !in Unseen(t.slots, start, hi - c);
    }
  }

  lemma ScanningSkips(t: Tid, uh: nat, c: nat, hi: nat, start: nat, n: nat)
    requires Scanning(t, uh, c, hi, start, n) && c < hi && 0 < n
    ensures Scanning(t, uh, c + 1, hi, start, if c in HeldOf(t, uh) then n - 1 else n)
  {
    ScanPosition(t, uh, c, hi, start, n);
    hide HeldOf;
    UnseenStep(t.slots, start, hi - c);
  }

  /** Releasing up to the position reached leaves the slots not yet visited alone. */
  lemma UnseenAfterRelease(t: Tid, t1: Tid, uh: nat, c: nat, hi: nat)
    requires Aligned(t, uh) && uh < c < hi <= uh + t.size
    requires 0 < t1.size == |t1.slots| == t.size
    requires HeldOf(t1, c) == (map u | u in HeldOf(t, uh) && u >= c :: HeldOf(t, uh)[u])
    ensures Unseen(t1.slots, hi % t.size, hi - c - 1) == Unseen(t.slots, hi % t.size, hi - c - 1)
  {
    var start := hi % t.size;
    forall i: nat | i < t.size && 1 <= Back(start, i, t.size) <= hi - c - 1
      ensures t1.slots[i].Some? <==> t.slots[i].Some?
    {
      var u := hi - Back(start, i, t.size);
      ScanSlotAt(start, hi - u, t.size, i);
      ScanSlotUnwrapped(u, hi, t.size);
      assert u % t.size == i;
      assert u in HeldOf(t1, c) <==> u in HeldOf(t, uh);
    }
  }

  /** The buffer and frames `r` are what flushing `w` up to `target` gives. */
  ghost predicate Flushes(r: (Tid, seq<Frame>), w: Window, target: nat) {
    var (w', rs) := Flush(w, target);
    Aligned(r.0, w'.head) && WindowOf(r.0, w'.head) == w' && r.1 == Frames(rs)
  }

  lemma FlushesCompose(r1: (Tid, seq<Frame>), r2: (Tid, seq<Frame>), w: Window, c: nat, target: nat)
    requires c <= target && Flushes(r1, w, c) && Flushes(r2, Flush(w, c).0, target)
    ensures Flushes((r2.0, r1.1 + r2.1), w, target)
  {
    FlushTwice(w, c, target);
    var (w1, rs1) := Flush(w, c);
    FramesConcat(rs1, Flush(w1, target).1);
    hide Aligned, HeldOf, Frames, Flush;
  }

  lemma ReleaseUpTo(t: Tid, uh: nat, c: nat)
    requires Aligned(t, uh) && uh <= c < uh + t.size
    ensures var r := ReleaseFrames(t, c % SN_MODULO);
            && Flushes(r, WindowOf(t, uh), c)
            && WindowOf(r.0, c) == Flush(WindowOf(t, uh), c).0 && Aligned(r.0, c)
            && HeldOf(r.0, c) == (map u | u in HeldOf(t, uh) && u >= c :: HeldOf(t, uh)[u])
            && r.0.timeo == t.timeo
  {
    ReleaseFramesRefines(t, uh, c);
    FlushReleases(WindowOf(t, uh), c);
    ReleaseFramesTimeo(t, c % SN_MODULO);
    HeldBounds(t, uh);
    hide HeldOf, SnSub, ReleaseFrames, Flush, Aligned;
  }

  lemma {:induction false} ReleaseFramesTimeo(t: Tid, head: nat)
    requires WellFormed(t) && head < SN_MODULO
    ensures ReleaseFrames(t, head).0.timeo == t.timeo
    decreases SnSub(head, t.head)
  {
    hide SnSub;
    if SnLess(t.head, head) {
      SnLessStep(t.head, head);
      ReleaseFramesTimeo(AggrRelease(t, t.head % t.size).0, head);
    }
  }

  lemma ScanningReleases(t: Tid, uh: nat, c: nat, hi: nat, start: nat, n: nat)
    requires Scanning(t, uh, c, hi, start, n) && c < hi && 0 < n && c in HeldOf(t, uh)
    ensures Scanning(ReleaseFrames(t, c % SN_MODULO).0, c, c + 1, hi, start, n - 1)
  {
    hide SnSub, ReleaseFrames, Flush, ScanSlot;
    ReleaseUpTo(t, uh, c);
    var t1 := ReleaseFrames(t, c % SN_MODULO).0;
    UnseenAfterRelease(t, t1, uh, c, hi);
    ScanPosition(t, uh, c, hi, start, n);
    hide HeldOf, Aligned;
    UnseenStep(t.slots, start, hi - c);
  }

  ghost function ScanTarget(t: Tid, uh: nat, c: nat, hi: nat, now: nat): nat
    requires 0 < t.size == |t.slots|
  {
    LastExpired(HeldOf(t, uh), c, hi, uh, now, t.timeo)
  }

  /** The rest of the scan releases everything up to the last expired frame it has yet to visit. */
  ghost predicate ScanIsFlush(t: Tid, uh: nat, c: nat, hi: nat, start: nat, n: nat, now: nat)
    requires Scanning(t, uh, c, hi, start, n)
  {
    Flushes(Scan(t, start, hi - c, n, now), WindowOf(t, uh), ScanTarget(t, uh, c, hi, now))
  }

  lemma ScanSkips(t: Tid, uh: nat, c: nat, hi: nat, start: nat, n: nat, now: nat)
    requires Scanning(t, uh, c, hi, start, n) && c < hi && 0 < n
    requires c !in HeldOf(t, uh) || !Expired(HeldOf(t, uh)[c], now, t.timeo)
    ensures Scan(t, start, hi - c, n, now)
            == Scan(t, start, hi - c - 1, if c in HeldOf(t, uh) then n - 1 else n, now)
    ensures ScanTarget(t, uh, c, hi, now) == ScanTarget(t, uh, c + 1, hi, now)
  {
    ScanPosition(t, uh, c, hi, start, n);
    hide HeldOf, Unseen, Expired, SnSub, SnLess, ReleaseFrames, ScanSlot;
  }

  lemma ScanReleases(t: Tid, uh: nat, c: nat, hi: nat, start: nat, n: nat, now: nat)
    requires Scanning(t, uh, c, hi, start, n) && c < hi && 0 < n
    requires c in HeldOf(t, uh) && Expired(HeldOf(t, uh)[c], now, t.timeo)
    ensures var r1 := ReleaseFrames(t, c % SN_MODULO);
            && start < r1.0.size && hi - c - 1 < r1.0.size
            && var r2 := Scan(r1.0, start, hi - c - 1, n - 1, now);
            Scan(t, start, hi - c, n, now) == (r2.0, r1.1 + r2.1)
  {
    ScanPosition(t, uh, c, hi, start, n);
    hide HeldOf, Unseen, Expired, SnSub, SnLess, ReleaseFrames, ScanSlot;
  }

  /** An expired frame at `c` does not change where the release ends. */
  lemma ScanTargetMoves(t: Tid, t1: Tid, uh: nat, c: nat, hi: nat, now: nat)
    requires 0 < t.size == |t.slots| && 0 < t1.size == |t1.slots| && t1.timeo == t.timeo
    requires c < hi && c in HeldOf(t, uh) && Expired(HeldOf(t, uh)[c], now, t.timeo)
    requires HeldOf(t1, c) == (map u | u in HeldOf(t, uh) && u >= c :: HeldOf(t, uh)[u])
    ensures ScanTarget(t, uh, c, hi, now) == ScanTarget(t1, c, c + 1, hi, now) >= c
  {
    hide HeldOf, Expired;
    LastExpiredAgree(HeldOf(t, uh), HeldOf(t1, c), c + 1, hi, c, now, t.timeo);
    LastExpiredIsLast(HeldOf(t1, c), c + 1, hi, c, now, t.timeo);
  }

  lemma {:induction false} ScanRefines(t: Tid, uh: nat, c: nat, hi: nat, start: nat, n: nat, now: nat)
    requires Scanning(t, uh, c, hi, start, n)
    ensures ScanIsFlush(t, uh, c, hi, start, n, now)
    decreases hi - c
  {
    hide Expired, SnSub, ReleaseFrames, Unseen, ScanSlot;
    if c == hi {
    } else if n == 0 {
      UnseenIsHeld(t, uh, c, hi, start);
      LastExpiredNone(HeldOf(t, uh), c, hi, uh, now, t.timeo);
    } else {
      if c !in HeldOf(t, uh) || !Expired(HeldOf(t, uh)[c], now, t.timeo) {
        ScanningSkips(t, uh, c, hi, start, n);
        ScanRefines(t, uh, c + 1, hi, start, if c in HeldOf(t, uh) then n - 1 else n, now);
        ScanSkips(t, uh, c, hi, start, n, now);
      } else {
        ScanReleasesRefine(t, uh, c, hi, start, n, now);
      }
    }
  }

  lemma {:induction false} ScanReleasesRefine(t: Tid, uh: nat, c: nat, hi: nat, start: nat, n: nat, now: nat)
    requires Scanning(t, uh, c, hi, start, n) && c < hi && 0 < n
    requires c in HeldOf(t, uh) && Expired(HeldOf(t, uh)[c], now, t.timeo)
    ensures ScanIsFlush(t, uh, c, hi, start, n, now)
    decreases hi - c, 0
  {
    hide HeldOf, Expired, Flush, Unseen, SnSub, ScanTarget, Flushes, ReleaseFrames, Scan;
    var r1 := ReleaseFrames(t, c % SN_MODULO);
    assert uh <= c < uh + t.size && Aligned(t, uh);
    hide Aligned;
    ScanReleases(t, uh, c, hi, start, n, now);
    ScanningReleases(t, uh, c, hi, start, n);
    hide Scanning;
    ReleaseUpTo(t, uh, c);
    ScanTargetMoves(t, r1.0, uh, c, hi, now);
    ScanRefines(r1.0, c, c + 1, hi, start, n - 1, now);
    FlushesCompose(r1, Scan(r1.0, start, hi - c - 1, n - 1, now), WindowOf(t, uh), c, ScanTarget(t, uh, c, hi, now));
  }

  lemma CheckReleaseRefines(t: Tid, uh: nat, now: nat)
    requires Settled(t, uh)
    ensures var (t', out) := CheckRelease(t, now);
            var (w', rs) := Timeout(WindowOf(t, uh), t.size, now, t.timeo);
            Settled(t', w'.head) && WindowOf(t', w'.head) == w' && out == Frames(rs)
  {
    var w := WindowOf(t, uh);
    HeadSlot(t, uh);
    if t.nframes == 0 {
      NothingHeld(t, uh);
      LastExpiredNone(w.held, uh, uh + t.size, uh, now, t.timeo);
    } else {
      var start := t.head % t.size;
      UnseenInitially(t.slots, start);
      AddOne(uh, t.size);
      ScanRefines(t, uh, uh + 1, uh + t.size, start, t.nframes, now);
      CheckReleaseBusy(t, uh, Scan(t, start, t.size - 1, t.nframes, now), now);
    }
  }

  lemma CheckReleaseBusy(t: Tid, uh: nat, r: (Tid, seq<Frame>), now: nat)
    requires Settled(t, uh) && t.nframes > 0
    requires t.slots[t.head % t.size].None?
    requires r == Scan(t, t.head % t.size, t.size - 1, t.nframes, now)
    requires Flushes(r, WindowOf(t, uh), ScanTarget(t, uh, uh + 1, uh + t.size, now))
    ensures var (t', out) := CheckRelease(t, now);
            var (w', rs) := Timeout(WindowOf(t, uh), t.size, now, t.timeo);
            Settled(t', w'.head) && WindowOf(t', w'.head) == w' && out == Frames(rs)
  {
    var last := ScanTarget(t, uh, uh + 1, uh + t.size, now);
    assert last == LastExpired(HeldOf(t, uh), uh, uh + t.size, uh, now, t.timeo);
    assert ReleaseHead(t) == (t, []);
    hide HeldOf, Expired, SnSub, Scan, LastExpired, Flush, Drain, ScanTarget, ReleaseHead;
    var (w1, r1) := Flush(WindowOf(t, uh), last);
    assert Aligned(r.0, w1.head) && WindowOf(r.0, w1.head) == w1 && r.1 == Frames(r1);
    hide Aligned, WindowOf, Flushes;
    ReleaseHeadRefines(r.0, w1.head);
    FramesConcat(r1, Drain(w1).1);
    hide Frames, Settled;
  }

  lemma TimeoutExpiresAll(w: Window, size: nat, now: nat, timeo: nat)
    requires forall u | u in w.held :: w.head <= u < w.head + size
    ensures var w' := Timeout(w, size, now, timeo).0;
            forall u | u in w'.held :: !Expired(w'.held[u], now, timeo)
  {
    hide Expired, Flush, Drain, LastExpired;
    var last := LastExpired(w.held, w.head, w.head + size, w.head, now, timeo);
    LastExpiredIsLast(w.held, w.head, w.head + size, w.head, now, timeo);
    var (w1, r1) := Flush(w, last);
    FlushReleases(w, last);
    DrainReleases(w1);
    var w2 := Drain(w1).0;
    assert forall u | u in w2.held :: u in w.held && u > last && w2.held[u] == w.held[u];
  }

  /** After the scan nothing expired is left, although the head moved under it. */
  lemma TimeoutLeavesNoExpired(t: Tid, uh: nat, now: nat)
    requires Settled(t, uh)
    ensures var t' := CheckRelease(t, now).0;
            forall i :: 0 <= i < t'.size && t'.slots[i].Some? ==> !Expired(t'.slots[i].value, now, t.timeo)
  {
    var w := WindowOf(t, uh);
    CheckReleaseRefines(t, uh, now);
    HeldBounds(t, uh);
    TimeoutExpiresAll(w, t.size, now, t.timeo);
    var w' := Timeout(w, t.size, now, t.timeo).0;
    var t' := CheckRelease(t, now).0;
    hide Expired, Timeout, CheckRelease, Aligned;
    forall i | 0 <= i < t'.size && t'.slots[i].Some?
      ensures !Expired(t'.slots[i].value, now, t.timeo)
    {
      var u := NumberOfSlot(t', w'.head, i);
      assert u in w'.held;
    }
  }

  /** The number of the window that falls into slot `i`. */
  ghost function NumberOfSlot(t: Tid, uh: nat, i: nat): (u: nat)
    requires 0 < t.size && i < t.size
    ensures uh <= u < uh + t.size && u % t.size == i
  {
    var h := uh % t.size;
    var q := uh / t.size;
    NextMultiple(q, t.size);
    if i >= h then
      ModUnique(uh + (i - h), q, i, t.size);
      uh + (i - h)
    else
      ModUnique(uh + t.size + i - h, q + 1, i, t.size);
      uh + t.size + i - h
  }
}
