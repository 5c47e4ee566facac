/** The circular reorder buffer of one block-ack session, as functions of its fields.
    Every function takes the branches of its namesake in agg-rx.c, for every window size. */
module ReorderBuffer {
  import opened Basics
  import opened SequenceNumber

  datatype Frame = Frame(id: nat, seqno: nat)

  /** A buffered frame and the jiffies value stamped on it. */
  datatype Entry = Entry(frame: Frame, time: nat)

  type Slots = seq<Option<Entry>>

  /** `timeo` is the session's release timeout in jiffies. */
  datatype Tid = Tid(head: nat, size: nat, slots: Slots, nframes: nat, started: bool, stopped: bool, timeo: nat)

  function Timeo(hz: nat, tidno: nat): nat {
    hz / (if tidno >= 4 then 25 else 10)
  }

  /** 32-bit jiffies comparison: true while `a` is 1 to 2^31 ticks after `b`. */
  predicate TimeAfter32(a: int, b: int) {
    (b - a) % 0x1_0000_0000 >= 0x8000_0000
  }

  predicate Expired(e: Entry, now: nat, timeo: nat) {
    TimeAfter32(now, e.time + timeo)
  }

  ghost function Occupied(slots: Slots): set<nat> {
    set i: nat | i < |slots| && slots[i].Some?
  }

  ghost predicate WellFormed(t: Tid) {
    && 0 < t.size == |t.slots|
    && t.head < SN_MODULO
    && (forall i :: 0 <= i < |t.slots| && t.slots[i].Some? ==> t.slots[i].value.frame.seqno < SN_MODULO)
    && t.nframes == |Occupied(t.slots)|
  }

  function Start(ssn: nat, size: nat, timeo: nat): (t: Tid)
    requires ssn < SN_MODULO && 0 < size
    ensures WellFormed(t)
  {
    var t := Tid(ssn, size, seq(size, _ => None), 0, false, false, timeo);
    assert Occupied(t.slots) == {};
    t
  }

  lemma OccupiedRemove(slots: Slots, i: nat)
    requires i < |slots| && slots[i].Some?
    ensures Occupied(slots[i := None]) == Occupied(slots) - {i}
    ensures |Occupied(slots[i := None])| == |Occupied(slots)| - 1
    ensures |Occupied(slots)| > 0
  {
    assert i in Occupied(slots);
  }

  lemma OccupiedAdd(slots: Slots, i: nat, e: Entry)
    requires i < |slots| && slots[i].None?
    ensures Occupied(slots[i := Some(e)]) == Occupied(slots) + {i}
    ensures |Occupied(slots[i := Some(e)])| == |Occupied(slots)| + 1
  {
    assert i !in Occupied(slots);
  }

  /** Advances the head by one and hands out the frame of slot `idx`, if there is one. */
  function AggrRelease(t: Tid, idx: nat): (r: (Tid, seq<Frame>))
    requires WellFormed(t) && idx < t.size
    ensures WellFormed(r.0) && r.0.size == t.size
  {
    var t1 := t.(head := SnInc(t.head));
    if t.slots[idx].None? then
      (t1, [])
    else
      OccupiedRemove(t.slots, idx);
      (t1.(slots := t.slots[idx := None], nframes := t.nframes - 1), [t.slots[idx].value.frame])
  }

  function ReleaseFrames(t: Tid, head: nat): (r: (Tid, seq<Frame>))
    requires WellFormed(t) && head < SN_MODULO
    ensures WellFormed(r.0) && r.0.size == t.size
    decreases SnSub(head, t.head)
  {
    if SnLess(t.head, head) then
      SnLessStep(t.head, head);
      var (t1, out1) := AggrRelease(t, t.head % t.size);
      var (t2, out2) := ReleaseFrames(t1, head);
      (t2, out1 + out2)
    else
      (t, [])
  }

  function ReleaseHead(t: Tid): (r: (Tid, seq<Frame>))
    requires WellFormed(t)
    ensures WellFormed(r.0) && r.0.size == t.size
    ensures r.0.slots[r.0.head % r.0.size].None?
    decreases t.nframes
  {
    if t.slots[t.head % t.size].Some? then
      OccupiedRemove(t.slots, t.head % t.size);
      var (t1, out1) := AggrRelease(t, t.head % t.size);
      var (t2, out2) := ReleaseHead(t1);
      (t2, out1 + out2)
    else
      (t, [])
  }

  /** The slot visited when `left` steps of the scan remain before it is back at `start`. */
  function ScanSlot(start: nat, left: nat, size: nat): (i: nat)
    requires start < size && left < size
    ensures i < size
  {
    if left <= start then start - left else start + size - left
  }

  /** The timeout scan: visits the slots after `start`, `n` frames still to be seen, and moves the head as it goes. */
  function Scan(t: Tid, start: nat, left: nat, n: nat, now: nat): (r: (Tid, seq<Frame>))
    requires WellFormed(t) && start < t.size && left < t.size
    ensures WellFormed(r.0) && r.0.size == t.size
    decreases left
  {
    if left == 0 || n == 0 then
      (t, [])
    else
      var slot := t.slots[ScanSlot(start, left, t.size)];
      if slot.None? then
        Scan(t, start, left - 1, n, now)
      else if !Expired(slot.value, now, t.timeo) then
        Scan(t, start, left - 1, n - 1, now)
      else
        var (t1, out1) := ReleaseFrames(t, slot.value.frame.seqno);
        var (t2, out2) := Scan(t1, start, left - 1, n - 1, now);
        (t2, out1 + out2)
  }

  function CheckRelease(t: Tid, now: nat): (r: (Tid, seq<Frame>))
    requires WellFormed(t)
    ensures WellFormed(r.0) && r.0.size == t.size
  {
    if t.nframes == 0 then
      (t, [])
    else
      var (t1, out1) := ReleaseHead(t);
      var (t2, out2) := Scan(t1, t1.head % t.size, t.size - 1, t1.nframes, now);
      var (t3, out3) := ReleaseHead(t2);
      (t3, out1 + out2 + out3)
  }

  /** What one lock region did with frames: `passed` bypasses the session, `released` leaves it in order,
      `freed` is dropped; `armed` tells whether the delayed work was queued. */
  datatype Result = Result(tid: Tid, passed: seq<Frame>, released: seq<Frame>, freed: seq<Frame>, armed: bool)

  /** A block-ack request for sequence number `seqno`. */
  function CheckCtl(t: Tid, seqno: nat): (r: Result)
    requires WellFormed(t) && seqno < SN_MODULO
    ensures WellFormed(r.tid) && r.tid.size == t.size
  {
    if t.stopped then
      Result(t, [], [], [], false)
    else
      var (t1, out1) := ReleaseFrames(t, seqno);
      var (t2, out2) := ReleaseHead(t1);
      Result(t2, [], out1 + out2, [], false)
  }

  /** The last sequence number of the window that must be left behind for `seqno` to fit. */
  function FlushTarget(seqno: nat, size: nat): nat {
    SnInc(SnSub(seqno, size))
  }

  /** Releases frames from the front until `seqno` fits into the window. */
  function MakeRoom(t: Tid, seqno: nat): (r: (Tid, seq<Frame>))
    requires WellFormed(t)
    ensures WellFormed(r.0) && r.0.size == t.size
  {
    if !SnLess(seqno, t.head + t.size) then ReleaseFrames(t, FlushTarget(seqno, t.size)) else (t, [])
  }

  /** Stores a frame ahead of the head, unless its slot is taken. */
  function Admit(t: Tid, f: Frame, now: nat): (r: Result)
    requires WellFormed(t) && f.seqno < SN_MODULO
    ensures WellFormed(r.tid) && r.tid.size == t.size
  {
    var (t1, out1) := MakeRoom(t, f.seqno);
    var idx := f.seqno % t1.size;
    if t1.slots[idx].Some? then
      Result(t1, [], out1, [f], false)
    else
      var e := Entry(f, now);
      OccupiedAdd(t1.slots, idx, e);
      var t2 := t1.(slots := t1.slots[idx := Some(e)], nframes := t1.nframes + 1);
      var (t3, out3) := ReleaseHead(t2);
      Result(t3, [], out1 + out3, [], true)
  }

  function Reorder(t: Tid, f: Frame, now: nat): (r: Result)
    requires WellFormed(t) && f.seqno < SN_MODULO
    ensures WellFormed(r.tid) && r.tid.size == t.size
  {
    var snLess := SnLess(f.seqno, t.head);
    if t.stopped || (!t.started && snLess) then
      Result(t, [f], [], [], false)
    else
      var t0 := t.(started := true);
      if snLess then
        Result(t0, [], [], [f], false)
      else if f.seqno == t.head then
        var t1 := t0.(head := SnInc(t0.head));
        if t1.nframes > 0 then
          var (t2, out) := ReleaseHead(t1);
          Result(t2, [], [f] + out, [], false)
        else
          Result(t1, [], [f], [], false)
      else
        Admit(t0, f, now)
  }

  /** The frames of slots `i..` in slot order, and the slots with those frames removed while `n` lasts. */
  function FreeSlots(slots: Slots, i: nat, n: nat): (r: (Slots, nat, seq<Frame>))
    requires i <= |slots|
    ensures |r.0| == |slots|
    decreases |slots| - i
  {
    if n == 0 || i == |slots| then
      (slots, n, [])
    else if slots[i].None? then
      FreeSlots(slots, i + 1, n)
    else
      var (s, m, out) := FreeSlots(slots[i := None], i + 1, n - 1);
      (s, m, [slots[i].value.frame] + out)
  }

  lemma {:induction false} FreeSlotsEmpties(slots: Slots, i: nat, n: nat)
    requires i <= |slots| && n == |Occupied(slots)|
    requires forall j :: 0 <= j < i ==> slots[j].None?
    ensures var (s, m, out) := FreeSlots(slots, i, n);
            m == 0 && forall j :: 0 <= j < |s| ==> s[j].None?
    decreases |slots| - i
  {
    if i == |slots| {
      assert Occupied(slots) == {};
    } else if n == 0 {
      forall j | 0 <= j < |slots| ensures slots[j].None? {
        assert j !in Occupied(slots);
      }
    } else if slots[i].None? {
      FreeSlotsEmpties(slots, i + 1, n);
    } else {
      OccupiedRemove(slots, i);
      FreeSlotsEmpties(slots[i := None], i + 1, n - 1);
    }
  }

  function Shutdown(t: Tid): (r: Result)
    requires WellFormed(t)
    ensures WellFormed(r.tid) && r.tid.size == t.size
    ensures r.tid.stopped && r.tid.nframes == 0
    ensures forall i :: 0 <= i < r.tid.size ==> r.tid.slots[i].None?
  {
    FreeSlotsEmpties(t.slots, 0, t.nframes);
    var (slots, n, out) := FreeSlots(t.slots, 0, t.nframes);
    assert Occupied(slots) == {};
    Result(t.(stopped := true, slots := slots, nframes := n), [], [], out, false)
  }
}
