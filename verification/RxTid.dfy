/** The block-ack session object as agg-rx.c updates it: an array of slots, a moving head, and loops.
    Each method is one critical section of `tid->lock` or a helper called inside one. */
module RxTids {
  import opened Basics
  import opened SequenceNumber
  import opened ReorderBuffer
  import opened ReorderTimeout
  import opened ReorderRuns

  class RxTid {
    var head: nat
    const size: nat
    var nframes: nat
    var started: bool
    var stopped: bool
    const timeo: nat
    const reorderBuf: array<Option<Entry>>
    var pending: bool
    var phase: Phase
    /** The value of the fields above, kept up to date by every method. */
    ghost var model: Tid

    ghost predicate Valid()
      reads this, reorderBuf
    {
      && reorderBuf.Length == size
      && model == Tid(head, size, reorderBuf[..], nframes, started, stopped, timeo)
      && WellFormed(model)
    }

    ghost function State(): Session
      reads this
    {
      Session(model, pending, phase)
    }

    /** `mt76_rx_aggr_start`. */
    constructor (hz: nat, tidno: nat, ssn: nat, size: nat)
      requires ssn < SN_MODULO && 0 < size
      ensures Valid() && fresh(reorderBuf)
      ensures State() == Open(ssn, size, Timeo(hz, tidno))
    {
      head, this.size, nframes := ssn, size, 0;
      started, stopped := false, false;
      timeo := Timeo(hz, tidno);
      pending, phase := false, Idle;
      reorderBuf := new Option<Entry>[size](_ => None);
      model := Start(ssn, size, Timeo(hz, tidno));
    }

    /** `mt76_aggr_release`. In this method and the next four, `out` is what they add to the caller's queue. */
    method AggrRelease(idx: nat) returns (out: seq<Frame>)
      requires Valid() && idx < size
      modifies this`head, this`nframes, this`model, reorderBuf
      ensures Valid() && (model, out) == ReorderBuffer.AggrRelease(old(model), idx)
    {
      out := [];
      OccupiedRemoveIfTaken(model.slots, idx);
      model := ReorderBuffer.AggrRelease(model, idx).0;
      head := SnInc(head);
      var skb := reorderBuf[idx];
      if skb.Some? {
        reorderBuf[idx] := None;
        nframes := nframes - 1;
        out := [skb.value.frame];
      }
    }

    /** `mt76_rx_aggr_release_frames`. */
    method ReleaseFrames(target: nat) returns (out: seq<Frame>)
      requires Valid() && target < SN_MODULO
      modifies this`head, this`nframes, this`model, reorderBuf
      ensures Valid() && (model, out) == ReorderBuffer.ReleaseFrames(old(model), target)
    {
      out := [];
      assert size > 0;
      hide SnSub, WellFormed;
      ThenNothing(ReorderBuffer.ReleaseFrames(model, target));
      while SnLess(head, target)
        invariant Valid()
        invariant ReorderBuffer.ReleaseFrames(old(model), target)
                  == Then(out, ReorderBuffer.ReleaseFrames(model, target))
        decreases SnSub(target, head)
      {
        ReleaseFramesStep(model, target, out);
        var idx := head % size;
        var released := AggrRelease(idx);
        out := out + released;
      }
      ThenDone(out, model);
    }

    /** `mt76_rx_aggr_release_head`. */
    method ReleaseHead() returns (out: seq<Frame>)
      requires Valid()
      modifies this`head, this`nframes, this`model, reorderBuf
      ensures Valid() && (model, out) == ReorderBuffer.ReleaseHead(old(model))
    {
      out := [];
      var idx := head % size;
      ThenNothing(ReorderBuffer.ReleaseHead(model));
      while reorderBuf[idx].Some?
        invariant Valid() && idx == head % size
        invariant ReorderBuffer.ReleaseHead(old(model)) == Then(out, ReorderBuffer.ReleaseHead(model))
        decreases nframes
      {
        ReleaseHeadStep(model, out);
        var released := AggrRelease(idx);
        out := out + released;
        idx := head % size;
      }
      ThenDone(out, model);
    }

    /** The scan of `mt76_rx_aggr_check_release`: it starts at a fixed slot while the head moves. */
    method ScanExpired(now: nat) returns (out: seq<Frame>)
      requires Valid()
      modifies this`head, this`nframes, this`model, reorderBuf
      ensures Valid() && old(model).size > 0
      ensures (model, out)
              == Scan(old(model), old(model).head % old(model).size, old(model).size - 1, old(model).nframes, now)
    {
      out := [];
      var start := head % size;
      var n := nframes;
      var idx := (head + 1) % size;
      ghost var left: nat := size - 1;
      NextSlot(head, size);
      ThenNothing(Scan(model, start, left, n, now));
      hide SnSub, ReorderBuffer.ReleaseFrames, Expired, Scan, WellFormed, ScanSlot, Then;
      while idx != start && n > 0
        invariant Valid() && start < size && left < size
        invariant idx == ScanSlot(start, left, size)
        invariant Scan(old(model), start, size - 1, old(nframes), now) == Then(out, Scan(model, start, left, n, now))
        decreases left
      {
        ScanStep(model, start, left, n, now, out);
        ScanSlotNext(start, left, size);
        var skb := reorderBuf[idx];
        if skb.Some? {
          n := n - 1;
          if Expired(skb.value, now, timeo) {
            var released := ReleaseFrames(skb.value.frame.seqno);
            out := out + released;
          }
        }
        idx, left := (idx + 1) % size, left - 1;
      }
      ScanEnds(model, start, left, n, now);
      ThenDone(out, model);
    }

    /** `mt76_rx_aggr_check_release`. */
    method CheckRelease(now: nat) returns (out: seq<Frame>)
      requires Valid()
      modifies this`head, this`nframes, this`model, reorderBuf
      ensures Valid() && (model, out) == ReorderBuffer.CheckRelease(old(model), now)
    {
      if nframes == 0 {
        return [];
      }
      var out1 := ReleaseHead();
      var out2 := ScanExpired(now);
      var out3 := ReleaseHead();
      out := out1 + out2 + out3;
    }

    /** The timer fires. */
    method Fire()
      requires Valid()
      modifies this`pending, this`phase
      ensures Valid() && State() == Step(old(State()), Event.Fire)
    {
      if pending && phase.Idle? {
        pending, phase := false, Entered;
      }
    }

    /** `mt76_rx_aggr_reorder_work`, up to the unlock. */
    method ReorderWork(now: nat) returns (frames: seq<Frame>)
      requires Valid()
      modifies this`head, this`nframes, this`phase, this`model, reorderBuf
      ensures Valid() && State() == Step(old(State()), Expire(now))
      ensures frames == Effect(old(State()), Expire(now)).released
    {
      frames := [];
      if phase.Entered? {
        frames := CheckRelease(now);
        phase := Scanned(nframes > 0);
      }
    }

    /** `mt76_rx_aggr_reorder_work`, after the unlock. */
    method RearmWork()
      requires Valid()
      modifies this`pending, this`phase
      ensures Valid() && State() == Step(old(State()), Rearm)
    {
      if phase.Scanned? {
        pending, phase := pending || phase.rearm, Idle;
      }
    }

    /** The critical section of `mt76_rx_aggr_check_ctl`. */
    method BlockAckRequest(frames: seq<Frame>, seqno: nat) returns (frames': seq<Frame>)
      requires Valid() && seqno < SN_MODULO
      modifies this`head, this`nframes, this`model, reorderBuf
      ensures Valid() && State() == Step(old(State()), BlockAckReq(seqno))
      ensures frames' == frames + Effect(old(State()), BlockAckReq(seqno)).released
    {
      frames' := frames;
      if !stopped {
        var out1 := ReleaseFrames(seqno);
        var out2 := ReleaseHead();
        frames' := frames + (out1 + out2);
      }
    }

    /** The critical section of `mt76_rx_aggr_reorder`: `frames` ends with the frame that arrived. */
    method Reorder(skb: Frame, frames: seq<Frame>, now: nat) returns (frames': seq<Frame>, freed: seq<Frame>)
      requires Valid() && skb.seqno < SN_MODULO && |frames| > 0 && frames[|frames| - 1] == skb
      modifies this`head, this`nframes, this`started, this`pending, this`model, reorderBuf
      ensures Valid() && State() == Step(old(State()), Arrival(skb, now))
      ensures var r := Effect(old(State()), Arrival(skb, now));
              && frames' == frames[..|frames| - 1] + r.passed + r.released
              && freed == r.freed
    {
      ghost var before := frames[..|frames| - 1];
      assert frames == before + [skb];
      hide SnSub, ReorderBuffer.ReleaseHead, WellFormed, Admit;
      frames', freed := frames, [];
      if stopped {
        return;
      }
      var snLess := SnLess(skb.seqno, head);
      if !started {
        if snLess {
          return;
        }
      }
      StartSession();
      if snLess {
        frames', freed := frames[..|frames| - 1], [skb];
      } else if skb.seqno == head {
        var out := TakeDue();
        frames' := frames + out;
      } else {
        var out;
        out, freed := AdmitFrame(skb, now);
        frames' := frames[..|frames| - 1] + out;
      }
    }

    method StartSession()
      requires Valid()
      modifies this`started, this`model
      ensures Valid() && model == old(model).(started := true)
    {
      started := true;
      model := model.(started := true);
    }

    /** The frame that was due has arrived: the head moves on, and whatever waited for it follows. */
    method TakeDue() returns (out: seq<Frame>)
      requires Valid()
      modifies this`head, this`nframes, this`model, reorderBuf
      ensures Valid()
      ensures var t1 := old(model).(head := SnInc(old(model).head));
              (model, out) == if t1.nframes > 0 then ReorderBuffer.ReleaseHead(t1) else (t1, [])
    {
      out := [];
      head := SnInc(head);
      model := model.(head := SnInc(model.head));
      if nframes > 0 {
        out := ReleaseHead();
      }
    }

    /** The tail of `mt76_rx_aggr_reorder`, for a frame ahead of the head. */
    method AdmitFrame(skb: Frame, now: nat) returns (out: seq<Frame>, freed: seq<Frame>)
      requires Valid() && skb.seqno < SN_MODULO
      modifies this`head, this`nframes, this`pending, this`model, reorderBuf
      ensures Valid()
      ensures var r := Admit(old(model), skb, now);
              && model == r.tid && out == r.released && freed == r.freed
              && pending == (old(pending) || r.armed)
    {
      out, freed := [], [];
      hide SnSub, ReorderBuffer.ReleaseFrames, ReorderBuffer.ReleaseHead;
      if !SnLess(skb.seqno, head + size) {
        out := ReleaseFrames(FlushTarget(skb.seqno, size));
      }
      assert (model, out) == MakeRoom(old(model), skb.seqno);
      hide MakeRoom, FlushTarget;
      var idx := skb.seqno % size;
      if reorderBuf[idx].Some? {
        freed := [skb];
        return;
      }
      StoreFrame(skb, idx, now);
      var released := ReleaseHead();
      out := out + released;
      pending := true;
    }

    method StoreFrame(skb: Frame, idx: nat, now: nat)
      requires Valid() && idx < size && reorderBuf[idx].None? && skb.seqno < SN_MODULO
      modifies this`nframes, this`model, reorderBuf
      ensures Valid()
      ensures old(model).nframes + 1 == nframes && idx < |old(model).slots|
      ensures model == old(model).(slots := old(model).slots[idx := Some(Entry(skb, now))], nframes := nframes)
    {
      OccupiedAdd(model.slots, idx, Entry(skb, now));
      reorderBuf[idx] := Some(Entry(skb, now));
      nframes := nframes + 1;
      model := model.(slots := model.slots[idx := Some(Entry(skb, now))], nframes := nframes);
    }

    /** `mt76_rx_aggr_shutdown`, up to the unlock. */
    method Shutdown() returns (freed: seq<Frame>)
      requires Valid()
      modifies this`stopped, this`nframes, this`model, reorderBuf
      ensures Valid() && State() == Step(old(State()), Stop)
      ensures freed == Effect(old(State()), Stop).freed
    {
      stopped := true;
      freed := [];
      var i := 0;
      assert model.slots == reorderBuf[..];
      hide WellFormed;
      while nframes > 0 && i < size
        invariant i <= size && stopped && model == old(model)
        invariant var all := FreeSlots(model.slots, 0, model.nframes);
                  var rest := FreeSlots(reorderBuf[..], i, nframes);
                  all.0 == rest.0 && all.1 == rest.1 && all.2 == freed + rest.2
      {
        var skb := reorderBuf[i];
        if skb.Some? {
          ghost var slots := reorderBuf[..];
          reorderBuf[i] := None;
          assert reorderBuf[..] == slots[i := None];
          nframes := nframes - 1;
          freed := freed + [skb.value.frame];
        }
        i := i + 1;
      }
      model := ReorderBuffer.Shutdown(model).tid;
    }
  }

  lemma OccupiedRemoveIfTaken(slots: Slots, i: nat)
    requires i < |slots|
    ensures slots[i].Some? ==> |Occupied(slots)| > 0
  {
    if slots[i].Some? {
      OccupiedRemove(slots, i);
    }
  }

  /** The result of a computation that had already released `out` when it got to `r`. */
  function Then(out: seq<Frame>, r: (Tid, seq<Frame>)): (Tid, seq<Frame>) {
    (r.0, out + r.1)
  }

  lemma ThenNothing(r: (Tid, seq<Frame>))
    ensures Then([], r) == r
  {
    assert [] + r.1 == r.1;
  }

  lemma ThenDone(out: seq<Frame>, t: Tid)
    ensures Then(out, (t, [])) == (t, out)
  {
    assert out + [] == out;
  }

  lemma ThenAssociates(a: seq<Frame>, b: seq<Frame>, r: (Tid, seq<Frame>))
    ensures Then(a, Then(b, r)) == Then(a + b, r)
  {
    assert a + (b + r.1) == (a + b) + r.1;
  }

  lemma ReleaseFramesStep(t: Tid, target: nat, out: seq<Frame>)
    requires WellFormed(t) && target < SN_MODULO && SnLess(t.head, target)
    ensures var (t1, out1) := ReorderBuffer.AggrRelease(t, t.head % t.size);
            && Then(out, ReorderBuffer.ReleaseFrames(t, target))
               == Then(out + out1, ReorderBuffer.ReleaseFrames(t1, target))
            && SnSub(target, t1.head) < SnSub(target, t.head)
  {
    SnLessStep(t.head, target);
    hide SnSub;
    var (t1, out1) := ReorderBuffer.AggrRelease(t, t.head % t.size);
    ThenAssociates(out, out1, ReorderBuffer.ReleaseFrames(t1, target));
  }

  lemma ReleaseHeadStep(t: Tid, out: seq<Frame>)
    requires WellFormed(t) && t.slots[t.head % t.size].Some?
    ensures var (t1, out1) := ReorderBuffer.AggrRelease(t, t.head % t.size);
            && Then(out, ReorderBuffer.ReleaseHead(t)) == Then(out + out1, ReorderBuffer.ReleaseHead(t1))
            && t1.nframes < t.nframes
  {
    OccupiedRemove(t.slots, t.head % t.size);
    var (t1, out1) := ReorderBuffer.AggrRelease(t, t.head % t.size);
    ThenAssociates(out, out1, ReorderBuffer.ReleaseHead(t1));
  }

  lemma ScanStep(t: Tid, start: nat, left: nat, n: nat, now: nat, out: seq<Frame>)
    requires WellFormed(t) && start < t.size && left < t.size && 0 < n && ScanSlot(start, left, t.size) != start
    ensures left > 0
    ensures var slot := t.slots[ScanSlot(start, left, t.size)];
            && (slot.Some? ==> slot.value.frame.seqno < SN_MODULO)
            && Then(out, Scan(t, start, left, n, now)) ==
               if slot.None? then Then(out, Scan(t, start, left - 1, n, now))
               else if !Expired(slot.value, now, t.timeo) then Then(out, Scan(t, start, left - 1, n - 1, now))
               else var (t1, out1) := ReorderBuffer.ReleaseFrames(t, slot.value.frame.seqno);
                    Then(out + out1, Scan(t1, start, left - 1, n - 1, now))
  {
    var slot := t.slots[ScanSlot(start, left, t.size)];
    if slot.Some? && Expired(slot.value, now, t.timeo) {
      var (t1, out1) := ReorderBuffer.ReleaseFrames(t, slot.value.frame.seqno);
      ThenAssociates(out, out1, Scan(t1, start, left - 1, n - 1, now));
    }
  }

  lemma ScanEnds(t: Tid, start: nat, left: nat, n: nat, now: nat)
    requires WellFormed(t) && start < t.size && left < t.size
    requires ScanSlot(start, left, t.size) == start || n == 0
    ensures Scan(t, start, left, n, now) == (t, [])
  {
  }

  lemma NextSlot(head: nat, size: nat)
    requires 0 < size
    ensures (head + 1) % size == ScanSlot(head % size, size - 1, size)
  {
    ScanSlotUnwrapped(head + 1, head + size, size);
    AddOne(head, size);
  }

  lemma ScanSlotNext(start: nat, left: nat, size: nat)
    requires start < size && 0 < left < size
    ensures (ScanSlot(start, left, size) + 1) % size == ScanSlot(start, left - 1, size)
  {
    var i := ScanSlot(start, left, size);
    if i + 1 == size {
      ModUnique(i + 1, 1, 0, size);
    } else {
      ModUnique(i + 1, 0, i + 1, size);
    }
  }

  /** What `mt76_rx_aggr_reorder` looks at before it takes the lock. */
  datatype Received =
    | Aggregated(frame: Frame, noAck: bool)
    | Request(frame: Frame, start: nat)
    | Other(frame: Frame)

  /** `mt76_rx_aggr_reorder` with the session that the station and the traffic identifier select, if any. */
  method RxAggrReorder(rx: Received, station: bool, tid: RxTid?, frames: seq<Frame>, now: nat)
    returns (frames': seq<Frame>, freed: seq<Frame>)
    requires rx.frame.seqno < SN_MODULO && (rx.Request? ==> rx.start < SN_MODULO)
    requires tid != null ==> tid.Valid()
    modifies tid, if tid != null then {tid.reorderBuf} else {}
    ensures tid != null ==> tid.Valid()
    ensures !station || tid == null || rx.Other? || (rx.Aggregated? && rx.noAck)
            ==> frames' == frames + [rx.frame] && freed == [] && (tid != null ==> tid.State() == old(tid.State()))
    ensures station && tid != null && rx.Request?
            ==> && frames' == frames + [rx.frame] + Effect(old(tid.State()), BlockAckReq(rx.start)).released
                && freed == [] && tid.State() == Step(old(tid.State()), BlockAckReq(rx.start))
    ensures station && tid != null && rx.Aggregated? && !rx.noAck
            ==> var r := Effect(old(tid.State()), Arrival(rx.frame, now));
                && frames' == frames + r.passed + r.released && freed == r.freed
                && tid.State() == Step(old(tid.State()), Arrival(rx.frame, now))
  {
    frames', freed := frames + [rx.frame], [];
    if !station || tid == null {
      return;
    }
    match rx
    case Other(_) =>
    case Request(_, start) =>
      frames' := tid.BlockAckRequest(frames', start);
    case Aggregated(skb, noAck) =>
      if !noAck {
        assert frames'[..|frames'| - 1] == frames;
        frames', freed := tid.Reorder(skb, frames', now);
      }
  }
}
