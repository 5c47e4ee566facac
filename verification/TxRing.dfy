/** A transmit ring of dma.c: descriptors filled at the head two buffers at a time, consumed by the hardware,
    and cleaned up at the tail. The class keeps the queued slots, oldest first, as its contents. */
module TxRing {
  import opened Basics

  datatype Buf = Buf(addr: nat, len: nat, skipUnmap: bool)

  datatype Txwi = NoTxwi | Dummy | Txwi(id: nat)

  datatype Entry = Entry(
    addr0: nat, len0: nat, addr1: nat, len1: nat, skip0: bool, skip1: bool, txwi: Txwi, skb: Option<nat>)

  const CLEARED := Entry(0, 0, 0, 0, false, false, NoTxwi, None)

  /** A hardware descriptor: two buffers with the 14-bit length fields of the control word and its LAST bits. */
  datatype Desc = Desc(buf0: nat, len0: nat, last0: bool, buf1: nat, len1: nat, last1: bool, info: nat)

  const DONE := Desc(0, 0, false, 0, 0, false, 0)

  datatype Slot = Slot(entry: Entry, desc: Desc)

  const LEN_FIELD := 0x4000

  /** Slots for `n` buffers. */
  function Slots(n: nat): nat {
    (n + 1) / 2
  }

  /** What the loop of `mt76_dma_add_buf` writes for the pair of buffers `2k` and `2k + 1`. */
  function Pair(bufs: seq<Buf>, k: nat, dummy: bool, info: nat): Slot
    requires 2 * k < |bufs|
  {
    var b0 := bufs[2 * k];
    var single := 2 * k == |bufs| - 1;
    var b1 := if single then Buf(0, 0, true) else bufs[2 * k + 1];
    Slot(
      Entry(b0.addr, b0.len, b1.addr, b1.len, b0.skipUnmap || (dummy && k == 0), b1.skipUnmap, if dummy && k == 0 then Dummy else NoTxwi, None),
      Desc(b0.addr, b0.len % LEN_FIELD, single, b1.addr, b1.len % LEN_FIELD, 2 * k == |bufs| - 2, info))
  }

  function Pairs(bufs: seq<Buf>, n: nat, dummy: bool, info: nat): (s: seq<Slot>)
    requires n <= Slots(|bufs|)
    ensures |s| == n
  {
    seq(n, k requires 0 <= k < n => Pair(bufs, k, dummy, info))
  }

  /** A whole packet: its txwi and skb hang on the last entry. */
  function Packet(bufs: seq<Buf>, info: nat, skb: Option<nat>, txwi: Txwi): (s: seq<Slot>)
    requires |bufs| > 0
    ensures |s| == Slots(|bufs|)
  {
    var n := Slots(|bufs|);
    var s := Pairs(bufs, n, txwi.Txwi?, info);
    s[n - 1 := s[n - 1].(entry := s[n - 1].entry.(txwi := txwi, skb := skb))]
  }

  lemma PairsGrow(before: seq<Slot>, bufs: seq<Buf>, k: nat, dummy: bool, info: nat)
    requires k < Slots(|bufs|)
    ensures before + Pairs(bufs, k + 1, dummy, info) == (before + Pairs(bufs, k, dummy, info)) + [Pair(bufs, k, dummy, info)]
  {
    assert Pairs(bufs, k + 1, dummy, info) == Pairs(bufs, k, dummy, info) + [Pair(bufs, k, dummy, info)];
  }

  lemma FinishedPacket(before: seq<Slot>, bufs: seq<Buf>, info: nat, skb: Option<nat>, txwi: Txwi)
    requires |bufs| > 0
    ensures var s := before + Pairs(bufs, Slots(|bufs|), txwi.Txwi?, info);
            var p := s[|s| - 1];
            s[|s| - 1 := p.(entry := p.entry.(txwi := txwi, skb := skb))] == before + Packet(bufs, info, skb, txwi)
  {
    hide Pair;
  }

  /** The slot `k` places after `tail`. */
  function Idx(tail: nat, k: nat, ndesc: nat): (i: nat)
    ensures tail < ndesc && k <= ndesc ==> i < ndesc
  {
    if tail + k < ndesc then tail + k else tail + k - ndesc
  }

  lemma NextSlot(t: nat, ndesc: nat)
    requires t < ndesc
    ensures (t + 1) % ndesc == if t + 1 == ndesc then 0 else t + 1
  {
  }

  lemma NextIdx(tail: nat, k: nat, ndesc: nat)
    requires tail < ndesc && k < ndesc
    ensures (Idx(tail, k, ndesc) + 1) % ndesc == if k + 1 == ndesc then tail else Idx(tail, k + 1, ndesc)
  {
    NextSlot(Idx(tail, k, ndesc), ndesc);
  }

  lemma IdxShift(tail: nat, k: nat, ndesc: nat)
    requires tail < ndesc && 0 < k <= ndesc
    ensures Idx((tail + 1) % ndesc, k - 1, ndesc) == if k == ndesc then tail else Idx(tail, k, ndesc)
  {
    NextSlot(tail, ndesc);
  }

  /** Unmaps done for one entry, in the order of the code. */
  function Unmaps(e: Entry): seq<(nat, nat)> {
    (if e.skip0 then [] else [(e.addr0, e.len0)]) + (if e.skip1 then [] else [(e.addr1, e.len1)])
  }

  function AllUnmaps(ss: seq<Slot>): seq<(nat, nat)> {
    if ss == [] then [] else AllUnmaps(ss[..|ss| - 1]) + Unmaps(ss[|ss| - 1].entry)
  }

  /** A queued packet, as its sender gave it. */
  datatype Queued = Queued(bufs: seq<Buf>, info: nat, skb: Option<nat>, txwi: Txwi)

  ghost predicate NoneEmpty(ps: seq<Queued>) {
    forall i :: 0 <= i < |ps| ==> |ps[i].bufs| > 0
  }

  function SlotsOf(ps: seq<Queued>): seq<Slot>
    requires NoneEmpty(ps)
  {
    if ps == [] then [] else Packet(ps[0].bufs, ps[0].info, ps[0].skb, ps[0].txwi) + SlotsOf(ps[1..])
  }

  /** The queued slots `pending` are those of the packets `ps`, without the first `taken` slots of the oldest. */
  ghost predicate IsSuffix(ps: seq<Queued>, taken: nat, pending: seq<Slot>) {
    && NoneEmpty(ps) && (if ps == [] then taken == 0 else taken < Slots(|ps[0].bufs|))
    && taken <= |SlotsOf(ps)| && pending == SlotsOf(ps)[taken..]
  }

  lemma {:induction false} SlotsOfMore(ps: seq<Queued>, q: Queued)
    requires NoneEmpty(ps) && |q.bufs| > 0
    ensures NoneEmpty(ps + [q]) && SlotsOf(ps + [q]) == SlotsOf(ps) + Packet(q.bufs, q.info, q.skb, q.txwi)
    decreases |ps|
  {
    var one := Packet(q.bufs, q.info, q.skb, q.txwi);
    hide Packet;
    if ps == [] {
      assert ([] + [q])[1..] == [] && one + [] == one && [] + one == one && [] + [q] == [q];
    } else {
      assert (ps + [q])[1..] == ps[1..] + [q];
      SlotsOfMore(ps[1..], q);
      Assoc(Packet(ps[0].bufs, ps[0].info, ps[0].skb, ps[0].txwi), SlotsOf(ps[1..]), one);
    }
  }

  lemma SuffixAdd(ps: seq<Queued>, taken: nat, pending: seq<Slot>, q: Queued)
    requires IsSuffix(ps, taken, pending) && |q.bufs| > 0
    ensures IsSuffix(ps + [q], taken, pending + Packet(q.bufs, q.info, q.skb, q.txwi))
  {
    SlotsOfMore(ps, q);
    hide Packet, SlotsOf;
  }

  /** The packets, and the slots taken of the oldest, once one slot more has been taken. */
  function TakeSlot(ps: seq<Queued>, taken: nat): (seq<Queued>, nat) {
    if ps == [] then (ps, taken)
    else if taken + 1 == Slots(|ps[0].bufs|) then (ps[1..], 0)
    else (ps, taken + 1)
  }

  lemma SuffixDrop(ps: seq<Queued>, taken: nat, pending: seq<Slot>)
    requires IsSuffix(ps, taken, pending) && pending != []
    ensures var (ps', taken') := TakeSlot(ps, taken); IsSuffix(ps', taken', pending[1..])
  {
    var all := SlotsOf(ps);
    assert pending[1..] == all[taken + 1..];
    assert taken + 1 == Slots(|ps[0].bufs|) ==> all[taken + 1..] == SlotsOf(ps[1..]);
    hide Packet;
  }

  /** How far the hardware gets before look `k`. */
  function Nth(progress: seq<nat>, k: nat): nat {
    if k < |progress| then progress[k] else 0
  }

  class TxQueue {
    const ndesc: nat
    const entry: array<Entry>
    const desc: array<Desc>
    var head: nat
    var tail: nat
    var queued: nat
    /** The registers `cpu_idx` and `dma_idx`. */
    var cpuIdx: nat
    var dmaIdx: nat
    /** The queued slots, oldest first, and whether the oldest entry is cleared while `tail` still points at it. */
    ghost var pending: seq<Slot>
    ghost var cleared: bool
    /** How many of the queued slots were shown to the hardware, and how many it is done with. */
    ghost var kicked: nat
    ghost var done: nat
    /** The packets these slots belong to, and how many slots of the oldest have been completed. */
    ghost var packets: seq<Queued>
    ghost var taken: nat

    ghost predicate Valid()
      reads this, entry, desc
    {
      && entry.Length == desc.Length == ndesc && 2 <= ndesc
      && tail < ndesc && queued == |pending| <= ndesc - 2
      && head == Idx(tail, queued, ndesc)
      && (cleared ==> queued > 0 && entry[tail] == CLEARED)
      && (forall k :: 0 <= k < queued && (k > 0 || !cleared) ==> entry[Idx(tail, k, ndesc)] == pending[k].entry)
      && (forall k :: 0 <= k < queued ==> desc[Idx(tail, k, ndesc)] == pending[k].desc)
      && (forall k :: queued <= k < ndesc ==> entry[Idx(tail, k, ndesc)] == CLEARED)
    }

    /** The hardware works between the tail and the last kick. */
    ghost predicate HwValid()
      reads this
    {
      && done <= kicked <= queued && (cleared ==> done > 0)
      && dmaIdx == Idx(tail, done, ndesc) && cpuIdx == Idx(tail, kicked, ndesc)
    }

    /** The queued slots are whole packets but for the oldest, which may have been completed in part. */
    ghost predicate PacketsMatch()
      reads this
    {
      IsSuffix(packets, taken, pending)
    }

    constructor (ndesc: nat)
      requires 2 <= ndesc
      ensures Valid() && HwValid() && PacketsMatch() && fresh(entry) && fresh(desc) && this.ndesc == ndesc
      ensures pending == [] && !cleared
    {
      this.ndesc := ndesc;
      entry := new Entry[ndesc](_ => CLEARED);
      desc := new Desc[ndesc](_ => DONE);
      head, tail, queued, cpuIdx, dmaIdx := 0, 0, 0, 0, 0;
      pending, kicked, done, cleared, packets, taken := [], 0, 0, false, [], 0;
    }

    /** Writes one descriptor and its entry at the head. */
    method Push(slot: Slot)
      requires Valid() && queued < ndesc - 2
      modifies this`head, this`queued, this`pending, entry, desc
      ensures Valid() && pending == old(pending) + [slot] && queued == old(queued) + 1
    {
      NextIdx(tail, queued, ndesc);
      entry[head], desc[head] := slot.entry, slot.desc;
      head := (head + 1) % ndesc;
      queued := queued + 1;
      pending := pending + [slot];
    }

    /** The entry and descriptor of one turn of the loop of `mt76_dma_add_buf`. */
    method BuildPair(bufs: seq<Buf>, k: nat, dummy: bool, info: nat) returns (slot: Slot)
      requires Valid() && 2 * k < |bufs|
      ensures slot == Pair(bufs, k, dummy, info)
    {
      assert entry[head] == entry[Idx(tail, queued, ndesc)] == CLEARED;
      var e := entry[head];
      var i, nbufs := 2 * k, |bufs|;
      if dummy && k == 0 {
        e := e.(txwi := Dummy, skip0 := true);
      }
      if bufs[i].skipUnmap {
        e := e.(skip0 := true);
      }
      e := e.(skip1 := i == nbufs - 1, addr0 := bufs[i].addr, len0 := bufs[i].len);
      var d := Desc(bufs[i].addr, bufs[i].len % LEN_FIELD, false, 0, 0, false, info);
      if i < nbufs - 1 {
        e := e.(addr1 := bufs[i + 1].addr, len1 := bufs[i + 1].len);
        d := d.(buf1 := bufs[i + 1].addr, len1 := bufs[i + 1].len % LEN_FIELD);
        if bufs[i + 1].skipUnmap {
          e := e.(skip1 := true);
        }
      }
      if i == nbufs - 1 {
        d := d.(last0 := true);
      } else if i == nbufs - 2 {
        d := d.(last1 := true);
      }
      slot := Slot(e, d);
    }

    /** Hangs the txwi and the skb on the newest entry. */
    method Finish(skb: Option<nat>, txwi: Txwi)
      requires Valid() && queued > 0 && !(queued == 1 && cleared)
      modifies this`pending, entry
      ensures Valid() && |old(pending)| == queued
      ensures var p := old(pending)[queued - 1];
              pending == old(pending)[queued - 1 := p.(entry := p.entry.(txwi := txwi, skb := skb))]
    {
      var idx := if head == 0 then ndesc - 1 else head - 1;
      assert idx == Idx(tail, queued - 1, ndesc);
      entry[idx] := entry[idx].(txwi := txwi, skb := skb);
      var p := pending[queued - 1];
      pending := pending[queued - 1 := p.(entry := entry[idx])];
    }

    /** The loop of `mt76_dma_add_buf`. */
    method AddPairs(bufs: seq<Buf>, dummy: bool, info: nat)
      requires Valid() && queued + Slots(|bufs|) <= ndesc - 2
      modifies this`head, this`queued, this`pending, entry, desc
      ensures Valid() && queued == old(queued) + Slots(|bufs|)
      ensures pending == old(pending) + Pairs(bufs, Slots(|bufs|), dummy, info)
    {
      var n, k := Slots(|bufs|), 0;
      assert pending + Pairs(bufs, 0, dummy, info) == pending;
      hide Pair, Pairs, Valid;
      while k < n
        invariant 0 <= k <= n && Valid() && queued == old(queued) + k
        invariant pending == old(pending) + Pairs(bufs, k, dummy, info)
      {
        var slot := BuildPair(bufs, k, dummy, info);
        Push(slot);
        PairsGrow(old(pending), bufs, k, dummy, info);
        k := k + 1;
      }
    }

    /** The loop, and the txwi and skb on its last entry. */
    method WritePacket(bufs: seq<Buf>, info: nat, skb: Option<nat>, txwi: Txwi)
      requires Valid() && |bufs| > 0 && queued + Slots(|bufs|) <= ndesc - 2
      modifies this`head, this`queued, this`pending, entry, desc
      ensures Valid() && pending == old(pending) + Packet(bufs, info, skb, txwi)
      ensures queued == old(queued) + Slots(|bufs|)
    {
      assert cleared ==> queued > 0;
      FinishedPacket(pending, bufs, info, skb, txwi);
      AddPairs(bufs, txwi.Txwi?, info);
      hide Pair, Pairs, Packet, Valid;
      Finish(skb, txwi);
    }

    /** `mt76_dma_add_buf`: the callers have checked that the slots are free. */
    method AddBuf(bufs: seq<Buf>, info: nat, skb: Option<nat>, txwi: Txwi)
      requires Valid() && |bufs| > 0 && queued + Slots(|bufs|) <= ndesc - 2
      modifies this`head, this`queued, this`pending, this`packets, entry, desc
      ensures Valid() && pending == old(pending) + Packet(bufs, info, skb, txwi)
      ensures queued == old(queued) + Slots(|bufs|)
      ensures old(HwValid()) ==> HwValid()
      ensures old(PacketsMatch()) ==> PacketsMatch() && packets == old(packets) + [Queued(bufs, info, skb, txwi)]
    {
      if PacketsMatch() {
        SuffixAdd(packets, taken, pending, Queued(bufs, info, skb, txwi));
      }
      hide Packet, Valid, IsSuffix, Idx, Slots;
      WritePacket(bufs, info, skb, txwi);
      packets := packets + [Queued(bufs, info, skb, txwi)];
    }

    /** `mt76_dma_kick_queue`. */
    method Kick()
      requires Valid() && HwValid()
      modifies this`cpuIdx, this`kicked
      ensures Valid() && HwValid() && kicked == queued
    {
      cpuIdx := head;
      kicked := queued;
    }

    /** The hardware finishes `n` more descriptors. */
    method HardwareProgress(n: nat)
      requires Valid() && HwValid() && done + n <= kicked
      modifies this`dmaIdx, this`done
      ensures Valid() && HwValid() && done == old(done) + n
    {
      dmaIdx := Idx(dmaIdx, n, ndesc);
      done := done + n;
    }

    /** `mt76_dma_tx_cleanup_idx` at the tail: `unmaps` are its calls of `dma_unmap_single`. */
    method CleanupIdx() returns (prev: Entry, unmaps: seq<(nat, nat)>)
      requires Valid() && queued > 0 && !cleared
      modifies this`cleared, entry
      ensures Valid() && cleared
      ensures unmaps == Unmaps(pending[0].entry)
      ensures old(HwValid()) && done > 0 ==> HwValid()
      ensures prev == Complete(pending[0].entry)
    {
      assert Idx(tail, 0, ndesc) == tail;
      var e := entry[tail];
      unmaps := [];
      if !e.skip0 {
        unmaps := unmaps + [(e.addr0, e.len0)];
      }
      if !e.skip1 {
        unmaps := unmaps + [(e.addr1, e.len1)];
      }
      if e.txwi == Dummy {
        e := e.(txwi := NoTxwi);
      }
      prev := e;
      entry[tail] := CLEARED;
      cleared := true;
    }

    /** The critical section of `mt76_queue_tx_complete`. */
    method AdvanceTail()
      requires Valid() && cleared
      modifies this`tail, this`queued, this`pending, this`cleared, this`kicked, this`done, this`packets, this`taken
      ensures Valid() && !cleared && pending == old(pending)[1..] && queued == old(queued) - 1
      ensures old(HwValid()) ==> HwValid() && done == old(done) - 1 && kicked == old(kicked) - 1
      ensures old(PacketsMatch()) ==> PacketsMatch()
    {
      hide IsSuffix;
      ghost var d, c := done, kicked;
      if HwValid() {
        IdxShift(tail, done, ndesc);
        IdxShift(tail, kicked, ndesc);
      }
      kicked, done := if c > 0 then c - 1 else 0, if d > 0 then d - 1 else 0;
      DropOldest();
    }

    method DropOldest()
      requires Valid() && cleared
      modifies this`tail, this`queued, this`pending, this`cleared, this`packets, this`taken
      ensures Valid() && !cleared && pending == old(pending)[1..]
      ensures tail == (old(tail) + 1) % ndesc && queued == old(queued) - 1
      ensures old(PacketsMatch()) ==> PacketsMatch()
    {
      ghost var t := tail;
      if PacketsMatch() {
        SuffixDrop(packets, taken, pending);
      }
      hide IsSuffix;
      assert tail == Idx(tail, 0, ndesc);
      forall k | 0 < k <= ndesc ensures Idx((t + 1) % ndesc, k - 1, ndesc) == if k == ndesc then t else Idx(t, k, ndesc) {
        IdxShift(t, k, ndesc);
      }
      hide Idx;
      tail := (tail + 1) % ndesc;
      queued := queued - 1;
      pending, cleared := pending[1..], false;
      packets, taken := TakeSlot(packets, taken).0, TakeSlot(packets, taken).1;
      hide TakeSlot;
      forall k | queued <= k < ndesc ensures entry[Idx(tail, k, ndesc)] == CLEARED {
        assert Idx(tail, k + 1 - 1, ndesc) == if k + 1 == ndesc then t else Idx(t, k + 1, ndesc);
      }
      forall k | 0 <= k < queued ensures entry[Idx(tail, k, ndesc)] == pending[k].entry && desc[Idx(tail, k, ndesc)] == pending[k].desc {
        assert Idx(tail, k + 1 - 1, ndesc) == Idx(t, k + 1, ndesc);
      }
    }

    /** Tail and hardware index meet only when the hardware has finished nothing more: a full ring is never
        mistaken for an empty one. */
    lemma MeetIffNothingDone()
      requires Valid() && HwValid()
      ensures tail == dmaIdx <==> done == 0
      ensures queued == 0 ==> done == 0
      ensures queued == |pending|
    {
    }

    /** One turn of the cleanup loop. */
    method CompleteOldest(completed: seq<Entry>, unmaps: seq<(nat, nat)>, ghost all: seq<Slot>, ghost gone: seq<Slot>)
        returns (completed': seq<Entry>, unmaps': seq<(nat, nat)>, ghost gone': seq<Slot>)
      requires Valid() && queued > 0 && !cleared && CleanedUp(all, gone, pending, completed, unmaps)
      modifies this`tail, this`queued, this`pending, this`cleared, this`kicked, this`done, this`packets, this`taken, entry
      ensures Valid() && !cleared && queued == old(queued) - 1
      ensures old(PacketsMatch()) ==> PacketsMatch()
      ensures CleanedUp(all, gone', pending, completed', unmaps') && |gone'| == |gone| + 1
      ensures old(HwValid()) && old(done) > 0 ==> HwValid() && kicked == old(kicked) - 1
    {
      ghost var p := pending;
      CleanedUpMore(all, gone, p, completed, unmaps);
      gone' := gone + [p[0]];
      assert HwValid() && done > 0 ==> 0 < done <= kicked;
      hide *;
      var e, us := CleanupIdx();
      AdvanceTail();
      completed', unmaps' := completed + [e], unmaps + us;
    }

    /** Reads `dma_idx`, which the hardware may have advanced by up to `n` since the last look. */
    method ReadDmaIdx(n: nat) returns (idx: nat)
      requires Valid() && HwValid()
      modifies this`dmaIdx, this`done
      ensures Valid() && HwValid() && idx == dmaIdx && done >= old(done)
    {
      var left := if cpuIdx >= dmaIdx then cpuIdx - dmaIdx else cpuIdx + ndesc - dmaIdx;
      HardwareProgress(if n <= left then n else left);
      idx := dmaIdx;
    }

    /** `mt76_dma_tx_cleanup` without flush; `progress` says how far the hardware has got at each look at `dma_idx`.
        The slots `gone` are completed in queue order, and exactly those the hardware is done with. */
    method TxCleanup(progress: seq<nat>)
        returns (completed: seq<Entry>, unmaps: seq<(nat, nat)>, ghost gone: seq<Slot>)
      requires Valid() && HwValid() && !cleared
      modifies this`tail, this`queued, this`pending, this`cleared, this`kicked, this`done, this`dmaIdx, this`packets, this`taken, entry
      ensures Valid() && HwValid() && !cleared && done == 0 && kicked == old(kicked) - |gone|
      ensures old(PacketsMatch()) ==> PacketsMatch()
      ensures CleanedUp(old(pending), gone, pending, completed, unmaps)
    {
      completed, unmaps, gone := [], [], [];
      var looks := 0;
      var last := ReadDmaIdx(Nth(progress, 0));
      CleanedUpNothing(pending);
      hide *;
      ghost var all := old(pending);
      while queued > 0 && tail != last
        invariant Valid() && HwValid() && !cleared && last == dmaIdx && kicked == old(kicked) - |gone|
        invariant old(PacketsMatch()) ==> PacketsMatch()
        invariant CleanedUp(all, gone, pending, completed, unmaps)
        decreases queued
      {
        MeetIffNothingDone();
        completed, unmaps, gone := CompleteOldest(completed, unmaps, all, gone);
        if tail == last {
          looks := looks + 1;
          last := ReadDmaIdx(Nth(progress, looks));
        }
      }
      MeetIffNothingDone();
    }

    /** `mt76_dma_tx_cleanup` with flush, while the queue is stopped: everything is completed and the ring is empty
        where the hardware stands. */
    method Flush() returns (completed: seq<Entry>, unmaps: seq<(nat, nat)>)
      requires Valid() && HwValid() && !cleared
      modifies this, entry
      ensures Valid() && HwValid() && !cleared && pending == [] && tail == old(dmaIdx)
      ensures completed == Completed(old(pending)) && unmaps == AllUnmaps(old(pending))
      ensures old(PacketsMatch()) ==> PacketsMatch()
    {
      completed, unmaps := [], [];
      ghost var gone: seq<Slot> := [];
      assert dmaIdx < ndesc;
      CleanedUpNothing(pending);
      assert CleanedUp(old(pending), gone, pending, completed, unmaps);
      hide *;
      while queued > 0
        invariant Valid() && !cleared && dmaIdx == old(dmaIdx)
        invariant old(PacketsMatch()) ==> PacketsMatch()
        invariant CleanedUp(old(pending), gone, pending, completed, unmaps)
        decreases queued
      {
        completed, unmaps, gone := CompleteOldest(completed, unmaps, old(pending), gone);
      }
      QueuedIsPending();
      CleanedUpAll(old(pending), gone, completed, unmaps);
      SyncIdx();
    }

    lemma QueuedIsPending()
      requires Valid()
      ensures queued == |pending|
    {
    }

    /** `mt76_dma_sync_idx` and the kick, on an empty ring. */
    method SyncIdx()
      requires Valid() && pending == [] && dmaIdx < ndesc
      modifies this`head, this`tail, this`cpuIdx, this`kicked, this`done, this`cleared
      ensures Valid() && HwValid() && pending == [] && !cleared && tail == old(dmaIdx)
    {
      forall j | 0 <= j < ndesc ensures entry[j] == CLEARED {
        assert j == Idx(tail, if j >= tail then j - tail else j + ndesc - tail, ndesc);
      }
      head, tail, cpuIdx := dmaIdx, dmaIdx, dmaIdx;
      kicked, done, cleared := 0, 0, false;
    }

    /** `mt76_dma_tx_queue_skb_raw` for a mapped buffer: refused when the ring would be full. */
    method QueueRaw(addr: nat, len: nat, info: nat, skb: nat) returns (ok: bool)
      requires Valid() && HwValid()
      modifies this`head, this`queued, this`pending, this`cpuIdx, this`kicked, this`packets, entry, desc
      ensures Valid() && HwValid() && (old(PacketsMatch()) ==> PacketsMatch())
      ensures ok <==> old(queued) + 1 < ndesc - 1
      ensures pending == if ok then old(pending) + Packet([Buf(addr, len, false)], info, Some(skb), NoTxwi) else old(pending)
    {
      if queued + 1 >= ndesc - 1 {
        return false;
      }
      AddBuf([Buf(addr, len, false)], info, Some(skb), NoTxwi);
      Kick();
      ok := true;
    }

    /** The queued part of the descriptor array, as the hardware reads it from the tail on. */
    ghost function RingDescs(): (ds: seq<Desc>)
      requires Valid()
      reads this, entry, desc
    {
      seq(queued, k requires 0 <= k && Idx(tail, k, ndesc) < desc.Length reads this, desc => desc[Idx(tail, k, ndesc)])
    }

    /** In the ring itself: from the next packet boundary on, the LAST bits of the descriptor array give back the
        buffers of the packets still queued, in order. */
    lemma RingWalk()
      requires Valid() && PacketsMatch()
      ensures var (left, ps) := if taken == 0 then (0, packets) else (Slots(|packets[0].bufs|) - taken, packets[1..]);
              left <= |RingDescs()| && Walk(RingDescs()[left..], []) == FieldsOf(ps)
    {
      assert RingDescs() == Descs(pending);
      SuffixWalk(packets, taken, pending);
    }
  }

  /** The entry as it is handed to the completion. */
  function Complete(e: Entry): Entry {
    e.(txwi := if e.txwi == Dummy then NoTxwi else e.txwi)
  }

  function Completed(ss: seq<Slot>): (es: seq<Entry>)
    ensures |es| == |ss|
  {
    seq(|ss|, i requires 0 <= i < |ss| => Complete(ss[i].entry))
  }

  /** The queue was `all`; its slots `gone` have been completed and unmapped in order, `rest` is still queued. */
  ghost predicate CleanedUp(all: seq<Slot>, gone: seq<Slot>, rest: seq<Slot>, completed: seq<Entry>, unmaps: seq<(nat, nat)>) {
    all == gone + rest && completed == Completed(gone) && unmaps == AllUnmaps(gone)
  }

  lemma CleanedUpMore(
      all: seq<Slot>, gone: seq<Slot>, rest: seq<Slot>, completed: seq<Entry>, unmaps: seq<(nat, nat)>)
    requires rest != [] && CleanedUp(all, gone, rest, completed, unmaps)
    ensures var e := rest[0].entry;
            CleanedUp(all, gone + [rest[0]], rest[1..], completed + [Complete(e)], unmaps + Unmaps(e))
  {
    var slot := rest[0];
    assert rest == [slot] + rest[1..];
    Assoc(gone, [slot], rest[1..]);
    assert (gone + [slot])[..|gone|] == gone;
  }

  lemma CleanedUpNothing(all: seq<Slot>)
    ensures CleanedUp(all, [], all, [], [])
  {
  }

  lemma CleanedUpAll(all: seq<Slot>, gone: seq<Slot>, completed: seq<Entry>, unmaps: seq<(nat, nat)>)
    requires CleanedUp(all, gone, [], completed, unmaps)
    ensures completed == Completed(all) && unmaps == AllUnmaps(all)
  {
    assert all == gone;
  }

  // ---- what the hardware reads ----

  function Descs(ss: seq<Slot>): (ds: seq<Desc>)
    ensures |ds| == |ss|
  {
    seq(|ss|, i requires 0 <= i < |ss| => ss[i].desc)
  }

  /** Follows the LAST bits: the buffers of the open packet are in `open`. */
  function Walk(ds: seq<Desc>, open: seq<(nat, nat)>): seq<seq<(nat, nat)>> {
    if ds == [] then
      []
    else
      var d := ds[0];
      var one := open + [(d.buf0, d.len0)];
      var two := one + [(d.buf1, d.len1)];
      if d.last0 then [one] + Walk(ds[1..], [])
      else if d.last1 then [two] + Walk(ds[1..], [])
      else Walk(ds[1..], two)
  }

  /** The buffers as the descriptors can express them. */
  function Fields(bufs: seq<Buf>): (fs: seq<(nat, nat)>)
    ensures |fs| == |bufs|
  {
    seq(|bufs|, i requires 0 <= i < |bufs| => (bufs[i].addr, bufs[i].len % LEN_FIELD))
  }

  lemma {:induction false} WalkPairs(bufs: seq<Buf>, k: nat, ds: seq<Desc>, rest: seq<Desc>, dummy: bool, info: nat)
    requires 2 * k < |bufs| && |ds| == Slots(|bufs|) - k
    requires forall i :: 0 <= i < |ds| ==> ds[i] == Pair(bufs, k + i, dummy, info).desc
    ensures Walk(ds + rest, Fields(bufs)[..2 * k]) == [Fields(bufs)] + Walk(rest, [])
    decreases |bufs| - 2 * k
  {
    var fs := Fields(bufs);
    var all := ds + rest;
    assert all[0] == ds[0] && all[1..] == ds[1..] + rest;
    if 2 * k == |bufs| - 1 {
      assert fs[..2 * k] + [fs[2 * k]] == fs;
      assert all[1..] == rest;
    } else {
      assert fs[..2 * k] + [fs[2 * k]] + [fs[2 * k + 1]] == fs[..2 * k + 2];
      if 2 * k == |bufs| - 2 {
        assert all[1..] == rest && fs[..2 * k + 2] == fs;
      } else {
        WalkPairs(bufs, k + 1, ds[1..], rest, dummy, info);
      }
    }
  }

  /** The LAST bits cut the queue into its packets: each one's buffer list comes back. */
  lemma WalkRecovers(bufs: seq<Buf>, info: nat, skb: Option<nat>, txwi: Txwi, rest: seq<Slot>)
    requires |bufs| > 0
    ensures Walk(Descs(Packet(bufs, info, skb, txwi) + rest), []) == [Fields(bufs)] + Walk(Descs(rest), [])
  {
    var p := Packet(bufs, info, skb, txwi);
    assert Descs(p + rest) == Descs(p) + Descs(rest);
    assert Fields(bufs)[..0] == [];
    WalkPairs(bufs, 0, Descs(p), Descs(rest), txwi.Txwi?, info);
  }

  function FieldsOf(ps: seq<Queued>): (fs: seq<seq<(nat, nat)>>)
    ensures |fs| == |ps|
  {
    seq(|ps|, i requires 0 <= i < |ps| => Fields(ps[i].bufs))
  }

  /** The hardware finds every packet of the queue, in order and with its own buffers. */
  lemma {:induction false} WalkRecoversQueue(ps: seq<Queued>)
    requires NoneEmpty(ps)
    ensures Walk(Descs(SlotsOf(ps)), []) == FieldsOf(ps)
    decreases |ps|
  {
    if ps == [] {
      assert Descs([]) == [];
    } else {
      var p := ps[0];
      WalkRecoversQueue(ps[1..]);
      WalkRecovers(p.bufs, p.info, p.skb, p.txwi, SlotsOf(ps[1..]));
      assert FieldsOf(ps) == [Fields(p.bufs)] + FieldsOf(ps[1..]);
    }
  }

  lemma SuffixWalk(ps: seq<Queued>, taken: nat, pending: seq<Slot>)
    requires IsSuffix(ps, taken, pending)
    ensures var (left, rest) := if taken == 0 then (0, ps) else (Slots(|ps[0].bufs|) - taken, ps[1..]);
            left <= |pending| && Walk(Descs(pending)[left..], []) == FieldsOf(rest)
  {
    if taken == 0 {
      assert pending == SlotsOf(ps) && Descs(pending)[0..] == Descs(pending);
      WalkRecoversQueue(ps);
    } else {
      var n := Slots(|ps[0].bufs|);
      assert pending[n - taken..] == SlotsOf(ps[1..]);
      assert Descs(pending)[n - taken..] == Descs(pending[n - taken..]);
      WalkRecoversQueue(ps[1..]);
    }
    hide Packet, Walk;
  }
}
