/** A receive ring of dma.c (without offload): page buffers are posted at the head, taken at the tail, and become frames
    of one or more buffers. What the hardware has written into a finished descriptor is the input of a step. */
module RxRing {
  import opened Basics
  import opened TxRing

  /** A finished descriptor, and what the later checks say about it: the driver's `rx_check` and `napi_build_skb`. */
  datatype Look = Look(len: nat, more: bool, drop: bool, accepted: bool, built: bool)

  /** A buffer taken off the ring. `packet` numbers the hardware's packets: a buffer without `more` ends one. */
  datatype Item = Item(buf: nat, packet: nat, look: Look)

  /** `headSize` is the room of a first buffer, `bufSize` that of a fragment. */
  datatype Config = Config(bufSize: nat, headSize: nat, offset: nat, maxFrags: nat)

  /** The frame being collected (`rx_head`), the frames handed to the driver, the buffers given back to the pool,
      and the frames counted against the budget. */
  datatype Rx = Rx(head: Option<seq<Item>>, delivered: seq<seq<Item>>, freed: seq<Item>, done: nat)

  predicate TooLong(c: Config, r: Rx, x: Item) {
    (if r.head.Some? then c.bufSize else c.headSize) < x.look.len + c.offset
  }

  function HeadItems(r: Rx): seq<Item> {
    if r.head.Some? then r.head.value else []
  }

  /** `mt76_add_fragment`. */
  function AddFragment(c: Config, r: Rx, x: Item): Rx
    requires r.head.Some?
  {
    var h := r.head.value;
    if |h| <= c.maxFrags then
      if x.look.more then r.(head := Some(h + [x])) else r.(head := None, delivered := r.delivered + [h + [x]])
    else
      if x.look.more then r.(freed := r.freed + [x]) else r.(head := None, freed := r.freed + [x] + h)
  }

  /** One turn of the loop of `mt76_dma_rx_process`, for the buffer just taken off the ring. */
  function Handle(c: Config, r: Rx, x: Item): Rx {
    if x.look.drop then r.(freed := r.freed + [x])
    else if TooLong(c, r, x) then r.(head := None, freed := r.freed + HeadItems(r) + [x])
    else if r.head.Some? then AddFragment(c, r, x)
    else if (!x.look.more && !x.look.accepted) || !x.look.built then r.(freed := r.freed + [x])
    else if x.look.more then r.(head := Some([x]), done := r.done + 1)
    else r.(delivered := r.delivered + [[x]], done := r.done + 1)
  }

  /** The loop: `pending` is the ring, `looks` the descriptors found finished, `packet` the number of the next one. */
  function Process(c: Config, r: Rx, pending: seq<nat>, looks: seq<Look>, packet: nat, budget: nat): (Rx, seq<nat>, nat)
    decreases |pending|
  {
    if r.done >= budget || pending == [] || looks == [] then
      (r, pending, packet)
    else
      var x := Item(pending[0], packet, looks[0]);
      Process(c, Handle(c, r, x), pending[1..], looks[1..], if looks[0].more then packet else packet + 1, budget)
  }

  // ---- no buffer is lost or used twice ----

  function Times(xs: seq<Item>, b: nat): nat {
    if xs == [] then 0 else Times(xs[..|xs| - 1], b) + if xs[|xs| - 1].buf == b then 1 else 0
  }

  function FrameTimes(fs: seq<seq<Item>>, b: nat): nat {
    if fs == [] then 0 else FrameTimes(fs[..|fs| - 1], b) + Times(fs[|fs| - 1], b)
  }

  function PendingTimes(bs: seq<nat>, b: nat): nat {
    if bs == [] then 0 else (if bs[0] == b then 1 else 0) + PendingTimes(bs[1..], b)
  }

  /** How often buffer `b` occurs in the frame being collected, the delivered frames and the freed buffers. */
  function Held(r: Rx, b: nat): nat {
    Times(HeadItems(r), b) + FrameTimes(r.delivered, b) + Times(r.freed, b)
  }

  lemma {:induction false} TimesConcat(xs: seq<Item>, ys: seq<Item>, b: nat)
    ensures Times(xs + ys, b) == Times(xs, b) + Times(ys, b)
    decreases |ys|
  {
    if ys == [] {
      assert xs + ys == xs;
    } else {
      assert (xs + ys)[..|xs| + |ys| - 1] == xs + ys[..|ys| - 1];
      TimesConcat(xs, ys[..|ys| - 1], b);
    }
  }

  lemma TimesMore(xs: seq<Item>, x: Item, b: nat)
    ensures Times(xs + [x], b) == Times(xs, b) + if x.buf == b then 1 else 0
  {
    assert (xs + [x])[..|xs|] == xs;
  }

  lemma FrameTimesMore(fs: seq<seq<Item>>, f: seq<Item>, b: nat)
    ensures FrameTimes(fs + [f], b) == FrameTimes(fs, b) + Times(f, b)
  {
    assert (fs + [f])[..|fs|] == fs;
  }

  lemma FragmentConserves(c: Config, r: Rx, x: Item, b: nat)
    requires r.head.Some?
    ensures Held(AddFragment(c, r, x), b) == Held(r, b) + if x.buf == b then 1 else 0
  {
    var h := r.head.value;
    assert Times([], b) == 0;
    hide Times, FrameTimes;
    if |h| <= c.maxFrags {
      TimesMore(h, x, b);
      FrameTimesMore(r.delivered, h + [x], b);
    } else {
      TimesMore(r.freed, x, b);
      TimesConcat(r.freed + [x], h, b);
    }
  }

  /** Whatever happens to a buffer, it ends up in exactly one place. */
  lemma HandleConserves(c: Config, r: Rx, x: Item, b: nat)
    ensures Held(Handle(c, r, x), b) == Held(r, b) + if x.buf == b then 1 else 0
  {
    TimesMore(r.freed, x, b);
    TimesMore([], x, b);
    assert [] + [x] == [x] && Times([], b) == 0;
    FrameTimesMore(r.delivered, [x], b);
    if !x.look.drop && TooLong(c, r, x) {
      TimesConcat(r.freed, HeadItems(r), b);
      TimesMore(r.freed + HeadItems(r), x, b);
    } else if r.head.Some? {
      FragmentConserves(c, r, x, b);
    }
    hide Times, FrameTimes, AddFragment;
  }

  lemma {:induction false} ProcessConserves(c: Config, r: Rx, pending: seq<nat>, looks: seq<Look>, packet: nat, budget: nat, b: nat)
    ensures var (r', pending', n) := Process(c, r, pending, looks, packet, budget);
            Held(r', b) + PendingTimes(pending', b) == Held(r, b) + PendingTimes(pending, b)
    decreases |pending|
  {
    if r.done < budget && pending != [] && looks != [] {
      var x := Item(pending[0], packet, looks[0]);
      HandleConserves(c, r, x, b);
      hide Handle, Held;
      ProcessConserves(c, Handle(c, r, x), pending[1..], looks[1..], if looks[0].more then packet else packet + 1, budget, b);
    }
  }

  /** Buffers leave the ring in the order they were posted, and only frames that were started count: at most the budget. */
  lemma {:induction false} ProcessTakesInOrder(c: Config, r: Rx, pending: seq<nat>, looks: seq<Look>, packet: nat, budget: nat)
    ensures var (r', pending', n) := Process(c, r, pending, looks, packet, budget);
            && |pending'| <= |pending| && pending' == pending[|pending| - |pending'|..]
            && r.done <= r'.done && (r.done <= budget ==> r'.done <= budget)
            && (r'.done < budget ==> |pending| - |pending'| == if |looks| < |pending| then |looks| else |pending|)
    decreases |pending|
  {
    if r.done < budget && pending != [] && looks != [] {
      var x := Item(pending[0], packet, looks[0]);
      assert Handle(c, r, x).done <= r.done + 1;
      hide Handle;
      ProcessTakesInOrder(c, Handle(c, r, x), pending[1..], looks[1..], if looks[0].more then packet else packet + 1, budget);
    }
  }

  // ---- the ring ----

  class RxQueue {
    const ndesc: nat
    const config: Config
    const entry: array<Option<nat>>
    var head: nat
    var tail: nat
    var queued: nat
    var rxHead: Option<seq<Item>>
    /** Frames handed to the driver and buffers given back to the pool, and the number of the current packet. */
    var delivered: seq<seq<Item>>
    var freed: seq<Item>
    var packet: nat
    /** The posted buffers, oldest first. */
    ghost var pending: seq<nat>

    ghost predicate Valid()
      reads this, entry
    {
      && entry.Length == ndesc && 2 <= ndesc
      && tail < ndesc && queued == |pending| <= ndesc - 1
      && head == Idx(tail, queued, ndesc)
      && (forall k :: 0 <= k < queued ==> entry[Idx(tail, k, ndesc)] == Some(pending[k]))
    }

    ghost function State(done: nat): Rx
      reads this
    {
      Rx(rxHead, delivered, freed, done)
    }

    /** How often a buffer is on the ring, in a frame, or free again. */
    ghost function Owned(b: nat): nat
      reads this
    {
      Held(State(0), b) + PendingTimes(pending, b)
    }

    constructor (ndesc: nat, config: Config)
      requires 2 <= ndesc
      ensures Valid() && pending == [] && rxHead == None && delivered == [] && freed == [] && fresh(entry)
    {
      this.ndesc, this.config := ndesc, config;
      entry := new Option<nat>[ndesc](_ => None);
      head, tail, queued, packet := 0, 0, 0, 0;
      rxHead, delivered, freed, pending := None, [], [], [];
    }

    /** `mt76_dma_add_rx_buf`. */
    method AddRxBuf(buf: nat)
      requires Valid() && queued < ndesc - 1
      modifies this`head, this`queued, this`pending, entry
      ensures Valid() && pending == old(pending) + [buf] && queued == old(queued) + 1
    {
      NextIdx(tail, queued, ndesc);
      entry[head] := Some(buf);
      head := (head + 1) % ndesc;
      queued := queued + 1;
      pending := pending + [buf];
    }

    /** `mt76_dma_rx_fill_buf`: `pool` are the buffers the page pool can give before it runs out. */
    method RxFill(pool: seq<nat>) returns (frames: nat)
      requires Valid()
      modifies this`head, this`queued, this`pending, entry
      ensures Valid() && frames <= |pool| && pending == old(pending) + pool[..frames]
      ensures queued == ndesc - 1 || frames == |pool|
    {
      frames := 0;
      hide Idx;
      while queued < ndesc - 1
        invariant Valid() && frames <= |pool| && pending == old(pending) + pool[..frames]
        decreases ndesc - queued
      {
        if frames == |pool| {
          break;
        }
        AddRxBuf(pool[frames]);
        assert pool[..frames + 1] == pool[..frames] + [pool[frames]];
        frames := frames + 1;
      }
    }

    /** `mt76_dma_dequeue`, when the descriptor at the tail is finished or the ring is being flushed. */
    method Dequeue() returns (buf: nat)
      requires Valid() && queued > 0
      modifies this`tail, this`queued, this`pending, entry
      ensures Valid() && old(pending) != [] && buf == old(pending)[0] && pending == old(pending)[1..]
      ensures queued == old(queued) - 1
    {
      ghost var t := tail;
      assert Idx(tail, 0, ndesc) == tail;
      forall k | 0 < k <= ndesc ensures Idx((t + 1) % ndesc, k - 1, ndesc) == if k == ndesc then t else Idx(t, k, ndesc) {
        IdxShift(t, k, ndesc);
      }
      assert forall k :: 0 < k < queued ==> Idx(tail, k, ndesc) != tail;
      buf := entry[tail].value;
      entry[tail] := None;
      hide Idx;
      tail := (tail + 1) % ndesc;
      queued := queued - 1;
      pending := pending[1..];
      forall k | 0 <= k < queued ensures entry[Idx(tail, k, ndesc)] == Some(pending[k]) {
        assert Idx(tail, k + 1 - 1, ndesc) == Idx(t, k + 1, ndesc);
      }
    }

    /** The body of the loop of `mt76_dma_rx_process`, for the buffer just dequeued; `done'` counts a new frame. */
    method HandleBuf(x: Item, done: nat) returns (done': nat)
      modifies this`rxHead, this`delivered, this`freed
      ensures State(done') == Handle(config, old(State(done)), x)
    {
      done' := done;
      if x.look.drop {
        freed := freed + [x];
        return;
      }
      var room := if rxHead.Some? then config.bufSize else config.headSize;
      if room < x.look.len + config.offset {
        freed := freed + (if rxHead.Some? then rxHead.value else []) + [x];
        rxHead := None;
        return;
      }
      if rxHead.Some? {
        var h := rxHead.value;
        var fits := |h| <= config.maxFrags;
        if fits {
          rxHead := Some(h + [x]);
        } else {
          freed := freed + [x];
        }
        if !x.look.more {
          if fits {
            delivered := delivered + [h + [x]];
          } else {
            freed := freed + h;
          }
          rxHead := None;
        }
        return;
      }
      if (!x.look.more && !x.look.accepted) || !x.look.built {
        freed := freed + [x];
        return;
      }
      done' := done + 1;
      if x.look.more {
        rxHead := Some([x]);
      } else {
        delivered := delivered + [[x]];
      }
    }

    /** `mt76_dma_rx_process`: the descriptors `looks` are found finished one after the other, `pool` refills the ring.
        The ring after the loop and before the refill is `left`. */
    method RxProcess(looks: seq<Look>, pool: seq<nat>, budget: nat) returns (done: nat, frames: nat, ghost left: seq<nat>)
      requires Valid()
      modifies this, entry
      ensures Valid() && frames <= |pool|
      ensures (State(done), left, packet) == Process(config, old(State(0)), old(pending), looks, old(packet), budget)
      ensures pending == left + pool[..frames] && (queued == ndesc - 1 || frames == |pool|)
    {
      done := 0;
      var k := 0;
      hide Handle, Idx;
      while done < budget
        invariant Valid() && k <= |looks|
        invariant Process(config, old(State(0)), old(pending), looks, old(packet), budget)
               == Process(config, State(done), pending, looks[k..], packet, budget)
        decreases queued
      {
        if queued == 0 || k == |looks| {
          break;
        }
        var buf := Dequeue();
        done := HandleBuf(Item(buf, packet, looks[k]), done);
        packet := if looks[k].more then packet else packet + 1;
        assert looks[k..][1..] == looks[k + 1..];
        k := k + 1;
      }
      left := pending;
      frames := RxFill(pool);
    }

    /** `mt76_dma_rx_poll`: rounds of processing until one yields nothing or the budget is used up. `rounds` gives what
        each round finds; `posted` are the buffers taken from the pool. Never more than the budget is reported, and
        every buffer is accounted for. */
    method RxPoll(rounds: seq<(seq<Look>, seq<nat>)>, budget: nat) returns (done: nat, ghost posted: seq<nat>)
      requires Valid() && budget > 0
      modifies this, entry
      ensures Valid() && done <= budget
      ensures forall b :: Owned(b) == old(Owned(b)) + PendingTimes(posted, b)
    {
      done, posted := 0, [];
      var i, cur := 0, 1;
      while cur != 0 && done < budget
        invariant Valid() && done <= budget
        invariant forall b :: Owned(b) == old(Owned(b)) + PendingTimes(posted, b)
        decreases budget - done, cur
      {
        var looks, pool := [], [];
        if i < |rounds| {
          looks, pool := rounds[i].0, rounds[i].1;
        }
        var frames;
        cur, frames, posted := PollRound(looks, pool, budget - done, posted);
        done, i := done + cur, i + 1;
      }
    }

    method PollRound(looks: seq<Look>, pool: seq<nat>, budget: nat, ghost posted: seq<nat>)
        returns (cur: nat, frames: nat, ghost posted': seq<nat>)
      requires Valid()
      modifies this, entry
      ensures Valid() && cur <= budget
      ensures forall b :: Owned(b) + PendingTimes(posted, b) == old(Owned(b)) + PendingTimes(posted', b)
    {
      ghost var r0, p0, n0 := State(0), pending, packet;
      ghost var left;
      cur, frames, left := RxProcess(looks, pool, budget);
      posted' := posted + pool[..frames];
      ProcessTakesInOrder(config, r0, p0, looks, n0, budget);
      hide Process, Times, FrameTimes;
      forall b ensures Owned(b) + PendingTimes(posted, b) == old(Owned(b)) + PendingTimes(posted', b) {
        ProcessConserves(config, r0, p0, looks, n0, budget, b);
        PendingConcat(left, pool[..frames], b);
        PendingConcat(posted, pool[..frames], b);
      }
    }

    /** `mt76_dma_rx_cleanup`: everything goes back to the pool. */
    method RxCleanup()
      requires Valid()
      modifies this, entry
      ensures Valid() && pending == [] && rxHead == None && delivered == old(delivered)
      ensures forall b :: Owned(b) == old(Owned(b))
    {
      while queued > 0
        invariant Valid() && rxHead == old(rxHead) && delivered == old(delivered)
        invariant forall b :: Owned(b) == old(Owned(b))
        decreases queued
      {
        FreeOldest();
      }
      ghost var f := freed;
      if rxHead.Some? {
        forall b ensures Times(freed + rxHead.value, b) == Times(freed, b) + Times(rxHead.value, b) {
          TimesConcat(freed, rxHead.value, b);
        }
        freed := freed + rxHead.value;
        rxHead := None;
      }
      assert forall b :: Times([], b) == 0;
    }

    method FreeOldest()
      requires Valid() && queued > 0
      modifies this`tail, this`queued, this`pending, this`freed, entry
      ensures Valid() && queued == old(queued) - 1
      ensures forall b :: Owned(b) == old(Owned(b))
    {
      ghost var p, f := pending, freed;
      var buf := Dequeue();
      var x := Item(buf, packet, Look(0, false, true, false, false));
      freed := freed + [x];
      forall b ensures Owned(b) == old(Owned(b)) {
        TimesMore(f, x, b);
      }
    }
  }

  lemma {:induction false} PendingConcat(a: seq<nat>, c: seq<nat>, b: nat)
    ensures PendingTimes(a + c, b) == PendingTimes(a, b) + PendingTimes(c, b)
    decreases |a|
  {
    if a == [] {
      assert a + c == c;
    } else {
      assert (a + c)[1..] == a[1..] + c;
      PendingConcat(a[1..], c, b);
    }
  }
}
