/** Frames against packets: when the frames that the receive loop hands to the driver are the hardware's packets. */
module RxFrames {
  import opened Basics
  import opened RxRing

  /** The loop's state beside the hardware's packets: `packet` is the current packet and `seen` its buffers so far.
      `intact` says that all of these have been collected and nothing else; `cut` that the frame being collected has
      lost the last buffer of an earlier packet and is still open. */
  datatype Trace = Trace(r: Rx, packet: nat, seen: seq<Item>, intact: bool, cut: bool)

  /** Buffer `x` becomes part of a frame. */
  predicate Keeps(c: Config, r: Rx, x: Item) {
    && !x.look.drop && x.look.len + c.offset <= (if r.head.Some? then c.bufSize else c.headSize)
    && if r.head.Some? then |r.head.value| <= c.maxFrags else x.look.built && (x.look.more || x.look.accepted)
  }

  /** Buffer `x` completes a frame. */
  predicate Delivers(c: Config, r: Rx, x: Item) {
    Keeps(c, r, x) && !x.look.more
  }

  function Turn(c: Config, t: Trace, x: Item): Trace {
    var r := Handle(c, t.r, x);
    var cut := r.head.Some? && (t.cut || (x.look.drop && !x.look.more));
    if x.look.more then Trace(r, t.packet, t.seen + [x], t.intact && Keeps(c, t.r, x), cut)
    else Trace(r, t.packet + 1, [], r.head.None?, cut)
  }

  predicate Ends(t: Trace, pending: seq<nat>, looks: seq<Look>, budget: nat) {
    t.r.done >= budget || pending == [] || looks == []
  }

  function FirstItem(t: Trace, pending: seq<nat>, looks: seq<Look>): Item
    requires pending != [] && looks != []
  {
    Item(pending[0], t.packet, looks[0])
  }

  /** The loop of `Process` with its trace. */
  function Traced(c: Config, t: Trace, pending: seq<nat>, looks: seq<Look>, budget: nat): Trace
    decreases |pending|
  {
    if Ends(t, pending, looks, budget) then t
    else Traced(c, Turn(c, t, FirstItem(t, pending, looks)), pending[1..], looks[1..], budget)
  }

  lemma {:induction false} TracedIsProcess(c: Config, t: Trace, pending: seq<nat>, looks: seq<Look>, budget: nat)
    ensures var (r, left, n) := Process(c, t.r, pending, looks, t.packet, budget);
            var t' := Traced(c, t, pending, looks, budget);
            t'.r == r && t'.packet == n
    decreases |pending|
  {
    if !Ends(t, pending, looks, budget) {
      var t1 := Turn(c, t, FirstItem(t, pending, looks));
      hide Handle, Keeps;
      TracedIsProcess(c, t1, pending[1..], looks[1..], budget);
    }
  }

  // ---- one buffer ----

  ghost predicate OnePacket(f: seq<Item>) {
    forall i, j :: 0 <= i < j < |f| ==> f[i].packet == f[j].packet
  }

  ghost predicate AllOf(xs: seq<Item>, packet: nat) {
    forall i :: 0 <= i < |xs| ==> xs[i].packet == packet
  }

  ghost predicate Inv(t: Trace) {
    var h := HeadItems(t.r);
    && (t.r.head.Some? ==> h != [])
    && (if t.cut then h != [] && h[0].packet < t.packet else AllOf(h, t.packet))
    && AllOf(t.seen, t.packet)
    && (if t.intact then h == t.seen && !t.cut else t.cut || |h| < |t.seen|)
  }

  lemma HandleHead(c: Config, r: Rx, x: Item)
    ensures HeadItems(Handle(c, r, x)) ==
              if x.look.more && Keeps(c, r, x) then HeadItems(r) + [x]
              else if x.look.drop || (x.look.more && r.head.Some? && x.look.len + c.offset <= c.bufSize) then HeadItems(r)
              else []
    ensures Handle(c, r, x).head.Some? && (r.head.Some? ==> HeadItems(r) != []) ==> HeadItems(Handle(c, r, x)) != []
  {
    assert HeadItems(r) == [] ==> [x] == HeadItems(r) + [x];
  }

  lemma TurnKeepsInv(c: Config, t: Trace, x: Item)
    requires Inv(t) && x.packet == t.packet
    ensures Inv(Turn(c, t, x))
  {
    HandleHead(c, t.r, x);
    hide Handle;
  }

  /** The exact case in which one buffer puts the loop out of step with the packets: the last buffer of a packet is
      dropped while a frame is being collected. */
  lemma CutIff(c: Config, t: Trace, x: Item)
    requires Inv(t) && x.packet == t.packet && !t.cut
    ensures var t' := Turn(c, t, x);
            AllOf(HeadItems(t'.r), t'.packet) <==> !(x.look.drop && !x.look.more && t.r.head.Some?)
  {
    HandleHead(c, t.r, x);
    hide Handle;
    assert HeadItems(t.r) != [] ==> HeadItems(t.r)[0].packet == t.packet;
  }

  /** What a buffer delivers: at most one frame, which mixes packets exactly when the open frame was cut, and is all
      buffers of its packet exactly when the trace is intact. */
  lemma DeliveryExact(c: Config, t: Trace, x: Item)
    requires Inv(t) && x.packet == t.packet
    ensures var r' := Handle(c, t.r, x);
            var f := HeadItems(t.r) + [x];
            && r'.delivered == t.r.delivered + (if Delivers(c, t.r, x) then [f] else [])
            && (OnePacket(f) <==> !t.cut)
            && (f == t.seen + [x] <==> t.intact)
  {
    var h := HeadItems(t.r);
    var f := h + [x];
    assert h == [] ==> f == [x];
    assert f[|h|] == x;
    if t.cut {
      assert f[0].packet < f[|h|].packet;
      assert t.seen != [] ==> (t.seen + [x])[0].packet == t.packet;
    } else {
      forall i | 0 <= i < |f| ensures f[i].packet == t.packet {
        assert i < |h| ==> f[i] == h[i];
      }
      assert f == t.seen + [x] ==> |h| == |t.seen|;
    }
  }

  lemma {:induction false} TracedKeepsInv(c: Config, t: Trace, pending: seq<nat>, looks: seq<Look>, budget: nat)
    requires Inv(t)
    ensures Inv(Traced(c, t, pending, looks, budget))
    decreases |pending|
  {
    if !Ends(t, pending, looks, budget) {
      var x := FirstItem(t, pending, looks);
      TurnKeepsInv(c, t, x);
      hide Inv, Turn;
      TracedKeepsInv(c, Turn(c, t, x), pending[1..], looks[1..], budget);
    }
  }

  // ---- all frames of a run ----

  /** No frame is completed while it is cut: after the last buffer of a packet was dropped in the middle of a frame,
      that frame is given up before it is complete. */
  ghost predicate NeverGlues(c: Config, t: Trace, pending: seq<nat>, looks: seq<Look>, budget: nat)
    decreases |pending|
  {
    Ends(t, pending, looks, budget) ||
    var x := FirstItem(t, pending, looks);
    && !(Delivers(c, t.r, x) && t.cut)
    && NeverGlues(c, Turn(c, t, x), pending[1..], looks[1..], budget)
  }

  /** No frame is completed after a buffer of its packet was not kept, or on top of the rest of an earlier packet. */
  ghost predicate NeverPartial(c: Config, t: Trace, pending: seq<nat>, looks: seq<Look>, budget: nat)
    decreases |pending|
  {
    Ends(t, pending, looks, budget) ||
    var x := FirstItem(t, pending, looks);
    && !(Delivers(c, t.r, x) && !t.intact)
    && NeverPartial(c, Turn(c, t, x), pending[1..], looks[1..], budget)
  }

  ghost predicate Unmixed(frames: seq<seq<Item>>) {
    forall f | f in frames :: OnePacket(f)
  }

  lemma UnmixedMore(frames: seq<seq<Item>>, f: seq<Item>)
    ensures Unmixed(frames + [f]) <==> Unmixed(frames) && OnePacket(f)
  {
    assert f in frames + [f];
    assert forall g | g in frames :: g in frames + [f];
  }

  /** Over a whole run of the loop: no delivered frame mixes buffers of two packets if and only if none did before
      and no frame is completed while it is cut. */
  lemma {:induction false} UnmixedIff(c: Config, t: Trace, pending: seq<nat>, looks: seq<Look>, budget: nat)
    requires Inv(t)
    ensures Unmixed(Traced(c, t, pending, looks, budget).r.delivered) <==>
            Unmixed(t.r.delivered) && NeverGlues(c, t, pending, looks, budget)
    decreases |pending|
  {
    if !Ends(t, pending, looks, budget) {
      var x := FirstItem(t, pending, looks);
      TurnKeepsInv(c, t, x);
      DeliveryExact(c, t, x);
      UnmixedMore(t.r.delivered, HeadItems(t.r) + [x]);
      assert t.r.delivered + [] == t.r.delivered;
      hide Inv, Handle, Unmixed, OnePacket, Delivers, HeadItems;
      UnmixedIff(c, Turn(c, t, x), pending[1..], looks[1..], budget);
    }
  }

  /** In particular when no last buffer of a packet is ever dropped while a frame is being collected. */
  ghost predicate NeverCuts(c: Config, t: Trace, pending: seq<nat>, looks: seq<Look>, budget: nat)
    decreases |pending|
  {
    Ends(t, pending, looks, budget) ||
    var x := FirstItem(t, pending, looks);
    && !(x.look.drop && !x.look.more && t.r.head.Some?)
    && NeverCuts(c, Turn(c, t, x), pending[1..], looks[1..], budget)
  }

  lemma {:induction false} NeverCutsNeverGlues(c: Config, t: Trace, pending: seq<nat>, looks: seq<Look>, budget: nat)
    requires !t.cut && NeverCuts(c, t, pending, looks, budget)
    ensures NeverGlues(c, t, pending, looks, budget)
    decreases |pending|
  {
    if !Ends(t, pending, looks, budget) {
      NeverCutsNeverGlues(c, Turn(c, t, FirstItem(t, pending, looks)), pending[1..], looks[1..], budget);
    }
  }

  // ---- sizes ----

  /** The first buffer fits the room of a head, the others that of a fragment, and there are not too many. */
  ghost predicate FitsFrame(c: Config, f: seq<Item>) {
    && |f| <= c.maxFrags + 1
    && forall i :: 0 <= i < |f| ==> f[i].look.len + c.offset <= if i == 0 then c.headSize else c.bufSize
  }

  ghost predicate AllFit(c: Config, r: Rx) {
    FitsFrame(c, HeadItems(r)) && forall f | f in r.delivered :: FitsFrame(c, f)
  }

  lemma FitsMore(c: Config, r: Rx, x: Item)
    requires FitsFrame(c, HeadItems(r)) && Keeps(c, r, x) && (r.head.Some? ==> HeadItems(r) != [])
    ensures FitsFrame(c, HeadItems(r) + [x])
  {
  }

  /** Over a whole run: every delivered frame, and the open one, fits the skb it is built from. */
  lemma {:induction false} FramesFit(c: Config, t: Trace, pending: seq<nat>, looks: seq<Look>, budget: nat)
    requires Inv(t) && AllFit(c, t.r)
    ensures AllFit(c, Traced(c, t, pending, looks, budget).r)
    decreases |pending|
  {
    if !Ends(t, pending, looks, budget) {
      var x := FirstItem(t, pending, looks);
      TurnKeepsInv(c, t, x);
      DeliveryExact(c, t, x);
      HandleHead(c, t.r, x);
      if Keeps(c, t.r, x) {
        FitsMore(c, t.r, x);
      }
      assert FitsFrame(c, []);
      hide Inv, Handle, FitsFrame, HeadItems, OnePacket, Keeps;
      FramesFit(c, Turn(c, t, x), pending[1..], looks[1..], budget);
    }
  }

  /** Buffer `x` starts a frame. */
  predicate Begins(c: Config, r: Rx, x: Item) {
    r.head.None? && Keeps(c, r, x)
  }

  function Begun(c: Config, t: Trace, pending: seq<nat>, looks: seq<Look>, budget: nat): nat
    decreases |pending|
  {
    if Ends(t, pending, looks, budget) then 0
    else
      var x := FirstItem(t, pending, looks);
      (if Begins(c, t.r, x) then 1 else 0) + Begun(c, Turn(c, t, x), pending[1..], looks[1..], budget)
  }

  /** What counts against the budget is exactly the frames that were started. */
  lemma {:induction false} CountsFrames(c: Config, t: Trace, pending: seq<nat>, looks: seq<Look>, budget: nat)
    ensures Traced(c, t, pending, looks, budget).r.done == t.r.done + Begun(c, t, pending, looks, budget)
    decreases |pending|
  {
    if !Ends(t, pending, looks, budget) {
      var x := FirstItem(t, pending, looks);
      assert Handle(c, t.r, x).done == t.r.done + if Begins(c, t.r, x) then 1 else 0;
      hide Handle, Keeps;
      CountsFrames(c, Turn(c, t, x), pending[1..], looks[1..], budget);
    }
  }

  // ---- whole packets ----

  /** The buffers of the hardware's packets from the current one on: those seen and those the run takes. */
  function Buffers(c: Config, t: Trace, pending: seq<nat>, looks: seq<Look>, budget: nat): seq<Item>
    decreases |pending|
  {
    if Ends(t, pending, looks, budget) then t.seen
    else
      var x := FirstItem(t, pending, looks);
      var rest := Buffers(c, Turn(c, t, x), pending[1..], looks[1..], budget);
      if x.look.more then rest else t.seen + [x] + rest
  }

  function OfPacket(xs: seq<Item>, packet: nat): seq<Item> {
    if xs == [] then [] else (if xs[0].packet == packet then [xs[0]] else []) + OfPacket(xs[1..], packet)
  }

  lemma {:induction false} OfPacketConcat(xs: seq<Item>, ys: seq<Item>, packet: nat)
    ensures OfPacket(xs + ys, packet) == OfPacket(xs, packet) + OfPacket(ys, packet)
    decreases |xs|
  {
    if xs == [] {
      assert xs + ys == ys;
    } else {
      var one := if xs[0].packet == packet then [xs[0]] else [];
      assert (xs + ys)[0] == xs[0] && (xs + ys)[1..] == xs[1..] + ys;
      OfPacketConcat(xs[1..], ys, packet);
      Assoc(one, OfPacket(xs[1..], packet), OfPacket(ys, packet));
    }
  }

  lemma {:induction false} OfPacketAll(xs: seq<Item>, packet: nat, p: nat)
    requires AllOf(xs, packet)
    ensures OfPacket(xs, p) == if p == packet then xs else []
    decreases |xs|
  {
    if xs != [] {
      OfPacketAll(xs[1..], packet, p);
      assert xs == [xs[0]] + xs[1..];
    }
  }

  /** Every frame of `frames` is exactly the buffers of its packet, in order. */
  ghost predicate Whole(frames: seq<seq<Item>>, buffers: seq<Item>) {
    forall f: seq<Item> | f in frames :: f != [] && f == OfPacket(buffers, f[|f| - 1].packet)
  }

  /** The frames a run delivers. */
  function Delivered(c: Config, t: Trace, pending: seq<nat>, looks: seq<Look>, budget: nat): seq<seq<Item>>
    decreases |pending|
  {
    if Ends(t, pending, looks, budget) then []
    else
      var x := FirstItem(t, pending, looks);
      var rest := Delivered(c, Turn(c, t, x), pending[1..], looks[1..], budget);
      if Delivers(c, t.r, x) then [HeadItems(t.r) + [x]] + rest else rest
  }

  lemma {:induction false} DeliveredIsTraced(c: Config, t: Trace, pending: seq<nat>, looks: seq<Look>, budget: nat)
    requires Inv(t)
    ensures Traced(c, t, pending, looks, budget).r.delivered == t.r.delivered + Delivered(c, t, pending, looks, budget)
    decreases |pending|
  {
    if !Ends(t, pending, looks, budget) {
      var x := FirstItem(t, pending, looks);
      TurnKeepsInv(c, t, x);
      DeliveryExact(c, t, x);
      hide Inv, Handle, Delivers, HeadItems, OnePacket;
      DeliveredIsTraced(c, Turn(c, t, x), pending[1..], looks[1..], budget);
    }
  }

  lemma {:induction false} BuffersAreLater(c: Config, t: Trace, pending: seq<nat>, looks: seq<Look>, budget: nat, p: nat)
    requires AllOf(t.seen, t.packet) && p < t.packet
    ensures OfPacket(Buffers(c, t, pending, looks, budget), p) == []
    decreases |pending|
  {
    if Ends(t, pending, looks, budget) {
      OfPacketAll(t.seen, t.packet, p);
    } else {
      var x := FirstItem(t, pending, looks);
      var t1 := Turn(c, t, x);
      BuffersAreLater(c, t1, pending[1..], looks[1..], budget, p);
      OfPacketAll(t.seen + [x], t.packet, p);
      OfPacketConcat(t.seen + [x], Buffers(c, t1, pending[1..], looks[1..], budget), p);
    }
  }

  ghost predicate LastFrom(frames: seq<seq<Item>>, packet: nat) {
    forall f: seq<Item> | f in frames :: f != [] && packet <= f[|f| - 1].packet
  }

  lemma {:induction false} DeliveredAreLater(c: Config, t: Trace, pending: seq<nat>, looks: seq<Look>, budget: nat)
    ensures LastFrom(Delivered(c, t, pending, looks, budget), t.packet)
    decreases |pending|
  {
    if !Ends(t, pending, looks, budget) {
      DeliveredAreLater(c, Turn(c, t, FirstItem(t, pending, looks)), pending[1..], looks[1..], budget);
    }
  }

  /** Buffers of an earlier packet do not matter to later frames. */
  lemma WholeShift(frames: seq<seq<Item>>, before: seq<Item>, buffers: seq<Item>, packet: nat)
    requires AllOf(before, packet) && LastFrom(frames, packet + 1)
    ensures Whole(frames, before + buffers) <==> Whole(frames, buffers)
  {
    forall f: seq<Item> | f in frames
      ensures OfPacket(before + buffers, f[|f| - 1].packet) == OfPacket(buffers, f[|f| - 1].packet)
    {
      OfPacketAll(before, packet, f[|f| - 1].packet);
      OfPacketConcat(before, buffers, f[|f| - 1].packet);
    }
  }

  lemma WholeMore(f: seq<Item>, frames: seq<seq<Item>>, buffers: seq<Item>)
    ensures Whole([f] + frames, buffers) <==> Whole([f], buffers) && Whole(frames, buffers)
  {
    assert f in [f] + frames && f in [f];
    assert forall g | g in frames :: g in [f] + frames;
  }

  lemma WholeOne(f: seq<Item>, before: seq<Item>, rest: seq<Item>, packet: nat)
    requires f != [] && f[|f| - 1].packet == packet && AllOf(before, packet) && OfPacket(rest, packet) == []
    ensures Whole([f], before + rest) <==> f == before
  {
    OfPacketAll(before, packet, packet);
    OfPacketConcat(before, rest, packet);
    assert OfPacket(before + rest, packet) == before;
    assert f in [f];
  }

  /** The end of a packet: the frame completed there is whole exactly when the trace is intact. */
  lemma WholeAtEnd(c: Config, t: Trace, x: Item, frames: seq<seq<Item>>, rest: seq<Item>)
    requires Inv(t) && x.packet == t.packet && LastFrom(frames, t.packet + 1) && OfPacket(rest, t.packet) == []
    ensures var f := HeadItems(t.r) + [x];
            Whole([f] + frames, t.seen + [x] + rest) <==> t.intact && Whole(frames, rest)
  {
    var f := HeadItems(t.r) + [x];
    var before := t.seen + [x];
    assert AllOf(before, t.packet);
    assert f[|f| - 1] == x;
    DeliveryExact(c, t, x);
    hide *;
    WholeOne(f, before, rest, t.packet);
    WholeMore(f, frames, before + rest);
    WholeShift(frames, before, rest, t.packet);
  }

  /** Over a whole run of the loop: every frame it delivers is all buffers of its packet, in order and nothing else, if
      and only if none is completed after a buffer of its packet was not kept, or on top of an earlier packet's rest. */
  lemma {:induction false} WholeIff(c: Config, t: Trace, pending: seq<nat>, looks: seq<Look>, budget: nat)
    requires Inv(t)
    ensures Whole(Delivered(c, t, pending, looks, budget), Buffers(c, t, pending, looks, budget)) <==>
            NeverPartial(c, t, pending, looks, budget)
    decreases |pending|
  {
    if !Ends(t, pending, looks, budget) {
      var x := FirstItem(t, pending, looks);
      var t1 := Turn(c, t, x);
      var frames := Delivered(c, t1, pending[1..], looks[1..], budget);
      var rest := Buffers(c, t1, pending[1..], looks[1..], budget);
      TurnKeepsInv(c, t, x);
      WholeIff(c, t1, pending[1..], looks[1..], budget);
      if !x.look.more {
        DeliveredAreLater(c, t1, pending[1..], looks[1..], budget);
        BuffersAreLater(c, t1, pending[1..], looks[1..], budget, t.packet);
        WholeAtEnd(c, t, x, frames, rest);
        WholeShift(frames, t.seen + [x], rest, t.packet);
      }
      hide Inv, Handle, Keeps, HeadItems, Whole;
    }
  }

  // ---- both happen ----

  function Start(packet: nat): Trace {
    Trace(Rx(None, [], [], 0), packet, [], true, false)
  }

  lemma StartIsInv(packet: nat)
    ensures Inv(Start(packet))
  {
  }

  /** A packet of two buffers whose second is dropped, and a packet of one buffer: they leave as one frame. */
  lemma MixingReachable(c: Config, packet: nat)
    requires c.offset <= c.bufSize && c.offset <= c.headSize && 0 < c.maxFrags
    ensures exists looks: seq<Look> ::
              |looks| == 3 && !Unmixed(Traced(c, Start(packet), [0, 1, 2], looks, 64).r.delivered)
  {
    var first := Look(0, true, false, true, true);
    var last := Look(0, false, true, true, true);
    var single := Look(0, false, false, true, true);
    var looks := [first, last, single];
    var t1 := Turn(c, Start(packet), Item(0, packet, first));
    var t2 := Turn(c, t1, Item(1, packet, last));
    var x := Item(2, packet + 1, single);
    StartIsInv(packet);
    assert t1.r.head == Some([Item(0, packet, first)]) && t1.packet == packet && t1.r.done == 1;
    assert t2.r.head == t1.r.head && t2.packet == packet + 1 && t2.cut && t2.r.done == 1;
    assert Delivers(c, t2.r, x);
    hide Handle, Keeps, Delivers, Unmixed;
    assert looks[1..] == [last, single] && looks[1..][1..] == [single];
    assert [0, 1, 2][1..] == [1, 2] && [1, 2][1..] == [2];
    assert !NeverGlues(c, t2, [2], [single], 64);
    assert !NeverGlues(c, t1, [1, 2], [last, single], 64);
    assert !NeverGlues(c, Start(packet), [0, 1, 2], looks, 64);
    UnmixedIff(c, Start(packet), [0, 1, 2], looks, 64);
  }
}
