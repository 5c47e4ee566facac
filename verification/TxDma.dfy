/** Who owns the transmit DMA mappings of mt7921e: the ring entry of a raw (firmware) frame, or the token of a data
    frame. Over every run each mapping is undone exactly once, with the length it was made with. */
module TxDma {
  import opened Basics
  import opened TxRing
  import opened Txp

  /** A token in use and the descriptor list in its txwi cache. */
  datatype Token = Token(id: nat, ptrs: seq<Ptr>)

  /** `mapped` is the IOMMU's view; `fault` is raised by an unmap that does not match a mapping. */
  datatype State = State(ndesc: nat, pending: seq<Slot>, tokens: seq<Token>, mapped: map<nat, nat>, fault: bool)

  /** What becomes of a data frame: the mapping of buffer `at` fails, the driver's prepare step refuses it
      (frame too short or no token), or it goes out under token `id`. */
  datatype Fate = MapError(at: nat) | PrepareError | Sent(id: nat)

  datatype Event =
    | QueueRaw(addr: nat, len: nat, skb: nat)
    | QueueSkb(bufs: seq<Mapping>, txwi: Buf, fate: Fate)
    | CleanOldest
    | FreeToken(i: nat)

  predicate Distinct(bufs: seq<Mapping>) {
    forall i, j :: 0 <= i < j < |bufs| ==> bufs[i].0 != bufs[j].0
  }

  /** The mapping service returns addresses that are not in use; a data frame has one to four buffers. */
  predicate ValidEvent(s: State, e: Event) {
    match e
    case QueueRaw(addr, _, _) => addr !in s.mapped
    case QueueSkb(bufs, _, _) =>
      0 < |bufs| <= 2 * MAX_PTRS && Distinct(bufs) && (forall i :: 0 <= i < |bufs| ==> bufs[i].0 !in s.mapped)
    case _ => true
  }

  /** The driver's frames are shorter than the 12-bit length field of the list. */
  predicate Short(e: Event) {
    e.QueueSkb? ==> forall i :: 0 <= i < |e.bufs| ==> e.bufs[i].1 < LEN_MASK
  }

  function MapAll(mapped: map<nat, nat>, bufs: seq<Mapping>): map<nat, nat>
    decreases |bufs|
  {
    if bufs == [] then mapped else MapAll(mapped[bufs[0].0 := bufs[0].1], bufs[1..])
  }

  /** The mappings left, and whether some unmap did not match. */
  function UnmapAll(mapped: map<nat, nat>, bufs: seq<Mapping>): (map<nat, nat>, bool) {
    if bufs == [] then
      (mapped, false)
    else
      var (a, l) := bufs[0];
      var bad := !(a in mapped && mapped[a] == l);
      var (m, f) := UnmapAll(mapped - {a}, bufs[1..]);
      (m, bad || f)
  }

  function Reverse(bufs: seq<Mapping>): seq<Mapping> {
    if bufs == [] then [] else Reverse(bufs[1..]) + [bufs[0]]
  }

  function Unmap(s: State, bufs: seq<Mapping>): State {
    var (m, f) := UnmapAll(s.mapped, bufs);
    s.(mapped := m, fault := s.fault || f)
  }

  /** `mt76_dma_tx_queue_skb`: buffers are mapped one by one; every error undoes the mappings made, last first. */
  function QueueSkbStep(s: State, bufs: seq<Mapping>, txwi: Buf, fate: Fate): State
    requires |bufs| > 0
  {
    var made := if fate.MapError? && fate.at < |bufs| then bufs[..fate.at] else bufs;
    var s1 := s.(mapped := MapAll(s.mapped, made));
    if |made| < |bufs| then
      Unmap(s1, Reverse(made))
    else if |s.pending| + Slots(|bufs| + 1) >= s.ndesc - 1 || !fate.Sent? then
      Unmap(s1, Reverse(bufs))
    else
      s1.(tokens := s.tokens + [Token(fate.id, WriteTxp(bufs, false))],
          pending := s.pending + Packet([txwi], 0, None, Txwi(fate.id)))
  }

  function Step(s: State, e: Event): State
    requires ValidEvent(s, e)
  {
    match e
    case QueueRaw(addr, len, skb) =>
      if |s.pending| + 1 >= s.ndesc - 1 then s
      else s.(mapped := s.mapped[addr := len], pending := s.pending + Packet([Buf(addr, len, false)], 0, Some(skb), NoTxwi))
    case QueueSkb(bufs, txwi, fate) => QueueSkbStep(s, bufs, txwi, fate)
    case CleanOldest => if s.pending == [] then s else Unmap(s.(pending := s.pending[1..]), Unmaps(s.pending[0].entry))
    case FreeToken(i) =>
      if i >= |s.tokens| then s
      else Unmap(s.(tokens := s.tokens[..i] + s.tokens[i + 1..]), ReadTxp(s.tokens[i].ptrs, 0, false))
  }

  ghost predicate ValidRun(s: State, es: seq<Event>)
    decreases |es|
  {
    es == [] || (ValidEvent(s, es[0]) && ValidRun(Step(s, es[0]), es[1..]))
  }

  function Run(s: State, es: seq<Event>): State
    requires ValidRun(s, es)
    decreases |es|
  {
    if es == [] then s else Run(Step(s, es[0]), es[1..])
  }

  // ---- counting mappings ----

  function Times(bufs: seq<Mapping>, p: Mapping): nat {
    if bufs == [] then 0 else (if bufs[0] == p then 1 else 0) + Times(bufs[1..], p)
  }

  function In(mapped: map<nat, nat>, p: Mapping): nat {
    if p.0 in mapped && mapped[p.0] == p.1 then 1 else 0
  }

  lemma {:induction false} TimesConcat(a: seq<Mapping>, b: seq<Mapping>, p: Mapping)
    ensures Times(a + b, p) == Times(a, p) + Times(b, p)
    decreases |a|
  {
    if a == [] {
      assert a + b == b;
    } else {
      assert (a + b)[1..] == a[1..] + b;
      TimesConcat(a[1..], b, p);
    }
  }

  lemma {:induction false} TimesReverse(a: seq<Mapping>, p: Mapping)
    ensures Times(Reverse(a), p) == Times(a, p)
    decreases |a|
  {
    if a != [] {
      TimesReverse(a[1..], p);
      TimesConcat(Reverse(a[1..]), [a[0]], p);
    }
  }

  function RingTimes(pending: seq<Slot>, p: Mapping): nat {
    if pending == [] then 0 else Times(Unmaps(pending[0].entry), p) + RingTimes(pending[1..], p)
  }

  function TokenTimes(tokens: seq<Token>, p: Mapping): nat {
    if tokens == [] then 0 else Times(ReadTxp(tokens[0].ptrs, 0, false), p) + TokenTimes(tokens[1..], p)
  }

  lemma {:induction false} RingTimesConcat(a: seq<Slot>, b: seq<Slot>, p: Mapping)
    ensures RingTimes(a + b, p) == RingTimes(a, p) + RingTimes(b, p)
    decreases |a|
  {
    if a == [] {
      assert a + b == b;
    } else {
      assert (a + b)[1..] == a[1..] + b;
      RingTimesConcat(a[1..], b, p);
    }
  }

  lemma {:induction false} TokenTimesConcat(a: seq<Token>, b: seq<Token>, p: Mapping)
    ensures TokenTimes(a + b, p) == TokenTimes(a, p) + TokenTimes(b, p)
    decreases |a|
  {
    if a == [] {
      assert a + b == b;
    } else {
      assert (a + b)[1..] == a[1..] + b;
      TokenTimesConcat(a[1..], b, p);
    }
  }

  /** How many owners will undo the mapping `p`. */
  function Owners(s: State, p: Mapping): nat {
    RingTimes(s.pending, p) + TokenTimes(s.tokens, p)
  }

  /** Nothing went wrong, and every mapping has exactly one owner, which will undo it with its own length. */
  ghost predicate Inv(s: State) {
    !s.fault && forall p: Mapping :: Owners(s, p) == In(s.mapped, p)
  }

  lemma {:induction false} MapAllAdds(mapped: map<nat, nat>, bufs: seq<Mapping>, p: Mapping)
    requires Distinct(bufs) && forall i :: 0 <= i < |bufs| ==> bufs[i].0 !in mapped
    ensures In(MapAll(mapped, bufs), p) == In(mapped, p) + Times(bufs, p)
    decreases |bufs|
  {
    if bufs != [] {
      MapAllAdds(mapped[bufs[0].0 := bufs[0].1], bufs[1..], p);
    }
  }

  lemma {:induction false} UnmapAllRemoves(mapped: map<nat, nat>, bufs: seq<Mapping>)
    requires forall p: Mapping :: Times(bufs, p) <= In(mapped, p)
    ensures !UnmapAll(mapped, bufs).1
    ensures forall p: Mapping :: In(UnmapAll(mapped, bufs).0, p) == In(mapped, p) - Times(bufs, p)
    decreases |bufs|
  {
    if bufs != [] {
      var b := bufs[0];
      assert Times(bufs, b) <= In(mapped, b);
      forall p: Mapping ensures Times(bufs[1..], p) <= In(mapped - {b.0}, p)
                        ensures In(mapped - {b.0}, p) == In(mapped, p) - if p == b then 1 else 0
      {
        assert Times(bufs, p) <= In(mapped, p);
      }
      UnmapAllRemoves(mapped - {b.0}, bufs[1..]);
    }
  }

  // ---- every step keeps the invariant ----

  lemma OneSlot(b: Buf, skb: Option<nat>, txwi: Txwi, p: Mapping)
    ensures RingTimes(Packet([b], 0, skb, txwi), p)
         == if txwi.Txwi? || b.skipUnmap then 0 else Times([(b.addr, b.len)], p)
  {
    var s := Packet([b], 0, skb, txwi);
    assert s[1..] == [];
  }

  lemma RawKeepsInv(s: State, addr: nat, len: nat, skb: nat)
    requires Inv(s) && addr !in s.mapped
    ensures Inv(Step(s, QueueRaw(addr, len, skb)))
  {
    var s' := Step(s, QueueRaw(addr, len, skb));
    if s' != s {
      forall p: Mapping ensures Owners(s', p) == In(s'.mapped, p) {
        var packet := Packet([Buf(addr, len, false)], 0, Some(skb), NoTxwi);
        RingTimesConcat(s.pending, packet, p);
        OneSlot(Buf(addr, len, false), Some(skb), NoTxwi, p);
        assert Owners(s, p) == In(s.mapped, p);
      }
    }
  }

  /** Whatever error occurs while queueing, the mappings are as before. */
  lemma UndoneIsUnchanged(s: State, made: seq<Mapping>)
    requires Inv(s) && Distinct(made) && forall i :: 0 <= i < |made| ==> made[i].0 !in s.mapped
    ensures Inv(Unmap(s.(mapped := MapAll(s.mapped, made)), Reverse(made)))
  {
    var s1 := s.(mapped := MapAll(s.mapped, made));
    forall p: Mapping ensures In(s1.mapped, p) == In(s.mapped, p) + Times(Reverse(made), p) {
      MapAllAdds(s.mapped, made, p);
      TimesReverse(made, p);
    }
    UnmapAllRemoves(s1.mapped, Reverse(made));
    var s2 := Unmap(s1, Reverse(made));
    forall p: Mapping ensures Owners(s2, p) == In(s2.mapped, p) {
      assert Owners(s, p) == In(s.mapped, p);
    }
  }

  lemma SentKeepsInv(s: State, bufs: seq<Mapping>, txwi: Buf, id: nat)
    requires Inv(s) && ValidEvent(s, QueueSkb(bufs, txwi, Sent(id))) && Short(QueueSkb(bufs, txwi, Sent(id)))
    ensures Inv(Step(s, QueueSkb(bufs, txwi, Sent(id))))
  {
    var e := QueueSkb(bufs, txwi, Sent(id));
    var s' := Step(s, e);
    if |s.pending| + Slots(|bufs| + 1) >= s.ndesc - 1 {
      UndoneIsUnchanged(s, bufs);
    } else {
      RoundTripIff(bufs, false);
      var token := Token(id, WriteTxp(bufs, false));
      forall p: Mapping ensures Owners(s', p) == In(s'.mapped, p) {
        var packet := Packet([txwi], 0, None, Txwi(id));
        RingTimesConcat(s.pending, packet, p);
        OneSlot(txwi, None, Txwi(id), p);
        TokenTimesConcat(s.tokens, [token], p);
        assert [token][1..] == [];
        MapAllAdds(s.mapped, bufs, p);
        assert Owners(s, p) == In(s.mapped, p);
      }
    }
  }

  lemma ReleaseKeepsInv(s: State, s1: State, gone: seq<Mapping>)
    requires Inv(s) && s1.mapped == s.mapped && s1.fault == s.fault
    requires forall p: Mapping :: Owners(s, p) == Owners(s1, p) + Times(gone, p)
    ensures Inv(Unmap(s1, gone))
  {
    forall p: Mapping ensures Times(gone, p) <= In(s1.mapped, p) {
      assert Owners(s, p) == In(s.mapped, p);
    }
    UnmapAllRemoves(s1.mapped, gone);
    var s' := Unmap(s1, gone);
    forall p: Mapping ensures Owners(s', p) == In(s'.mapped, p) {
      assert Owners(s, p) == In(s.mapped, p);
      assert Owners(s', p) == Owners(s1, p);
    }
  }

  lemma FreeKeepsInv(s: State, i: nat)
    requires Inv(s)
    ensures Inv(Step(s, FreeToken(i)))
  {
    if i < |s.tokens| {
      var gone := ReadTxp(s.tokens[i].ptrs, 0, false);
      var s1 := s.(tokens := s.tokens[..i] + s.tokens[i + 1..]);
      forall p: Mapping ensures Owners(s, p) == Owners(s1, p) + Times(gone, p) {
        assert s.tokens == s.tokens[..i] + s.tokens[i..];
        TokenTimesConcat(s.tokens[..i], s.tokens[i..], p);
        TokenTimesConcat(s.tokens[..i], s.tokens[i + 1..], p);
        assert s.tokens[i..][1..] == s.tokens[i + 1..];
      }
      ReleaseKeepsInv(s, s1, gone);
    }
  }

  lemma StepKeepsInv(s: State, e: Event)
    requires Inv(s) && ValidEvent(s, e) && Short(e)
    ensures Inv(Step(s, e))
  {
    match e
    case QueueRaw(addr, len, skb) => RawKeepsInv(s, addr, len, skb);
    case QueueSkb(bufs, txwi, fate) =>
      if fate.Sent? {
        SentKeepsInv(s, bufs, txwi, fate.id);
      } else if fate.MapError? && fate.at < |bufs| {
        UndoneIsUnchanged(s, bufs[..fate.at]);
      } else {
        UndoneIsUnchanged(s, bufs);
      }
    case CleanOldest =>
      if s.pending != [] {
        ReleaseKeepsInv(s, s.(pending := s.pending[1..]), Unmaps(s.pending[0].entry));
      }
    case FreeToken(i) => FreeKeepsInv(s, i);
  }

  /** A frame is queued exactly if its slots leave two of the ring free, a data frame counting its txwi as a buffer
      and taking a token; otherwise ring and tokens stay. */
  lemma QueuedIff(s: State, e: Event)
    requires ValidEvent(s, e) && (e.QueueRaw? || e.QueueSkb?)
    ensures var s' := Step(s, e);
            var fits := if e.QueueRaw? then |s.pending| + 3 <= s.ndesc
                        else e.fate.Sent? && |s.pending| + (|e.bufs| + 2) / 2 + 2 <= s.ndesc;
            && |s'.pending| == |s.pending| + (if fits then 1 else 0) && s.pending <= s'.pending
            && |s'.tokens| == |s.tokens| + (if fits && e.QueueSkb? then 1 else 0) && s.tokens <= s'.tokens
            && (fits && e.QueueSkb? ==> s'.tokens[|s.tokens|].id == e.fate.id)
  {
  }

  /** So in every run of a new ring two slots stay free. */
  lemma {:induction false} RunLeavesRoom(s: State, es: seq<Event>)
    requires ValidRun(s, es) && (|s.pending| + 2 <= s.ndesc || s.pending == [])
    ensures var s' := Run(s, es); s'.ndesc == s.ndesc && (|s'.pending| + 2 <= s.ndesc || s'.pending == [])
    decreases |es|
  {
    if es != [] {
      if es[0].QueueRaw? || es[0].QueueSkb? {
        QueuedIff(s, es[0]);
      }
      RunLeavesRoom(Step(s, es[0]), es[1..]);
    }
  }

  function Fresh(ndesc: nat): State {
    State(ndesc, [], [], map[], false)
  }

  /** Each mapping is undone exactly once: in every run no unmap ever mismatches, and the mappings that exist
      are exactly those some ring entry or token still owns. */
  lemma {:induction false} RunKeepsInv(s: State, es: seq<Event>)
    requires Inv(s) && ValidRun(s, es) && forall e <- es :: Short(e)
    ensures Inv(Run(s, es))
    decreases |es|
  {
    if es != [] {
      StepKeepsInv(s, es[0]);
      hide Inv, Step, ValidEvent, Short;
      RunKeepsInv(Step(s, es[0]), es[1..]);
    }
  }

  lemma FreshIsInv(ndesc: nat)
    ensures Inv(Fresh(ndesc))
  {
  }

  /** Once the ring has been cleaned up and all tokens are back, nothing is left mapped. */
  lemma NothingLeaks(s: State)
    requires Inv(s) && s.pending == [] && s.tokens == []
    ensures s.mapped == map[]
  {
    forall a, l ensures In(s.mapped, (a, l)) == 0 {
      assert Owners(s, (a, l)) == In(s.mapped, (a, l));
    }
    if s.mapped != map[] {
      var a :| a in s.mapped;
      var n := In(s.mapped, (a, s.mapped[a]));
      assert false;
    }
  }

  /** Every run of a new ring: no unmap mismatches, each mapping has one owner, and when the ring is empty and all
      tokens are back nothing is left mapped. */
  lemma FreshRunIsSafe(ndesc: nat, es: seq<Event>, p: Mapping)
    requires ValidRun(Fresh(ndesc), es) && forall e <- es :: Short(e)
    ensures var s := Run(Fresh(ndesc), es);
            && !s.fault && Owners(s, p) == In(s.mapped, p)
            && (s.pending == [] && s.tokens == [] ==> s.mapped == map[])
  {
    FreshIsInv(ndesc);
    RunKeepsInv(Fresh(ndesc), es);
    var s := Run(Fresh(ndesc), es);
    if s.pending == [] && s.tokens == [] {
      NothingLeaks(s);
    }
  }

  lemma {:induction false} MismatchFaults(mapped: map<nat, nat>, bufs: seq<Mapping>, i: nat)
    requires Distinct(bufs) && i < |bufs| && !(bufs[i].0 in mapped && mapped[bufs[i].0] == bufs[i].1)
    ensures UnmapAll(mapped, bufs).1
    decreases |bufs|
  {
    if i > 0 {
      MismatchFaults(mapped - {bufs[0].0}, bufs[1..], i - 1);
    }
  }

  lemma {:induction false} MatchingIsFine(mapped: map<nat, nat>, bufs: seq<Mapping>)
    requires Distinct(bufs) && forall i :: 0 <= i < |bufs| ==> bufs[i].0 in mapped && mapped[bufs[i].0] == bufs[i].1
    ensures !UnmapAll(mapped, bufs).1
    decreases |bufs|
  {
    if bufs != [] {
      MatchingIsFine(mapped - {bufs[0].0}, bufs[1..]);
    }
  }

  /** A fault stays, and is raised exactly by undoing something that is not mapped, or not with that length. */
  lemma UnmapFaultsIff(s: State, gone: seq<Mapping>)
    requires Distinct(gone)
    ensures Unmap(s, gone).fault <==>
              s.fault || exists i :: 0 <= i < |gone| && !(gone[i].0 in s.mapped && s.mapped[gone[i].0] == gone[i].1)
  {
    if i :| 0 <= i < |gone| && !(gone[i].0 in s.mapped && s.mapped[gone[i].0] == gone[i].1) {
      MismatchFaults(s.mapped, gone, i);
    } else {
      MatchingIsFine(s.mapped, gone);
    }
  }

  /** Freeing the token of a frame goes wrong exactly when one of its buffers is 4096 bytes or longer. */
  lemma FreeFaultsIff(mapped: map<nat, nat>, bufs: seq<Mapping>)
    requires 0 < |bufs| <= 2 * MAX_PTRS && Distinct(bufs) && forall i :: 0 <= i < |bufs| ==> bufs[i].0 !in mapped
    ensures UnmapAll(MapAll(mapped, bufs), ReadTxp(WriteTxp(bufs, false), 0, false)).1
       <==> exists i :: 0 <= i < |bufs| && bufs[i].1 >= LEN_MASK
  {
    RoundTrip(bufs, false);
    RoundTripIff(bufs, false);
    if i :| 0 <= i < |bufs| && bufs[i].1 >= LEN_MASK {
      TimesMember(bufs, i);
      MapAllAdds(mapped, bufs, bufs[i]);
      MismatchFaults(MapAll(mapped, bufs), Masked(bufs), i);
    } else {
      forall p: Mapping ensures Times(bufs, p) <= In(MapAll(mapped, bufs), p) {
        MapAllAdds(mapped, bufs, p);
      }
      UnmapAllRemoves(MapAll(mapped, bufs), bufs);
    }
  }

  lemma {:induction false} TimesMember(bufs: seq<Mapping>, i: nat)
    requires i < |bufs|
    ensures Times(bufs, bufs[i]) > 0
    decreases |bufs|
  {
    if i > 0 {
      TimesMember(bufs[1..], i - 1);
    }
  }
}
