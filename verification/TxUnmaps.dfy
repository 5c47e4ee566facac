/** What the ring entries of a packet amount to when they are completed: which mappings they undo, and what they hand
    to the driver. */
module TxUnmaps {
  import opened Basics
  import opened TxRing

  /** The mappings that the entries of a packet must undo: its buffers but those marked, and the first one of a frame
      with a txwi, whose memory belongs to the txwi cache. */
  function Owned(bufs: seq<Buf>, txwi: Txwi): seq<(nat, nat)> {
    if bufs == [] then [] else Owned(bufs[..|bufs| - 1], txwi) + OwnedOne(bufs, |bufs| - 1, txwi)
  }

  function OwnedOne(bufs: seq<Buf>, i: nat, txwi: Txwi): seq<(nat, nat)>
    requires i < |bufs|
  {
    if bufs[i].skipUnmap || (i == 0 && txwi.Txwi?) then [] else [(bufs[i].addr, bufs[i].len)]
  }

  lemma OwnedMore(bufs: seq<Buf>, n: nat, txwi: Txwi)
    requires n < |bufs|
    ensures Owned(bufs[..n + 1], txwi) == Owned(bufs[..n], txwi) + OwnedOne(bufs, n, txwi)
  {
    assert bufs[..n + 1][..n] == bufs[..n];
  }

  /** What one entry undoes. */
  lemma PairOwns(bufs: seq<Buf>, k: nat, txwi: Txwi, info: nat)
    requires 2 * k < |bufs|
    ensures Unmaps(Pair(bufs, k, txwi.Txwi?, info).entry)
         == OwnedOne(bufs, 2 * k, txwi) + if 2 * k + 1 < |bufs| then OwnedOne(bufs, 2 * k + 1, txwi) else []
  {
  }

  lemma UnmapsMore(ss: seq<Slot>, slot: Slot)
    ensures AllUnmaps(ss + [slot]) == AllUnmaps(ss) + Unmaps(slot.entry)
  {
    assert (ss + [slot])[..|ss|] == ss;
  }

  lemma PairsUnmapNext(bufs: seq<Buf>, k: nat, txwi: Txwi, info: nat)
    requires 2 * k < |bufs| && AllUnmaps(Pairs(bufs, k, txwi.Txwi?, info)) == Owned(bufs[..2 * k], txwi)
    ensures AllUnmaps(Pairs(bufs, k + 1, txwi.Txwi?, info)) == Owned(bufs[..PairEnd(bufs, k + 1)], txwi)
  {
    hide Pairs, Pair, AllUnmaps, Unmaps, Owned, OwnedOne;
    PairsMore(bufs, k, txwi.Txwi?, info);
    UnmapsMore(Pairs(bufs, k, txwi.Txwi?, info), Pair(bufs, k, txwi.Txwi?, info));
    PairOwns(bufs, k, txwi, info);
    OwnedPair(bufs, k, txwi);
  }

  /** How many buffers the first `k` pairs take. */
  function PairEnd(bufs: seq<Buf>, k: nat): (n: nat)
    ensures n <= |bufs|
  {
    if 2 * k <= |bufs| then 2 * k else |bufs|
  }

  lemma {:induction false} PairsUnmap(bufs: seq<Buf>, k: nat, txwi: Txwi, info: nat)
    requires k <= Slots(|bufs|)
    ensures AllUnmaps(Pairs(bufs, k, txwi.Txwi?, info)) == Owned(bufs[..PairEnd(bufs, k)], txwi)
    decreases k
  {
    assert k == 0 ==> AllUnmaps(Pairs(bufs, k, txwi.Txwi?, info)) == [] == Owned(bufs[..PairEnd(bufs, k)], txwi);
    hide Pairs, AllUnmaps, Owned;
    if k > 0 {
      PairsUnmap(bufs, k - 1, txwi, info);
      PairsUnmapNext(bufs, k - 1, txwi, info);
    }
  }

  lemma PairsMore(bufs: seq<Buf>, k: nat, dummy: bool, info: nat)
    requires k < Slots(|bufs|)
    ensures Pairs(bufs, k + 1, dummy, info) == Pairs(bufs, k, dummy, info) + [Pair(bufs, k, dummy, info)]
  {
    hide Pair;
  }

  lemma OwnedPair(bufs: seq<Buf>, k: nat, txwi: Txwi)
    requires 2 * k < |bufs|
    ensures Owned(bufs[..PairEnd(bufs, k + 1)], txwi)
         == Owned(bufs[..2 * k], txwi)
              + (OwnedOne(bufs, 2 * k, txwi) + if 2 * k + 1 < |bufs| then OwnedOne(bufs, 2 * k + 1, txwi) else [])
  {
    var a, b := Owned(bufs[..2 * k], txwi), OwnedOne(bufs, 2 * k, txwi);
    OwnedMore(bufs, 2 * k, txwi);
    if 2 * k + 1 < |bufs| {
      OwnedMore(bufs, 2 * k + 1, txwi);
      Assoc(a, b, OwnedOne(bufs, 2 * k + 1, txwi));
    }
    hide Owned, OwnedOne;
    assert b + [] == b;
  }

  lemma UnmapsLast(ss: seq<Slot>, slot: Slot, slot': Slot)
    requires Unmaps(slot.entry) == Unmaps(slot'.entry)
    ensures AllUnmaps(ss + [slot]) == AllUnmaps(ss + [slot'])
  {
    UnmapsMore(ss, slot);
    UnmapsMore(ss, slot');
  }

  /** The entries of a packet undo exactly the mappings it owns, in buffer order and each with its address and length. */
  lemma PacketUnmaps(bufs: seq<Buf>, info: nat, skb: Option<nat>, txwi: Txwi)
    requires |bufs| > 0
    ensures AllUnmaps(Packet(bufs, info, skb, txwi)) == Owned(bufs, txwi)
  {
    var n := Slots(|bufs|);
    var s := Pairs(bufs, n, txwi.Txwi?, info);
    PacketParts(bufs, info, skb, txwi);
    assert bufs[..PairEnd(bufs, n)] == bufs;
    hide Pairs, Packet, AllUnmaps, Owned, Unmaps;
    UnmapsLast(s[..n - 1], s[n - 1], s[n - 1].(entry := s[n - 1].entry.(txwi := txwi, skb := skb)));
    PairsUnmap(bufs, n, txwi, info);
  }

  lemma PacketParts(bufs: seq<Buf>, info: nat, skb: Option<nat>, txwi: Txwi)
    requires |bufs| > 0
    ensures var n := Slots(|bufs|);
            var s := Pairs(bufs, n, txwi.Txwi?, info);
            var last := s[n - 1].(entry := s[n - 1].entry.(txwi := txwi, skb := skb));
            && s == s[..n - 1] + [s[n - 1]] && Packet(bufs, info, skb, txwi) == s[..n - 1] + [last]
            && Unmaps(last.entry) == Unmaps(s[n - 1].entry)
  {
    hide Pair;
  }

  /** The skb and txwi of a packet hang on its last entry alone; the first of several entries of a frame with a txwi
      carries the mark of a borrowed buffer. */
  lemma PacketMarks(bufs: seq<Buf>, info: nat, skb: Option<nat>, txwi: Txwi, i: nat)
    requires |bufs| > 0 && i < Slots(|bufs|)
    ensures var e := Packet(bufs, info, skb, txwi)[i].entry;
            if i + 1 == Slots(|bufs|) then e.skb == skb && e.txwi == txwi
            else e.skb == None && e.txwi == if i == 0 && txwi.Txwi? then Dummy else NoTxwi
    ensures Packet(bufs, info, skb, txwi)[i].desc.info == info
  {
  }

  /** So they are completed once, and the mark never reaches the driver. */
  lemma PacketCompletes(bufs: seq<Buf>, info: nat, skb: Option<nat>, txwi: Txwi, i: nat)
    requires |bufs| > 0 && txwi != Dummy && i < Slots(|bufs|)
    ensures var e := Completed(Packet(bufs, info, skb, txwi))[i];
            if i + 1 == Slots(|bufs|) then e.skb == skb && e.txwi == txwi else e.skb == None && e.txwi == NoTxwi
  {
    PacketMarks(bufs, info, skb, txwi, i);
    hide Packet;
  }
}
