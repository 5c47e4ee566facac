/** The hardware transmit descriptor list of mt76_connac_mac.c: the writer, the reader that unmaps, and their round trip. */
module Txp {

  /** A DMA mapping: address and length. */
  type Mapping = (nat, nat)

  datatype Ptr = Ptr(buf0: nat, len0: nat, buf1: nat, len1: nat)

  const EMPTY := Ptr(0, 0, 0, 0)

  /** `struct mt76_connac_hw_txp` has room for four buffers. */
  const MAX_PTRS := 2

  const LEN_MASK := 0x1000

  /** Which LAST bits the writer sets and which one the reader tests: bit 15 alone on connac2, bits 15 and 14
      and then bit 14 on later chips. */
  function LenField(len: nat, last: bool, later: bool): (x: nat)
    ensures x < 0x10000
  {
    len % LEN_MASK + if !last then 0 else if later then 0xC000 else 0x8000
  }

  predicate IsLast(x: nat, later: bool) {
    (x / (if later then 0x4000 else 0x8000)) % 2 == 1
  }

  lemma LenFieldParts(len: nat, last: bool, later: bool)
    ensures IsLast(LenField(len, last, later), later) == last
    ensures LenField(len, last, later) % LEN_MASK == len % LEN_MASK
  {
  }

  /** The length field bit by bit: twelve bits of length, bit 15 on the last buffer, and there bit 14 on later chips. */
  lemma LenFieldBits(len: nat, last: bool, later: bool)
    ensures var x := LenField(len, last, later);
            && x % 0x1000 == len % 0x1000 && (x / 0x1000) % 4 == 0
            && (x / 0x8000 == 1 <==> last) && ((x / 0x4000) % 2 == 1 <==> last && later)
  {
  }

  /** What the writer leaves in pair `k`, from an all-zero list. */
  function Written(bufs: seq<Mapping>, k: nat, later: bool): Ptr {
    var i := 2 * k;
    if i >= |bufs| then EMPTY
    else if i + 1 == |bufs| then Ptr(bufs[i].0, LenField(bufs[i].1, true, later), 0, 0)
    else Ptr(bufs[i].0, LenField(bufs[i].1, false, later), bufs[i + 1].0, LenField(bufs[i + 1].1, i + 2 == |bufs|, later))
  }

  /** `mt76_connac_write_hw_txp`, after the list has been zeroed. */
  function WriteTxp(bufs: seq<Mapping>, later: bool): (ptrs: seq<Ptr>)
    ensures |ptrs| == MAX_PTRS
  {
    seq(MAX_PTRS, k requires 0 <= k < MAX_PTRS => Written(bufs, k, later))
  }

  /** The calls of `dma_unmap_single` in `mt76_connac_txp_skb_unmap_hw`, from pair `i` on. */
  function ReadTxp(ptrs: seq<Ptr>, i: nat, later: bool): seq<Mapping>
    decreases |ptrs| - i
  {
    if i >= |ptrs| then
      []
    else
      var p := ptrs[i];
      [(p.buf0, p.len0 % LEN_MASK)] +
      if IsLast(p.len0, later) then []
      else [(p.buf1, p.len1 % LEN_MASK)] + if IsLast(p.len1, later) then [] else ReadTxp(ptrs, i + 1, later)
  }

  function Masked(bufs: seq<Mapping>): (ms: seq<Mapping>)
    ensures |ms| == |bufs|
  {
    seq(|bufs|, i requires 0 <= i < |bufs| => (bufs[i].0, bufs[i].1 % LEN_MASK))
  }

  lemma {:induction false} ReadsFrom(bufs: seq<Mapping>, k: nat, later: bool)
    requires 2 * k < |bufs| <= 2 * MAX_PTRS
    ensures ReadTxp(WriteTxp(bufs, later), k, later) == Masked(bufs)[2 * k..]
    decreases |bufs| - 2 * k
  {
    var i := 2 * k;
    var ms := Masked(bufs);
    LenFieldParts(bufs[i].1, i + 1 == |bufs|, later);
    if i + 1 == |bufs| {
      assert ms[i..] == [ms[i]];
    } else {
      LenFieldParts(bufs[i + 1].1, i + 2 == |bufs|, later);
      hide LenField, IsLast;
      if i + 2 == |bufs| {
        assert ms[i..] == [ms[i]] + [ms[i + 1]];
      } else {
        ReadsFrom(bufs, k + 1, later);
        assert ms[i..] == [ms[i]] + ([ms[i + 1]] + ms[i + 2..]);
      }
    }
  }

  /** The reader visits exactly the buffers the writer stored, in order, with the masked lengths. */
  lemma RoundTrip(bufs: seq<Mapping>, later: bool)
    requires 0 < |bufs| <= 2 * MAX_PTRS
    ensures ReadTxp(WriteTxp(bufs, later), 0, later) == Masked(bufs)
  {
    ReadsFrom(bufs, 0, later);
  }

  /** So every mapping is undone with its own length exactly when no buffer is 4096 bytes or longer. */
  lemma RoundTripIff(bufs: seq<Mapping>, later: bool)
    requires 0 < |bufs| <= 2 * MAX_PTRS
    ensures ReadTxp(WriteTxp(bufs, later), 0, later) == bufs <==> forall i :: 0 <= i < |bufs| ==> bufs[i].1 < LEN_MASK
  {
    RoundTrip(bufs, later);
    forall i | 0 <= i < |bufs| ensures Masked(bufs)[i] == bufs[i] <==> bufs[i].1 < LEN_MASK {
    }
  }

  /** Bit 14 of a length field on later chips, bit 15 on connac2. */
  predicate Bit(x: nat, later: bool) {
    if later then (x / 0x4000) % 2 == 1 else (x / 0x8000) % 2 == 1
  }

  /** Address and length field of the first or the second half of a pair. */
  function Half(p: Ptr, second: bool): (nat, nat) {
    if second then (p.buf1, p.len1) else (p.buf0, p.len0)
  }

  /** The written list place by place: the buffers in order, bit 15 on the last one alone, the rest all zero. */
  lemma WrittenPlaces(bufs: seq<Mapping>, later: bool, k: nat, second: bool)
    requires |bufs| <= 2 * MAX_PTRS && k < MAX_PTRS
    ensures var i, (a, x) := 2 * k + if second then 1 else 0, Half(WriteTxp(bufs, later)[k], second);
            if i >= |bufs| then a == 0 && x == 0
            else
              && a == bufs[i].0 && x % 0x1000 == bufs[i].1 % 0x1000
              && (Bit(x, false) <==> i + 1 == |bufs|) && (Bit(x, true) <==> i + 1 == |bufs| && later)
  {
    var i := 2 * k + if second then 1 else 0;
    if i < |bufs| {
      LenFieldBits(bufs[i].1, i + 1 == |bufs|, later);
      hide LenField;
    }
  }

  /** Of any list the reader takes the places in order, from pair `i` up to the first with the LAST bit. */
  lemma {:induction false} ReadsToLast(ptrs: seq<Ptr>, i: nat, later: bool, k: nat, second: bool)
    requires i <= k < |ptrs| && 2 * (k - i) + (if second then 1 else 0) < |ReadTxp(ptrs, i, later)|
    ensures var bufs, (a, x) := ReadTxp(ptrs, i, later), Half(ptrs[k], second);
            var j := 2 * (k - i) + if second then 1 else 0;
            && bufs[j] == (a, x % 0x1000)
            && (j == |bufs| - 1 <==> Bit(x, later) || (second && k == |ptrs| - 1))
    decreases |ptrs| - i
  {
    LastIsBit(ptrs[i], later);
    hide IsLast, Bit;
    if i < k {
      ReadsToLast(ptrs, i + 1, later, k, second);
    }
  }

  lemma LastIsBit(p: Ptr, later: bool)
    ensures IsLast(p.len0, later) == Bit(p.len0, later) && IsLast(p.len1, later) == Bit(p.len1, later)
  {
  }

  /** The list in the txwi cache: two pairs. */
  class HwTxp {
    const ptr: array<Ptr>

    constructor ()
      ensures fresh(ptr) && ptr.Length == MAX_PTRS && ptr[..] == [EMPTY, EMPTY]
    {
      ptr := new Ptr[MAX_PTRS](_ => EMPTY);
    }

    /** `mt76_connac_write_hw_txp`: `buf[0]` is the txwi itself and stays out of the list. */
    method Write(buf: seq<Mapping>, later: bool)
      requires ptr.Length == MAX_PTRS && ptr[..] == [EMPTY, EMPTY] && 1 <= |buf| <= 1 + 2 * MAX_PTRS
      modifies ptr
      ensures ptr[..] == WriteTxp(buf[1..], later)
    {
      var nbuf, p := |buf| - 1, 0;
      ghost var bufs := buf[1..];
      for i := 0 to nbuf
        invariant p == i / 2
        invariant forall k :: 0 <= k < MAX_PTRS ==> ptr[k] == Partly(bufs, i, k, later)
      {
        assert bufs[i] == buf[i + 1];
        var len := LenField(buf[i + 1].1, i == nbuf - 1, later);
        if i % 2 == 1 {
          ptr[p] := ptr[p].(buf1 := buf[i + 1].0, len1 := len);
          p := p + 1;
        } else {
          ptr[p] := ptr[p].(buf0 := buf[i + 1].0, len0 := len);
        }
      }
      assert forall k :: 0 <= k < MAX_PTRS ==> ptr[k] == Written(bufs, k, later);
    }

    /** `mt76_connac_txp_skb_unmap_hw`. */
    method Unmap(later: bool) returns (unmaps: seq<Mapping>)
      requires ptr.Length == MAX_PTRS
      ensures unmaps == ReadTxp(ptr[..], 0, later)
    {
      unmaps := [];
      hide IsLast, ReadTxp;
      for i := 0 to MAX_PTRS
        invariant ReadTxp(ptr[..], 0, later) == unmaps + ReadTxp(ptr[..], i, later)
      {
        ReadStep(ptr[..], i, later, unmaps);
        var p := ptr[i];
        unmaps := unmaps + [(p.buf0, p.len0 % LEN_MASK)];
        if IsLast(p.len0, later) {
          return;
        }
        unmaps := unmaps + [(p.buf1, p.len1 % LEN_MASK)];
        if IsLast(p.len1, later) {
          return;
        }
      }
      ReadEnds(ptr[..], later, unmaps);
    }
  }

  lemma ReadStep(ptrs: seq<Ptr>, i: nat, later: bool, sofar: seq<Mapping>)
    requires i < |ptrs|
    ensures var p := ptrs[i];
            var one := sofar + [(p.buf0, p.len0 % LEN_MASK)];
            var two := one + [(p.buf1, p.len1 % LEN_MASK)];
            sofar + ReadTxp(ptrs, i, later)
            == if IsLast(p.len0, later) then one else if IsLast(p.len1, later) then two else two + ReadTxp(ptrs, i + 1, later)
  {
    hide IsLast;
  }

  lemma ReadEnds(ptrs: seq<Ptr>, later: bool, sofar: seq<Mapping>)
    ensures sofar + ReadTxp(ptrs, |ptrs|, later) == sofar
  {
  }

  /** Pair `k` after the first `i` buffers have been written. */
  ghost function Partly(bufs: seq<Mapping>, i: nat, k: nat, later: bool): Ptr
    requires i <= |bufs|
  {
    if 2 * k + 1 < i then Written(bufs, k, later)
    else if 2 * k < i then Ptr(bufs[2 * k].0, LenField(bufs[2 * k].1, 2 * k == |bufs| - 1, later), 0, 0)
    else EMPTY
  }
}
