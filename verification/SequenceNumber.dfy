/** 12-bit sequence-number arithmetic of IEEE 802.11, as mac80211 defines it for the driver. */
module SequenceNumber {

  const SN_MODULO: nat := 4096

  /** `a - b` on the circle of sequence numbers: how far `a` lies ahead of `b`. */
  function SnSub(a: int, b: int): nat {
    (a - b) % SN_MODULO
  }

  function SnInc(a: int): nat {
    (a + 1) % SN_MODULO
  }

  /** `a` is behind `b`; a distance of exactly half the circle does not count as behind. */
  predicate SnLess(a: int, b: int) {
    SnSub(a, b) > SN_MODULO / 2
  }

  /** A number in [base, base + 4096) is recovered from its residue and the residue of `base`. */
  lemma SnSubOfUnwrapped(u: nat, base: nat)
    requires base <= u < base + SN_MODULO
    ensures SnSub(u % SN_MODULO, base % SN_MODULO) == u - base
  {
  }

  lemma SnIncUnwrapped(u: nat)
    ensures SnInc(u % SN_MODULO) == (u + 1) % SN_MODULO
  {
  }

  /** Slots survive the wrap only because the window size divides 4096. */
  lemma SlotOfUnwrapped(u: nat, size: nat)
    requires 0 < size && SN_MODULO % size == 0
    ensures (u % SN_MODULO) % size == u % size
  {
    var k := SN_MODULO / size;
    var q := u / SN_MODULO;
    assert SN_MODULO == k * size;
    assert u == q * SN_MODULO + u % SN_MODULO;
    assert q * SN_MODULO == (q * k) * size;
    AddMultiple(u % SN_MODULO, q * k, size);
  }

  lemma AddMultiple(a: nat, m: nat, size: nat)
    requires 0 < size
    ensures (m * size + a) % size == a % size
    decreases m
  {
    if m == 0 {
    } else {
      AddMultiple(a, m - 1, size);
      assert m * size + a == ((m - 1) * size + a) + size;
      AddOne((m - 1) * size + a, size);
    }
  }

  lemma AddOne(a: nat, size: nat)
    requires 0 < size
    ensures (a + size) % size == a % size
  {
    var q := a / size;
    assert a == q * size + a % size;
    assert a + size == (q + 1) * size + a % size;
    ModUnique(a + size, q + 1, a % size, size);
  }

  /** Distinct multiples of `size` differ by at least `size`. */
  lemma MultipleGap(q: int, p: int, size: nat)
    requires 0 < size && q < p
    ensures q * size + size <= p * size
  {
    var d := p - q;
    assert p * size == q * size + d * size by {
      assert (q + d) * size == q * size + d * size;
    }
    assert d * size >= 1 * size;
  }

  lemma QuotientUnique(q: int, r: nat, p: int, s: nat, size: nat)
    requires 0 < size && r < size && s < size
    requires q * size + r == p * size + s
    ensures q == p && r == s
  {
    if q < p {
      MultipleGap(q, p, size);
    } else if p < q {
      MultipleGap(p, q, size);
    }
  }

  lemma ModUnique(x: int, q: int, r: nat, size: nat)
    requires 0 < size && r < size && x == q * size + r
    ensures x % size == r && x / size == q
  {
    assert x == (x / size) * size + x % size;
    QuotientUnique(q, r, x / size, x % size, size);
  }

  /** Two numbers of one window of length `size` share a slot only when they are equal. */
  lemma SlotInjective(u: nat, v: nat, size: nat)
    requires 0 < size && u <= v < u + size && u % size == v % size
    ensures u == v
  {
    var r := u % size;
    assert u == (u / size) * size + r;
    assert v == (v / size) * size + r;
    if u / size < v / size {
      MultipleGap(u / size, v / size, size);
    } else if v / size < u / size {
      MultipleGap(v / size, u / size, size);
    }
  }

  /** Of the `size` numbers after `u`, only the last falls into the slot of `u`. */
  lemma SlotReuse(u: nat, v: nat, size: nat)
    requires 0 < size && u < v <= u + size
    ensures u % size == v % size <==> v == u + size
  {
    if v == u + size {
      AddOne(u, size);
    } else if u % size == v % size {
      SlotInjective(u, v, size);
    }
  }

  lemma SnSubFlip(a: nat, b: nat)
    requires a < SN_MODULO && b < SN_MODULO
    ensures SnSub(a, b) == (if SnSub(b, a) == 0 then 0 else SN_MODULO - SnSub(b, a))
  {
  }

  lemma AheadOf(uh: nat, seqno: nat)
    requires seqno < SN_MODULO
    ensures (uh + SnSub(seqno, uh % SN_MODULO)) % SN_MODULO == seqno
  {
  }

  lemma WindowDistance(uh: nat, d: nat, size: nat)
    requires 0 < d <= SN_MODULO / 2 && 0 < size <= SN_MODULO / 2
    ensures ((uh + d) % SN_MODULO - uh % SN_MODULO - size) % SN_MODULO
            == if d < size then d - size + SN_MODULO else d - size
  {
    var k := (uh + d) / SN_MODULO - uh / SN_MODULO;
    var a := (uh + d) % SN_MODULO;
    assert a - uh % SN_MODULO == d - k * SN_MODULO;
    if d < size {
      ModUnique(a - uh % SN_MODULO - size, -k - 1, d - size + SN_MODULO, SN_MODULO);
    } else {
      ModUnique(a - uh % SN_MODULO - size, -k, d - size, SN_MODULO);
    }
  }

  lemma FlushDistance(u: nat, size: nat)
    requires 0 < size <= u && size <= SN_MODULO / 2
    ensures SnInc(SnSub(u % SN_MODULO, size)) == (u - size + 1) % SN_MODULO
  {
    var v := u - size;
    ModUnique(u % SN_MODULO - size, v / SN_MODULO - u / SN_MODULO, v % SN_MODULO, SN_MODULO);
    SnIncUnwrapped(v);
  }

  /** A sequence number `d` ahead of the head lies inside the window exactly when `d < size`;
      otherwise the head must move to `size - 1` before it. */
  lemma WindowTest(uh: nat, d: nat, size: nat)
    requires 0 < d <= SN_MODULO / 2 && 0 < size <= SN_MODULO / 2
    ensures SnLess((uh + d) % SN_MODULO, uh % SN_MODULO + size) <==> d < size
    ensures d >= size ==> SnInc(SnSub((uh + d) % SN_MODULO, size)) == (uh + d - size + 1) % SN_MODULO
  {
    assert SnLess((uh + d) % SN_MODULO, uh % SN_MODULO + size) <==> d < size by {
      hide SnInc;
      WindowDistance(uh, d, size);
      var a := (uh + d) % SN_MODULO;
      var b := uh % SN_MODULO;
      assert a - (b + size) == a - b - size;
    }
    hide SnSub, SnInc, SnLess;
    if d >= size {
      FlushDistance(uh + d, size);
    }
  }

  lemma SnSubZero(a: nat, b: nat)
    requires a < SN_MODULO && b < SN_MODULO
    ensures SnSub(a, b) == 0 <==> a == b
  {
  }

  lemma NextMultiple(q: int, size: nat)
    ensures (q + 1) * size == q * size + size
  {
  }

  lemma SnSubInc(a: nat)
    requires a < SN_MODULO
    ensures SnSub(SnInc(a), a) == 1
  {
  }

  lemma SnLessStep(a: nat, b: nat)
    requires a < SN_MODULO && b < SN_MODULO && SnLess(a, b)
    ensures SnSub(b, SnInc(a)) < SnSub(b, a)
  {
    SnSubFlip(a, b);
  }

  lemma SnLessUnwrapped(u: nat, v: nat)
    requires u <= v < u + SN_MODULO / 2
    ensures SnLess(u % SN_MODULO, v % SN_MODULO) <==> u < v
  {
    SnSubOfUnwrapped(v, u);
    SnSubFlip(u % SN_MODULO, v % SN_MODULO);
  }
}
