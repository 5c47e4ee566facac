/** The station-update message of mt76_connac_mcu.c: a header with a count, records of tag and length, and inside the
    last record a second header with its own count and records. The writers update counts and lengths in place. */
module StaRec {
  import opened Basics

  /** A record: its length field is that of the four header bytes and the body. */
  datatype Tlv = Tlv(tag: nat, body: seq<Byte>)

  const HDR_SIZE: nat := 8
  const TLV_SIZE: nat := 4
  const STA_REC_WTBL: nat := 13
  const U16: nat := 0x10000

  function Le16(n: nat): (s: seq<Byte>)
    requires n < U16
    ensures |s| == 2
  {
    [n % 256, n / 256]
  }

  function Get16(s: seq<Byte>, o: nat): (n: nat)
    requires o + 2 <= |s|
    ensures n < U16
  {
    var lo: nat, hi: nat := s[o], s[o + 1];
    lo + 256 * hi
  }

  /** Stores a 16-bit value in place. */
  function Put16(s: seq<Byte>, o: nat, n: nat): (t: seq<Byte>)
    requires o + 2 <= |s| && n < U16
    ensures |t| == |s|
  {
    s[..o] + Le16(n) + s[o + 2..]
  }

  lemma GetLe(a: seq<Byte>, n: nat, b: seq<Byte>)
    requires n < U16
    ensures Get16(a + Le16(n) + b, |a|) == n
  {
    var s := a + Le16(n) + b;
    assert s[|a|] == n % 256 && s[|a| + 1] == n / 256;
  }

  lemma PutLe(a: seq<Byte>, n: nat, b: seq<Byte>, m: nat)
    requires n < U16 && m < U16
    ensures Put16(a + Le16(n) + b, |a|, m) == a + Le16(m) + b
  {
  }

  predicate Fits16(t: Tlv) {
    t.tag < U16 && TLV_SIZE + |t.body| < U16
  }

  function Bytes(t: Tlv): (s: seq<Byte>)
    requires Fits16(t)
    ensures |s| == TLV_SIZE + |t.body|
  {
    Le16(t.tag) + Le16(TLV_SIZE + |t.body|) + t.body
  }

  ghost predicate AllFit(ts: seq<Tlv>) {
    forall t <- ts :: Fits16(t)
  }

  function Cat(ts: seq<Tlv>): seq<Byte>
    requires AllFit(ts)
  {
    if ts == [] then [] else Cat(ts[..|ts| - 1]) + Bytes(ts[|ts| - 1])
  }

  function Size(ts: seq<Tlv>): nat {
    if ts == [] then 0 else Size(ts[..|ts| - 1]) + TLV_SIZE + |ts[|ts| - 1].body|
  }

  lemma {:induction false} CatSize(ts: seq<Tlv>)
    requires AllFit(ts)
    ensures |Cat(ts)| == Size(ts)
    decreases |ts|
  {
    if ts != [] {
      CatSize(ts[..|ts| - 1]);
    }
  }

  lemma CatMore(ts: seq<Tlv>, t: Tlv)
    requires AllFit(ts) && Fits16(t)
    ensures AllFit(ts + [t]) && Cat(ts + [t]) == Cat(ts) + Bytes(t) && Size(ts + [t]) == Size(ts) + TLV_SIZE + |t.body|
  {
    assert (ts + [t])[..|ts|] == ts;
  }

  /** `sta_req_hdr` and `wtbl_req_hdr`: both keep their count in bytes 2 and 3. */
  function Header(first: seq<Byte>, count: nat, last: seq<Byte>): (h: seq<Byte>)
    requires |first| == 2 && |last| == 4 && count < U16
    ensures |h| == HDR_SIZE
  {
    first + Le16(count) + last
  }

  /** The message as a value: the fixed header bytes, the outer records, and those of the WTBL record. */
  datatype Message = Message(first: seq<Byte>, last: seq<Byte>, outer: seq<Tlv>, wfirst: seq<Byte>, wlast: seq<Byte>, nested: seq<Tlv>)

  ghost predicate ValidMessage(m: Message) {
    && |m.first| == |m.wfirst| == 2 && |m.last| == |m.wlast| == 4
    && AllFit(m.outer) && AllFit(m.nested)
    && |m.outer| + 1 < U16 && |m.nested| < U16 && TLV_SIZE + HDR_SIZE + Size(m.nested) < U16
  }

  function WtblBody(m: Message): seq<Byte>
    requires ValidMessage(m)
  {
    Header(m.wfirst, |m.nested|, m.wlast) + Cat(m.nested)
  }

  /** The bytes of a message, with every count and length right. */
  function Encode(m: Message): seq<Byte>
    requires ValidMessage(m)
  {
    CatSize(m.nested);
    Header(m.first, |m.outer| + 1, m.last) + Cat(m.outer) + Bytes(Tlv(STA_REC_WTBL, WtblBody(m)))
  }

  /** The bytes of a message, written out: counts, tags and lengths with the low byte first, the tag before the length,
      the WTBL record last. */
  lemma MessageBytes(m: Message)
    requires ValidMessage(m)
    ensures var c, n, len := |m.outer| + 1, |m.nested|, 12 + Size(m.nested);
            Encode(m) == m.first + [c % 256, c / 256] + m.last + Cat(m.outer)
                         + ([13, 0, len % 256, len / 256] + (m.wfirst + [n % 256, n / 256] + m.wlast + Cat(m.nested)))
  {
    CatSize(m.nested);
  }

  lemma RecordBytes(ts: seq<Tlv>, t: Tlv)
    requires AllFit(ts) && Fits16(t)
    ensures var len := 4 + |t.body|;
            && AllFit(ts + [t])
            && Cat(ts + [t]) == Cat(ts) + ([t.tag % 256, t.tag / 256, len % 256, len / 256] + t.body)
  {
    CatMore(ts, t);
  }

  // ---- the reader ----

  function Walk(s: seq<Byte>): Option<seq<Tlv>>
    decreases |s|
  {
    if s == [] then Some([])
    else if |s| < TLV_SIZE then None
    else
      var len := Get16(s, 2);
      if len < TLV_SIZE || len > |s| then None
      else
        var rest := Walk(s[len..]);
        if rest.None? then None else Some([Tlv(Get16(s, 0), s[TLV_SIZE..len])] + rest.value)
  }

  function Decode(s: seq<Byte>): Option<Message> {
    if |s| < HDR_SIZE then None
    else
      var ts := Walk(s[HDR_SIZE..]);
      if ts.None? || ts.value == [] || |ts.value| != Get16(s, 2) then None
      else
        var n := |ts.value| - 1;
        var w := ts.value[n];
        if w.tag != STA_REC_WTBL || |w.body| < HDR_SIZE then None
        else
          var ns := Walk(w.body[HDR_SIZE..]);
          if ns.None? || |ns.value| != Get16(w.body, 2) then None
          else Some(Message(s[..2], s[4..8], ts.value[..n], w.body[..2], w.body[4..8], ns.value))
  }

  lemma WalkOne(t: Tlv, rest: seq<Byte>)
    requires Fits16(t)
    ensures var r := Walk(rest);
            Walk(Bytes(t) + rest) == if r.None? then None else Some([t] + r.value)
  {
    var s := Bytes(t) + rest;
    GetLe([], t.tag, Le16(TLV_SIZE + |t.body|) + t.body + rest);
    GetLe(Le16(t.tag), TLV_SIZE + |t.body|, t.body + rest);
    assert s == [] + Le16(t.tag) + (Le16(TLV_SIZE + |t.body|) + t.body + rest);
    assert s == Le16(t.tag) + Le16(TLV_SIZE + |t.body|) + (t.body + rest);
    assert s[TLV_SIZE + |t.body|..] == rest && s[TLV_SIZE..TLV_SIZE + |t.body|] == t.body;
  }

  lemma SplitLast(ts: seq<Tlv>, rest: seq<Byte>, v: seq<Tlv>)
    requires AllFit(ts) && ts != []
    ensures var n := |ts| - 1;
            Cat(ts) + rest == Cat(ts[..n]) + (Bytes(ts[n]) + rest) && ts[..n] + ([ts[n]] + v) == ts + v
  {
    var n := |ts| - 1;
    hide Bytes;
    Assoc(Cat(ts[..n]), Bytes(ts[n]), rest);
    Assoc(ts[..n], [ts[n]], v);
    assert ts[..n] + [ts[n]] == ts;
  }

  lemma {:induction false} WalkCat(ts: seq<Tlv>, rest: seq<Byte>)
    requires AllFit(ts) && Walk(rest).Some?
    ensures Walk(Cat(ts) + rest).Some? && Walk(Cat(ts) + rest).value == ts + Walk(rest).value
    decreases |ts|
  {
    if ts == [] {
      assert Cat(ts) + rest == rest;
    } else {
      var n := |ts| - 1;
      WalkOne(ts[n], rest);
      hide Walk, Bytes;
      WalkCat(ts[..n], Bytes(ts[n]) + rest);
      SplitLast(ts, rest, Walk(rest).value);
    }
  }

  lemma WalkAll(ts: seq<Tlv>)
    requires AllFit(ts)
    ensures Walk(Cat(ts)) == Some(ts)
  {
    WalkCat(ts, []);
    assert Cat(ts) + [] == Cat(ts);
    assert ts + [] == ts;
  }

  lemma HeaderParts(first: seq<Byte>, count: nat, last: seq<Byte>, rest: seq<Byte>)
    requires |first| == 2 && |last| == 4 && count < U16
    ensures var s := Header(first, count, last) + rest;
            Get16(s, 2) == count && s[..2] == first && s[4..8] == last && s[HDR_SIZE..] == rest
  {
    var s := Header(first, count, last) + rest;
    assert s == first + Le16(count) + (last + rest);
    GetLe(first, count, last + rest);
  }

  /** Reading the message by its lengths gives back the records that were added, at both levels. */
  lemma DecodeEncode(m: Message)
    requires ValidMessage(m)
    ensures Decode(Encode(m)) == Some(m)
  {
    CatSize(m.nested);
    var body := WtblBody(m);
    var w := Tlv(STA_REC_WTBL, body);
    OuterRecords(m, w);
    HeaderParts(m.wfirst, |m.nested|, m.wlast, Cat(m.nested));
    WalkAll(m.nested);
    hide Walk, Cat, Header, Bytes;
    assert (m.outer + [w])[..|m.outer|] == m.outer;
  }

  lemma OuterRecords(m: Message, w: Tlv)
    requires ValidMessage(m) && w == Tlv(STA_REC_WTBL, WtblBody(m)) && Fits16(w)
    ensures var s := Encode(m);
            && |s| >= HDR_SIZE && Get16(s, 2) == |m.outer| + 1 && s[..2] == m.first && s[4..8] == m.last
            && Walk(s[HDR_SIZE..]) == Some(m.outer + [w])
  {
    LastRecord(w);
    CatSize(m.nested);
    hide Walk, Cat, Bytes, WtblBody;
    var h := Header(m.first, |m.outer| + 1, m.last);
    WalkCat(m.outer, Bytes(w));
    HeaderParts(m.first, |m.outer| + 1, m.last, Cat(m.outer) + Bytes(w));
    Assoc(h, Cat(m.outer), Bytes(w));
  }

  lemma LastRecord(w: Tlv)
    requires Fits16(w)
    ensures Walk(Bytes(w)) == Some([w])
  {
    WalkOne(w, []);
    assert Bytes(w) + [] == Bytes(w);
    assert [w] + [] == [w];
  }

  lemma LeOfGet(s: seq<Byte>, o: nat)
    requires o + 2 <= |s|
    ensures Le16(Get16(s, o)) == s[o..o + 2]
  {
    var lo: nat, hi: nat := s[o], s[o + 1];
    assert Get16(s, o) % 256 == lo && Get16(s, o) / 256 == hi;
  }

  lemma CatFirst(t: Tlv, ts: seq<Tlv>)
    requires Fits16(t) && AllFit(ts)
    ensures AllFit([t] + ts) && Cat([t] + ts) == Bytes(t) + Cat(ts)
    decreases |ts|
  {
    var all := [t] + ts;
    if ts == [] {
      assert all == [] + [t];
      CatMore([], t);
      assert Cat([]) + Bytes(t) == Bytes(t) + Cat([]);
    } else {
      var n := |ts| - 1;
      CatFirst(t, ts[..n]);
      assert all[..n + 1] == [t] + ts[..n] && ts[..n] + [ts[n]] == ts;
      assert all == ([t] + ts[..n]) + [ts[n]];
      CatMore([t] + ts[..n], ts[n]);
      CatMore(ts[..n], ts[n]);
      Assoc(Bytes(t), Cat(ts[..n]), Bytes(ts[n]));
    }
  }

  /** What the reader takes for one record is a record's bytes. */
  lemma FrontIsRecord(s: seq<Byte>)
    requires |s| >= TLV_SIZE && TLV_SIZE <= Get16(s, 2) <= |s|
    ensures var len := Get16(s, 2);
            var t := Tlv(Get16(s, 0), s[TLV_SIZE..len]);
            Fits16(t) && Bytes(t) + s[len..] == s
  {
    LeOfGet(s, 0);
    LeOfGet(s, 2);
    var len := Get16(s, 2);
    assert s[0..2] + s[2..4] + s[4..len] + s[len..] == s;
  }

  lemma {:induction false} CatWalk(s: seq<Byte>)
    requires Walk(s).Some?
    ensures AllFit(Walk(s).value) && Cat(Walk(s).value) == s
    decreases |s|
  {
    if s != [] {
      var len := Get16(s, 2);
      FrontIsRecord(s);
      CatWalk(s[len..]);
      hide Bytes, Get16, Fits16;
      CatFirst(Tlv(Get16(s, 0), s[TLV_SIZE..len]), Walk(s[len..]).value);
    }
  }

  lemma HeaderIs(s: seq<Byte>)
    requires |s| >= HDR_SIZE
    ensures Header(s[..2], Get16(s, 2), s[4..8]) + s[HDR_SIZE..] == s
  {
    LeOfGet(s, 2);
  }

  /** A header whose count is right, and the records behind it, are those the reader takes them for. */
  lemma BlockIs(s: seq<Byte>, ts: seq<Tlv>)
    requires |s| >= HDR_SIZE && Walk(s[HDR_SIZE..]) == Some(ts) && |ts| == Get16(s, 2)
    ensures AllFit(ts) && |s| == HDR_SIZE + Size(ts) && Header(s[..2], |ts|, s[4..8]) + Cat(ts) == s
  {
    CatWalk(s[HDR_SIZE..]);
    CatSize(ts);
    HeaderIs(s);
  }

  /** And the other way round: whatever the reader accepts is, byte for byte, the encoding of what it reads. */
  lemma EncodeDecode(s: seq<Byte>)
    requires Decode(s).Some?
    ensures ValidMessage(Decode(s).value) && Encode(Decode(s).value) == s
  {
    var m, ts := Decode(s).value, Walk(s[HDR_SIZE..]).value;
    var n := |ts| - 1;
    var w := ts[n];
    assert m.outer + [w] == ts && m.nested == Walk(w.body[HDR_SIZE..]).value && w.tag == STA_REC_WTBL;
    assert |ts| == Get16(s, 2) && |m.nested| == Get16(w.body, 2);
    assert m == Message(s[..2], s[4..8], m.outer, w.body[..2], w.body[4..8], m.nested);
    hide Walk, Bytes, Header, Decode;
    BlockIs(s, ts);
    BlockIs(w.body, m.nested);
    hide Get16;
    assert Fits16(w) && AllFit(m.outer);
    assert WtblBody(m) == w.body;
    hide WtblBody;
    CatMore(m.outer, w);
    Assoc(Header(m.first, |m.outer| + 1, m.last), Cat(m.outer), Bytes(w));
  }
}
