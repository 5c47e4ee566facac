/** The writers of the station-update message, as they append to an skb and update counts and lengths in place,
    and `mt76_connac_mcu_sta_cmd`, which calls them. */
module StaCmd {
  import opened Basics
  import opened StaRec

  /** A message under construction: outer records only, then with the WTBL record open. */
  ghost predicate Building(data: seq<Byte>, m: Message, wtbl: bool) {
    && ValidMessage(m) && (!wtbl ==> m.nested == [])
    && data == if wtbl then Encode(m) else Header(m.first, |m.outer|, m.last) + Cat(m.outer)
  }

  /** Where the WTBL record starts. */
  function WtblOffset(m: Message): nat {
    HDR_SIZE + Size(m.outer)
  }

  lemma CountPut(first: seq<Byte>, n: nat, last: seq<Byte>, rest: seq<Byte>)
    requires |first| == 2 && |last| == 4 && n + 1 < U16
    ensures var s := Header(first, n, last) + rest;
            Get16(s, 2) == n && Put16(s, 2, n + 1) == Header(first, n + 1, last) + rest
  {
    var s := Header(first, n, last) + rest;
    HeaderParts(first, n, last, rest);
    assert s == first + Le16(n) + (last + rest);
    PutLe(first, n, last + rest, n + 1);
    assert Header(first, n + 1, last) + rest == first + Le16(n + 1) + (last + rest);
  }

  lemma OuterAdded(data: seq<Byte>, m: Message, t: Tlv)
    requires Building(data, m, false) && Fits16(t) && |m.outer| + 2 < U16
    ensures var s := AppendTlv(data, t);
            && |s| >= 4 && Get16(s, 2) == |m.outer|
            && Building(Put16(s, 2, |m.outer| + 1), m.(outer := m.outer + [t]), false)
  {
    var h := Header(m.first, |m.outer|, m.last);
    CatMore(m.outer, t);
    Assoc(h, Cat(m.outer), Bytes(t));
    CountPut(m.first, |m.outer|, m.last, Cat(m.outer) + Bytes(t));
  }

  /** A message with its WTBL record open: what precedes the record's length, the length, the first bytes of
      its header, the count, and the rest. */
  function Open(pre: seq<Byte>, len: nat, wfirst: seq<Byte>, n: nat, post: seq<Byte>): (s: seq<Byte>)
    requires len < U16 && |wfirst| == 2 && n < U16
    ensures |s| == |pre| + 6 + |post|
  {
    pre + Le16(len) + (wfirst + Le16(n) + post)
  }

  function Before(m: Message): (s: seq<Byte>)
    requires ValidMessage(m)
    ensures |s| == WtblOffset(m) + 2
  {
    CatSize(m.outer);
    Header(m.first, |m.outer| + 1, m.last) + Cat(m.outer) + Le16(STA_REC_WTBL)
  }

  lemma Pieces(m: Message)
    requires ValidMessage(m)
    ensures Encode(m) == Open(Before(m), TLV_SIZE + HDR_SIZE + Size(m.nested), m.wfirst, |m.nested|, m.wlast + Cat(m.nested))
  {
    CatSize(m.nested);
    var h := Header(m.first, |m.outer| + 1, m.last);
    var len := Le16(TLV_SIZE + HDR_SIZE + Size(m.nested));
    var body := WtblBody(m);
    assert body == m.wfirst + Le16(|m.nested|) + (m.wlast + Cat(m.nested));
    hide Cat, Header;
    assert h + Cat(m.outer) + (Le16(STA_REC_WTBL) + len + body) == h + Cat(m.outer) + Le16(STA_REC_WTBL) + len + body;
  }

  lemma LengthPut(pre: seq<Byte>, len: nat, post: seq<Byte>, more: nat)
    requires len + more < U16
    ensures var s := pre + Le16(len) + post;
            Get16(s, |pre|) == len && Put16(s, |pre|, len + more) == pre + Le16(len + more) + post
  {
    GetLe(pre, len, post);
    PutLe(pre, len, post, len + more);
  }

  /** The record's length and the nested count, four bytes behind it, change in place. */
  lemma OpenLength(pre: seq<Byte>, len: nat, wfirst: seq<Byte>, n: nat, post: seq<Byte>, more: nat)
    requires len + more < U16 && |wfirst| == 2 && n < U16
    ensures var s := Open(pre, len, wfirst, n, post);
            Get16(s, |pre|) == len && Put16(s, |pre|, len + more) == Open(pre, len + more, wfirst, n, post)
  {
    LengthPut(pre, len, wfirst + Le16(n) + post, more);
  }

  lemma OpenCount(pre: seq<Byte>, len: nat, wfirst: seq<Byte>, n: nat, post: seq<Byte>)
    requires len < U16 && |wfirst| == 2 && n + 1 < U16
    ensures var s := Open(pre, len, wfirst, n, post);
            Get16(s, |pre| + 4) == n && Put16(s, |pre| + 4, n + 1) == Open(pre, len, wfirst, n + 1, post)
  {
    var front := pre + Le16(len) + wfirst;
    assert Open(pre, len, wfirst, n, post) == front + Le16(n) + post;
    assert Open(pre, len, wfirst, n + 1, post) == front + Le16(n + 1) + post;
    LengthPut(front, n, post, 1);
  }

  lemma OpenAppended(pre: seq<Byte>, len: nat, wfirst: seq<Byte>, n: nat, wlast: seq<Byte>, cat: seq<Byte>, b: seq<Byte>)
    requires len < U16 && |wfirst| == 2 && n < U16
    ensures Open(pre, len, wfirst, n, wlast + cat) + b == Open(pre, len, wfirst, n, wlast + (cat + b))
  {
    hide Le16;
  }

  lemma RecordGrows(pre: seq<Byte>, len: nat, wfirst: seq<Byte>, n: nat, post: seq<Byte>, more: nat)
    requires len + more < U16 && |wfirst| == 2 && n + 1 < U16
    ensures var s := Open(pre, len, wfirst, n, post);
            && Get16(s, |pre| + 4) == n
            && var s1 := Put16(s, |pre| + 4, n + 1);
            Get16(s1, |pre|) == len && Put16(s1, |pre|, len + more) == Open(pre, len + more, wfirst, n + 1, post)
  {
    hide Open, Get16, Put16;
    OpenCount(pre, len, wfirst, n, post);
    OpenLength(pre, len, wfirst, n + 1, post, more);
  }

  lemma NestedAdded(data: seq<Byte>, m: Message, t: Tlv)
    requires Building(data, m, true) && Fits16(t)
    requires |m.nested| + 1 < U16 && TLV_SIZE + HDR_SIZE + Size(m.nested) + TLV_SIZE + |t.body| < U16
    ensures var s := AppendTlv(data, t);
            var at := WtblOffset(m);
            var len := TLV_SIZE + HDR_SIZE + Size(m.nested);
            && |data| >= at + TLV_SIZE + HDR_SIZE && Get16(s, at + 6) == |m.nested|
            && var s1 := Put16(s, at + 6, |m.nested| + 1);
            && Get16(s1, at + 2) == len
            && Building(Put16(s1, at + 2, len + TLV_SIZE + |t.body|), m.(nested := m.nested + [t]), true)
  {
    var m' := m.(nested := m.nested + [t]);
    var len, n := TLV_SIZE + HDR_SIZE + Size(m.nested), |m.nested|;
    CatMore(m.nested, t);
    Pieces(m);
    Pieces(m');
    assert Before(m') == Before(m);
    var pre, post := Before(m), m.wlast + Cat(m'.nested);
    assert ValidMessage(m') && |pre| == WtblOffset(m) + 2;
    OpenAppended(pre, len, m.wfirst, n, m.wlast, Cat(m.nested), Bytes(t));
    RecordGrows(pre, len, m.wfirst, n, post, TLV_SIZE + |t.body|);
    hide *;
  }

  function AppendTlv(s: seq<Byte>, t: Tlv): (r: seq<Byte>)
    requires Fits16(t)
    ensures |r| == |s| + TLV_SIZE + |t.body|
  {
    s + Bytes(t)
  }

  function AppendHeader(s: seq<Byte>, first: seq<Byte>, last: seq<Byte>): (r: seq<Byte>)
    requires |first| == 2 && |last| == 4
  {
    s + Header(first, 0, last)
  }

  lemma OpenedPieces(m: Message)
    requires ValidMessage(m)
    ensures Header(m.first, |m.outer| + 1, m.last) + (Cat(m.outer) + Bytes(Tlv(STA_REC_WTBL, []))) == Before(m) + Le16(TLV_SIZE) + []
  {
    var h := Header(m.first, |m.outer| + 1, m.last);
    var b := Bytes(Tlv(STA_REC_WTBL, []));
    assert b == Le16(STA_REC_WTBL) + Le16(TLV_SIZE);
    hide Cat, Header, Bytes, Le16;
    assert h + (Cat(m.outer) + (Le16(STA_REC_WTBL) + Le16(TLV_SIZE))) == h + Cat(m.outer) + Le16(STA_REC_WTBL) + Le16(TLV_SIZE) + [];
  }

  lemma OpenedHeader(pre: seq<Byte>, m: Message)
    requires |m.wfirst| == 2 && |m.wlast| == 4
    ensures pre + Le16(TLV_SIZE + HDR_SIZE) + [] + Header(m.wfirst, 0, m.wlast)
         == Open(pre, TLV_SIZE + HDR_SIZE, m.wfirst, 0, m.wlast + [])
  {
    hide Le16;
  }

  /** Adding an empty WTBL record, then its header, and correcting the record's length. */
  lemma WtblOpened(data: seq<Byte>, m: Message)
    requires Building(data, m, false)
    ensures var s := AppendTlv(data, Tlv(STA_REC_WTBL, []));
            && |data| == WtblOffset(m) >= 4 && Get16(s, 2) == |m.outer| && |m.outer| + 1 < U16
            && var s1 := Put16(s, 2, |m.outer| + 1);
            && Get16(s1, WtblOffset(m) + 2) == TLV_SIZE
            && Building(AppendHeader(Put16(s1, WtblOffset(m) + 2, TLV_SIZE + HDR_SIZE), m.wfirst, m.wlast), m, true)
  {
    var t := Tlv(STA_REC_WTBL, []);
    var h := Header(m.first, |m.outer|, m.last);
    CatSize(m.outer);
    Assoc(h, Cat(m.outer), Bytes(t));
    CountPut(m.first, |m.outer|, m.last, Cat(m.outer) + Bytes(t));
    OpenedPieces(m);
    LengthPut(Before(m), TLV_SIZE, [], HDR_SIZE);
    Pieces(m);
    OpenedHeader(Before(m), m);
    assert Cat(m.nested) == [] && Size(m.nested) == 0;
    hide Encode, Cat, Header, Get16, Put16, Bytes, Le16, Size, Open, Before, WtblOffset;
  }

  /** `mt76_connac_mcu_add_nested_tlv` on the bytes: appends the record, raises the count behind `ntlv` and, if there is
      one, the length of the record at `wtblAt`. */
  predicate CanGrow(s: seq<Byte>, t: Tlv, ntlv: nat, wtblAt: Option<nat>) {
    && Fits16(t) && ntlv + 4 <= |s| && Get16(AppendTlv(s, t), ntlv + 2) + 1 < U16
    && var s1 := Put16(AppendTlv(s, t), ntlv + 2, Get16(AppendTlv(s, t), ntlv + 2) + 1);
    wtblAt.Some? ==> wtblAt.value + 4 <= |s| && Get16(s1, wtblAt.value + 2) + TLV_SIZE + |t.body| < U16
  }

  function Grow(s: seq<Byte>, t: Tlv, ntlv: nat, wtblAt: Option<nat>): seq<Byte>
    requires CanGrow(s, t, ntlv, wtblAt)
  {
    var s1 := Put16(AppendTlv(s, t), ntlv + 2, Get16(AppendTlv(s, t), ntlv + 2) + 1);
    if wtblAt.None? then s1
    else Put16(s1, wtblAt.value + 2, Get16(s1, wtblAt.value + 2) + TLV_SIZE + |t.body|)
  }

  /** `mt76_connac_mcu_alloc_wtbl_req` on the bytes: the record at `at` grows by a header. */
  predicate CanAlloc(s: seq<Byte>, at: nat) {
    at + 4 <= |s| && Get16(s, at + 2) + HDR_SIZE < U16
  }

  function Alloc(s: seq<Byte>, at: nat, wfirst: seq<Byte>, wlast: seq<Byte>): seq<Byte>
    requires CanAlloc(s, at) && |wfirst| == 2 && |wlast| == 4
  {
    AppendHeader(Put16(s, at + 2, Get16(s, at + 2) + HDR_SIZE), wfirst, wlast)
  }

  lemma OuterGrows(data: seq<Byte>, m: Message, t: Tlv)
    requires Building(data, m, false) && Fits16(t) && |m.outer| + 2 < U16
    ensures CanGrow(data, t, 0, None) && Building(Grow(data, t, 0, None), m.(outer := m.outer + [t]), false)
  {
    OuterAdded(data, m, t);
    hide Building, Put16, Get16, AppendTlv, Fits16;
  }

  lemma NestedGrows(data: seq<Byte>, m: Message, t: Tlv)
    requires Building(data, m, true) && Fits16(t)
    requires |m.nested| + 1 < U16 && TLV_SIZE + HDR_SIZE + Size(m.nested) + TLV_SIZE + |t.body| < U16
    ensures var at := WtblOffset(m);
            && CanGrow(data, t, at + TLV_SIZE, Some(at))
            && Building(Grow(data, t, at + TLV_SIZE, Some(at)), m.(nested := m.nested + [t]), true)
  {
    NestedAdded(data, m, t);
    hide Building, Put16, Get16, AppendTlv, Fits16, WtblOffset, Size;
  }

  lemma WtblGrows(data: seq<Byte>, m: Message)
    requires Building(data, m, false)
    ensures var t := Tlv(STA_REC_WTBL, []);
            && CanGrow(data, t, 0, None) && |data| == WtblOffset(m) && CanAlloc(Grow(data, t, 0, None), |data|)
            && Building(Alloc(Grow(data, t, 0, None), |data|, m.wfirst, m.wlast), m, true)
  {
    WtblOpened(data, m);
    hide Building, Put16, Get16, Fits16, WtblOffset, AppendHeader;
  }

  // ---- the skb ----

  class StaSkb {
    var data: seq<Byte>
    ghost var m: Message
    ghost var wtbl: bool

    ghost predicate Valid()
      reads this
    {
      Building(data, m, wtbl)
    }

    /** `mt76_connac_mcu_alloc_sta_req`. */
    constructor (first: seq<Byte>, last: seq<Byte>)
      requires |first| == 2 && |last| == 4
      ensures Valid() && m == Message(first, last, [], [0, 0], [0, 0, 0, 0], []) && !wtbl
    {
      data := Header(first, 0, last);
      m := Message(first, last, [], [0, 0], [0, 0, 0, 0], []);
      wtbl := false;
    }

    /** `mt76_connac_mcu_add_nested_tlv`: the count at `ntlv`, and the length of the record at `wtblAt`, if any. */
    method AddNestedTlv(t: Tlv, ntlv: nat, wtblAt: Option<nat>)
      requires CanGrow(data, t, ntlv, wtblAt)
      modifies this`data
      ensures data == Grow(old(data), t, ntlv, wtblAt)
    {
      var len := TLV_SIZE + |t.body|;
      data := AppendTlv(data, t);
      data := Put16(data, ntlv + 2, Get16(data, ntlv + 2) + 1);
      if wtblAt.Some? {
        len := len + Get16(data, wtblAt.value + 2);
        data := Put16(data, wtblAt.value + 2, len);
      }
    }

    /** `mt76_connac_mcu_add_tlv`. */
    method AddTlv(t: Tlv)
      requires Valid() && !wtbl && Fits16(t) && |m.outer| + 2 < U16
      modifies this`data, this`m
      ensures Valid() && m == old(m).(outer := old(m).outer + [t])
    {
      OuterGrows(data, m, t);
      hide *;
      AddNestedTlv(t, 0, None);
      m := m.(outer := m.outer + [t]);
    }

    /** `mt76_connac_mcu_alloc_wtbl_req` for the record at `at`: the record grows by a header. */
    method AllocWtblReq(at: nat, wfirst: seq<Byte>, wlast: seq<Byte>)
      requires CanAlloc(data, at) && |wfirst| == 2 && |wlast| == 4
      modifies this`data
      ensures data == Alloc(old(data), at, wfirst, wlast)
    {
      data := Put16(data, at + 2, Get16(data, at + 2) + HDR_SIZE);
      data := AppendHeader(data, wfirst, wlast);
    }

    /** Adds the record STA_REC_WTBL and its header. */
    method OpenWtbl(wfirst: seq<Byte>, wlast: seq<Byte>) returns (at: nat)
      requires Valid() && !wtbl && |wfirst| == 2 && |wlast| == 4
      modifies this`data, this`wtbl, this`m
      ensures Valid() && wtbl && at == WtblOffset(m) && m == old(m).(wfirst := wfirst, wlast := wlast)
    {
      at := |data|;
      ghost var m1 := m.(wfirst := wfirst, wlast := wlast);
      WtblGrows(data, m1);
      hide *;
      AddNestedTlv(Tlv(STA_REC_WTBL, []), 0, None);
      AllocWtblReq(at, wfirst, wlast);
      m, wtbl := m1, true;
    }

    /** A nested record of the WTBL record at `at`. */
    method AddWtblTlv(t: Tlv, at: nat)
      requires Valid() && wtbl && at == WtblOffset(m) && Fits16(t) && |m.nested| + 1 < U16
      requires TLV_SIZE + HDR_SIZE + Size(m.nested) + TLV_SIZE + |t.body| < U16
      modifies this`data, this`m
      ensures Valid() && m == old(m).(nested := old(m).nested + [t])
    {
      ghost var m1 := m.(nested := m.nested + [t]);
      NestedGrows(data, m, t);
      hide *;
      AddNestedTlv(t, at + TLV_SIZE, Some(at));
      m := m1;
    }

    method AddTlvIf(cond: bool, t: Tlv)
      requires Valid() && !wtbl && Fits16(t) && |m.outer| + 2 < U16
      modifies this`data, this`m
      ensures Valid() && m == old(m).(outer := AddIf(old(m).outer, cond, t))
    {
      if cond {
        AddTlv(t);
      }
    }

    method AddWtblTlvIf(cond: bool, t: Tlv, at: nat)
      requires Valid() && wtbl && at == WtblOffset(m) && Fits16(t) && |m.nested| + 1 < U16
      requires TLV_SIZE + HDR_SIZE + Size(m.nested) + TLV_SIZE + |t.body| < U16
      modifies this`data, this`m
      ensures Valid() && m == old(m).(nested := AddIf(old(m).nested, cond, t)) && at == WtblOffset(m)
    {
      if cond {
        AddWtblTlv(t, at);
      }
    }
  }

  // ---- mt76_connac_mcu_sta_cmd ----

  datatype Chip = ConnacV1 | Connac2 | Later

  /** What decides which records are written: the command, the chip, and the capabilities of the station. `uapsd`
      stands for an AP with a WMM station, `amsdu` for a station or AP with an A-MSDU length, `assoc6` for a station
      that associates on 6 GHz, `he6g` for a non-zero 6 GHz capability field. */
  datatype Command = Command(
    chip: Chip, hasSta: bool, enable: bool, offloadFw: bool, ht: bool, vht: bool, he: bool, he6g: bool,
    uapsd: bool, amsdu: bool, assoc6: bool)

  /** What the writers put into the bodies, by tag and size. */
  type Fill = (nat, nat) -> seq<Byte>

  ghost predicate Fills(fill: Fill) {
    forall tag, n :: |fill(tag, n)| == n
  }

  function AddIf(ts: seq<Tlv>, cond: bool, t: Tlv): (r: seq<Tlv>)
    requires AllFit(ts) && Fits16(t)
    ensures AllFit(r) && |r| <= |ts| + 1
    ensures Size(r) == Size(ts) + if cond then TLV_SIZE + |t.body| else 0
  {
    CatMore(ts, t);
    if cond then ts + [t] else ts
  }

  /** The record of a structure of `size` bytes. */
  function Rec(fill: Fill, tag: nat, size: nat): (r: Tlv)
    requires Fills(fill) && tag < 256 && TLV_SIZE <= size <= 256
    ensures Fits16(r) && |r.body| == size - TLV_SIZE
  {
    Tlv(tag, fill(tag, size - TLV_SIZE))
  }

  ghost function NoRecords(): (r: seq<Tlv>)
    ensures r == [] && AllFit(r) && Size(r) == 0
  {
    []
  }

  /** The records that every chip gets. */
  ghost function CommonRecords(c: Command, fill: Fill): (ts: seq<Tlv>)
    requires Fills(fill)
    ensures AllFit(ts) && |ts| <= 4 && Size(ts) <= 56
  {
    hide AddIf, Rec, Size, AllFit, Fits16, Fills, NoRecords;
    var sta := c.hasSta && c.enable;
    var ts := AddIf(NoRecords(), c.hasSta || !c.offloadFw, Rec(fill, 0, 20));
    var ts1 := AddIf(ts, sta && c.ht, Rec(fill, 9, 8));
    var ts2 := AddIf(ts1, sta && c.vht, Rec(fill, 10, if c.chip.Connac2? then 16 else 12));
    AddIf(ts2, sta && c.uapsd, Rec(fill, 11, 12))
  }

  ghost function HeRecords(ts: seq<Tlv>, c: Command, fill: Fill): (r: seq<Tlv>)
    requires Fills(fill) && AllFit(ts)
    ensures AllFit(r) && |r| <= |ts| + 4 && Size(r) <= Size(ts) + 72
  {
    hide AddIf, Rec, Size, AllFit, Fits16, Fills;
    var full := c.hasSta && c.enable && c.chip.Connac2?;
    var ts1 := AddIf(ts, full && (c.ht || c.he) && c.amsdu, Rec(fill, 15, 8));
    var ts2 := AddIf(ts1, full && c.he, Rec(fill, 14, 28));
    var ts3 := AddIf(ts2, full && c.he, Rec(fill, 0x19, 28));
    AddIf(ts3, full && c.he && c.assoc6, Rec(fill, 0x17, 8))
  }

  ghost function StateRecords(ts: seq<Tlv>, full: bool, fill: Fill): (r: seq<Tlv>)
    requires Fills(fill) && AllFit(ts)
    ensures AllFit(r) && |r| <= |ts| + 3 && Size(r) <= Size(ts) + 40
  {
    hide AddIf, Rec, Size, AllFit, Fits16, Fills;
    var ts1 := AddIf(ts, full, Rec(fill, 0x15, 12));
    var ts2 := AddIf(ts1, full, Rec(fill, 1, 16));
    AddIf(ts2, full, Rec(fill, 7, 12))
  }

  /** All the records in front of the WTBL record, in the order of the code. */
  ghost function OuterRecords(c: Command, fill: Fill): (ts: seq<Tlv>)
    requires Fills(fill)
    ensures AllFit(ts) && |ts| <= 11 && Size(ts) <= 168
  {
    hide AddIf, Rec, Size, AllFit, Fits16, Fills;
    var full := c.hasSta && c.enable && c.chip.Connac2?;
    var ts := CommonRecords(c, fill);
    var ts1 := HeRecords(ts, c, fill);
    StateRecords(ts1, full, fill)
  }

  ghost function KeyRecords(c: Command, fill: Fill): (ts: seq<Tlv>)
    requires Fills(fill)
    ensures AllFit(ts) && |ts| <= 4 && Size(ts) <= 48
  {
    hide AddIf, Rec, Size, AllFit, Fits16, Fills, NoRecords;
    var ts0 := AddIf(NoRecords(), c.enable, Rec(fill, 0, 20));
    var ts := AddIf(ts0, c.enable, Rec(fill, 1, 12));
    var ts1 := AddIf(ts, c.enable && c.chip.ConnacV1?, Rec(fill, 16, 8));
    AddIf(ts1, c.enable, Rec(fill, 6, 8))
  }

  /** The records inside the WTBL record, in the order of the code. */
  ghost function NestedRecords(c: Command, fill: Fill): (ts: seq<Tlv>)
    requires Fills(fill)
    ensures AllFit(ts) && |ts| <= 8 && Size(ts) <= 96
  {
    hide AddIf, Rec, Size, AllFit, Fits16, Fills;
    var sta := c.hasSta && c.enable;
    var ts3 := AddIf(KeyRecords(c, fill), sta && (c.ht || c.he6g), Rec(fill, 2, 12));
    var ts4 := AddIf(ts3, sta && (c.vht || c.he6g), Rec(fill, 3, 12));
    var ts5 := AddIf(ts4, sta, Rec(fill, 13, 8));
    AddIf(ts5, sta && c.chip.ConnacV1? && c.ht, Rec(fill, 14, 16))
  }

  /** MT76_CONNAC_WTBL_UPDATE_MAX_SIZE and MT76_CONNAC_STA_UPDATE_MAX_SIZE, structure by structure. */
  const WTBL_UPDATE_MAX: nat := 8 + 20 + 12 + 12 + 12 + 8 + 8 + 28 + 12 + 8 + 12 + 8
  const STA_UPDATE_MAX: nat :=
    8 + 20 + 48 + 8 + 28 + 12 + 16 + 12 + 8 + 36 + 8 + 53 + 80 + 25 + 8 + 12 + 8 + TLV_SIZE + WTBL_UPDATE_MAX

  ghost function StaMessage(
      c: Command, fill: Fill, first: seq<Byte>, last: seq<Byte>, wfirst: seq<Byte>, wlast: seq<Byte>): Message
    requires Fills(fill)
  {
    Message(first, last, OuterRecords(c, fill), wfirst, wlast, NestedRecords(c, fill))
  }

  lemma MessageSize(m: Message)
    requires ValidMessage(m)
    ensures |Encode(m)| == HDR_SIZE + Size(m.outer) + TLV_SIZE + HDR_SIZE + Size(m.nested)
  {
    CatSize(m.outer);
    CatSize(m.nested);
    Pieces(m);
    hide Size, Cat;
  }

  /** For every command and every combination of capabilities, the message fits the buffer allocated for it. */
  lemma FitsBuffer(c: Command, fill: Fill, first: seq<Byte>, last: seq<Byte>, wfirst: seq<Byte>, wlast: seq<Byte>)
    requires Fills(fill) && |first| == |wfirst| == 2 && |last| == |wlast| == 4
    ensures var m := StaMessage(c, fill, first, last, wfirst, wlast);
            ValidMessage(m) && |Encode(m)| <= STA_UPDATE_MAX
  {
    hide OuterRecords, NestedRecords, Size, Encode, AllFit;
    MessageSize(StaMessage(c, fill, first, last, wfirst, wlast));
  }

  /** `mt76_connac_mcu_sta_cmd` up to sending. */
  method BuildStaCmd(c: Command, fill: Fill, first: seq<Byte>, last: seq<Byte>, wfirst: seq<Byte>, wlast: seq<Byte>)
      returns (data: seq<Byte>)
    requires Fills(fill) && |first| == |wfirst| == 2 && |last| == |wlast| == 4
    ensures var m := StaMessage(c, fill, first, last, wfirst, wlast);
            ValidMessage(m) && data == Encode(m) && |data| <= STA_UPDATE_MAX && Decode(data) == Some(m)
  {
    var skb := new StaSkb(first, last);
    BuildOuter(skb, c, fill);
    var at := skb.OpenWtbl(wfirst, wlast);
    BuildNested(skb, c, fill, at);
    data := skb.data;
    FitsBuffer(c, fill, first, last, wfirst, wlast);
    DecodeEncode(skb.m);
  }

  method BuildCommon(skb: StaSkb, c: Command, fill: Fill)
    requires skb.Valid() && !skb.wtbl && skb.m.outer == [] && Fills(fill)
    modifies skb
    ensures skb.Valid() && !skb.wtbl && skb.m == old(skb.m).(outer := CommonRecords(c, fill))
  {
    hide StaSkb.Valid, AddIf, Rec, Fits16, Fills, Size;
    var sta := c.hasSta && c.enable;
    skb.AddTlvIf(c.hasSta || !c.offloadFw, Rec(fill, 0, 20));
    skb.AddTlvIf(sta && c.ht, Rec(fill, 9, 8));
    skb.AddTlvIf(sta && c.vht, Rec(fill, 10, if c.chip.Connac2? then 16 else 12));
    skb.AddTlvIf(sta && c.uapsd, Rec(fill, 11, 12));
  }

  method BuildHe(skb: StaSkb, c: Command, fill: Fill)
    requires skb.Valid() && !skb.wtbl && AllFit(skb.m.outer) && |skb.m.outer| <= 4 && Fills(fill)
    modifies skb
    ensures skb.Valid() && !skb.wtbl && skb.m == old(skb.m).(outer := HeRecords(old(skb.m).outer, c, fill))
  {
    hide StaSkb.Valid, AddIf, Rec, Fits16, Fills, Size;
    var full := c.hasSta && c.enable && c.chip.Connac2?;
    skb.AddTlvIf(full && (c.ht || c.he) && c.amsdu, Rec(fill, 15, 8));
    skb.AddTlvIf(full && c.he, Rec(fill, 14, 28));
    skb.AddTlvIf(full && c.he, Rec(fill, 0x19, 28));
    skb.AddTlvIf(full && c.he && c.assoc6, Rec(fill, 0x17, 8));
  }

  method BuildOuter(skb: StaSkb, c: Command, fill: Fill)
    requires skb.Valid() && !skb.wtbl && skb.m.outer == [] && Fills(fill)
    modifies skb
    ensures skb.Valid() && !skb.wtbl && skb.m == old(skb.m).(outer := OuterRecords(c, fill))
  {
    hide StaSkb.Valid, AddIf, Rec, Fits16, Fills, Size, CommonRecords, HeRecords;
    var full := c.hasSta && c.enable && c.chip.Connac2?;
    BuildCommon(skb, c, fill);
    BuildHe(skb, c, fill);
    skb.AddTlvIf(full, Rec(fill, 0x15, 12));
    skb.AddTlvIf(full, Rec(fill, 1, 16));
    skb.AddTlvIf(full, Rec(fill, 7, 12));
  }

  method BuildKey(skb: StaSkb, c: Command, fill: Fill, at: nat)
    requires skb.Valid() && skb.wtbl && skb.m.nested == [] && at == WtblOffset(skb.m) && Fills(fill)
    modifies skb
    ensures skb.Valid() && skb.wtbl && skb.m == old(skb.m).(nested := KeyRecords(c, fill)) && at == WtblOffset(skb.m)
  {
    assert skb.m.nested == NoRecords();
    hide StaSkb.Valid, AddIf, Rec, Fits16, Fills, Size, WtblOffset, AllFit, NoRecords;
    skb.AddWtblTlvIf(c.enable, Rec(fill, 0, 20), at);
    skb.AddWtblTlvIf(c.enable, Rec(fill, 1, 12), at);
    skb.AddWtblTlvIf(c.enable && c.chip.ConnacV1?, Rec(fill, 16, 8), at);
    skb.AddWtblTlvIf(c.enable, Rec(fill, 6, 8), at);
  }

  method BuildNested(skb: StaSkb, c: Command, fill: Fill, at: nat)
    requires skb.Valid() && skb.wtbl && skb.m.nested == [] && at == WtblOffset(skb.m) && Fills(fill)
    modifies skb
    ensures skb.Valid() && skb.wtbl && skb.m == old(skb.m).(nested := NestedRecords(c, fill))
  {
    hide StaSkb.Valid, AddIf, Rec, Fits16, Fills, Size, WtblOffset, KeyRecords;
    var sta := c.hasSta && c.enable;
    BuildKey(skb, c, fill, at);
    skb.AddWtblTlvIf(sta && (c.ht || c.he6g), Rec(fill, 2, 12), at);
    skb.AddWtblTlvIf(sta && (c.vht || c.he6g), Rec(fill, 3, 12), at);
    skb.AddWtblTlvIf(sta, Rec(fill, 13, 8), at);
    skb.AddWtblTlvIf(sta && c.chip.ConnacV1? && c.ht, Rec(fill, 14, 16), at);
  }
}
