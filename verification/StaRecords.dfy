/** Which records a station-update message carries: by capability, with the size of their structures, in a fixed order. */
module StaRecords {
  import opened Basics
  import opened StaRec
  import opened StaCmd

  // Outer records, by the tags of `enum STA_REC_*`.
  const BASIC: nat := 0
  const RA: nat := 1
  const STATE: nat := 7
  const HT: nat := 9
  const VHT: nat := 10
  const APPS: nat := 11
  const HE: nat := 14
  const HW_AMSDU: nat := 15
  const PHY: nat := 0x15
  const HE_6G: nat := 0x17
  const HE_V2: nat := 0x19

  // Records inside the WTBL record, by the tags of `enum WTBL_*`.
  const WTBL_GENERIC: nat := 0
  const WTBL_RX: nat := 1
  const WTBL_HT: nat := 2
  const WTBL_VHT: nat := 3
  const WTBL_HDR_TRANS: nat := 6
  const WTBL_SMPS: nat := 13
  const WTBL_RAW_DATA: nat := 14
  const WTBL_SPE: nat := 16

  /** The outer record `tag` is called for. Nothing but the basic record describes a station that goes away. */
  predicate OuterWanted(c: Command, tag: nat) {
    if tag == BASIC then c.hasSta || !c.offloadFw
    else if !(c.hasSta && c.enable) then false
    else if tag == HT then c.ht
    else if tag == VHT then c.vht
    else if tag == APPS then c.uapsd
    else if !c.chip.Connac2? then false
    else if tag == HW_AMSDU then c.amsdu && (c.ht || c.he)
    else if tag == HE || tag == HE_V2 then c.he
    else if tag == HE_6G then c.he && c.assoc6
    else tag == PHY || tag == RA || tag == STATE
  }

  /** The bytes of its structure. */
  function OuterSize(c: Command, tag: nat): nat {
    if tag == BASIC then 20
    else if tag == HE || tag == HE_V2 then 28
    else if tag == VHT && !c.chip.Connac2? then 12
    else if tag == VHT || tag == RA then 16
    else if tag == APPS || tag == PHY || tag == STATE then 12
    else 8
  }

  /** Its place in the message. */
  function OuterPlace(tag: nat): nat {
    if tag == BASIC then 0 else if tag == HT then 1 else if tag == VHT then 2 else if tag == APPS then 3
    else if tag == HW_AMSDU then 4 else if tag == HE then 5 else if tag == HE_V2 then 6 else if tag == HE_6G then 7
    else if tag == PHY then 8 else if tag == RA then 9 else if tag == STATE then 10 else 11
  }

  /** The record `tag` inside the WTBL record is called for. */
  predicate NestedWanted(c: Command, tag: nat) {
    if !c.enable then false
    else if tag == WTBL_GENERIC || tag == WTBL_RX || tag == WTBL_HDR_TRANS then true
    else if tag == WTBL_SPE then c.chip.ConnacV1?
    else if !c.hasSta then false
    else if tag == WTBL_HT then c.ht || c.he6g
    else if tag == WTBL_VHT then c.vht || c.he6g
    else if tag == WTBL_RAW_DATA then c.chip.ConnacV1? && c.ht
    else tag == WTBL_SMPS
  }

  function NestedSize(tag: nat): nat {
    if tag == WTBL_GENERIC then 20
    else if tag == WTBL_RAW_DATA then 16
    else if tag == WTBL_RX || tag == WTBL_HT || tag == WTBL_VHT then 12
    else 8
  }

  function NestedPlace(tag: nat): nat {
    if tag == WTBL_GENERIC then 0 else if tag == WTBL_RX then 1 else if tag == WTBL_SPE then 2
    else if tag == WTBL_HDR_TRANS then 3 else if tag == WTBL_HT then 4 else if tag == WTBL_VHT then 5
    else if tag == WTBL_SMPS then 6 else if tag == WTBL_RAW_DATA then 7 else 8
  }

  /** The two levels of the message of command `c`. */
  datatype Level = Outer(c: Command) | Nested(c: Command)

  predicate Wanted(l: Level, tag: nat) {
    if l.Outer? then OuterWanted(l.c, tag) else NestedWanted(l.c, tag)
  }

  function StructSize(l: Level, tag: nat): nat {
    if l.Outer? then OuterSize(l.c, tag) else NestedSize(tag)
  }

  function Place(l: Level, tag: nat): nat {
    if l.Outer? then OuterPlace(tag) else NestedPlace(tag)
  }

  ghost predicate Proper(t: Tlv, l: Level, fill: Fill, k: nat) {
    && Wanted(l, t.tag) && Place(l, t.tag) < k && TLV_SIZE + |t.body| == StructSize(l, t.tag)
    && t.body == fill(t.tag, |t.body|)
  }

  ghost predicate Carries(ts: seq<Tlv>, tag: nat) {
    exists i :: 0 <= i < |ts| && ts[i].tag == tag
  }

  /** `ts` has exactly the wanted records of places before `k`, each once and in the order of the places. */
  ghost predicate Follows(ts: seq<Tlv>, l: Level, fill: Fill, k: nat) {
    && (forall i :: 0 <= i < |ts| ==> Proper(ts[i], l, fill, k))
    && (forall i, j :: 0 <= i < j < |ts| ==> Place(l, ts[i].tag) < Place(l, ts[j].tag))
    && (forall tag: nat | Wanted(l, tag) && Place(l, tag) < k :: Carries(ts, tag))
  }

  lemma PlaceIsUnique(l: Level, tag: nat, other: nat)
    requires Place(l, tag) == Place(l, other) && Place(l, tag) < if l.Outer? then 11 else 8
    ensures tag == other
  {
  }

  lemma CarriesMore(ts: seq<Tlv>, t: Tlv, tag: nat)
    ensures Carries(ts + [t], tag) <==> Carries(ts, tag) || t.tag == tag
  {
    assert (ts + [t])[|ts|] == t;
    if Carries(ts, tag) {
      var i :| 0 <= i < |ts| && ts[i].tag == tag;
      assert (ts + [t])[i].tag == tag;
    }
  }

  lemma FollowsMore(ts: seq<Tlv>, l: Level, fill: Fill, tag: nat, size: nat, k: nat, cond: bool)
    requires Fills(fill) && AllFit(ts) && tag < 256 && TLV_SIZE <= size <= 256 && size == StructSize(l, tag)
    requires Follows(ts, l, fill, k) && cond == Wanted(l, tag) && k == Place(l, tag) && k < if l.Outer? then 11 else 8
    ensures Follows(AddIf(ts, cond, Rec(fill, tag, size)), l, fill, k + 1)
  {
    var t := Rec(fill, tag, size);
    assert Proper(t, l, fill, k + 1) <==> cond;
    var r := AddIf(ts, cond, t);
    assert r == if cond then ts + [t] else ts;
    assert t.tag == tag;
    hide AllFit, Fits16, Size, AddIf, Rec, Wanted, StructSize, Place, Carries;
    forall other: nat | Wanted(l, other) && Place(l, other) < k + 1
      ensures Carries(r, other)
    {
      CarriesMore(ts, t, other);
      if Place(l, other) == k {
        PlaceIsUnique(l, tag, other);
      }
    }
  }

  lemma CommonFollows(c: Command, fill: Fill)
    requires Fills(fill)
    ensures Follows(CommonRecords(c, fill), Outer(c), fill, 4)
  {
    var l := Outer(c);
    var sta := c.hasSta && c.enable;
    assert Follows(NoRecords(), l, fill, 0);
    hide AddIf, Rec, Size, AllFit, Fits16, Fills, NoRecords, Follows;
    var ts := AddIf(NoRecords(), c.hasSta || !c.offloadFw, Rec(fill, 0, 20));
    FollowsMore(NoRecords(), l, fill, BASIC, 20, 0, c.hasSta || !c.offloadFw);
    var ts1 := AddIf(ts, sta && c.ht, Rec(fill, 9, 8));
    FollowsMore(ts, l, fill, HT, 8, 1, sta && c.ht);
    var ts2 := AddIf(ts1, sta && c.vht, Rec(fill, 10, if c.chip.Connac2? then 16 else 12));
    FollowsMore(ts1, l, fill, VHT, if c.chip.Connac2? then 16 else 12, 2, sta && c.vht);
    FollowsMore(ts2, l, fill, APPS, 12, 3, sta && c.uapsd);
  }

  lemma HeFollows(ts: seq<Tlv>, c: Command, fill: Fill)
    requires Fills(fill) && AllFit(ts) && Follows(ts, Outer(c), fill, 4)
    ensures Follows(HeRecords(ts, c, fill), Outer(c), fill, 8)
  {
    var l := Outer(c);
    var full := c.hasSta && c.enable && c.chip.Connac2?;
    hide AddIf, Rec, Size, AllFit, Fits16, Fills, Follows;
    var ts1 := AddIf(ts, full && (c.ht || c.he) && c.amsdu, Rec(fill, 15, 8));
    FollowsMore(ts, l, fill, HW_AMSDU, 8, 4, full && (c.ht || c.he) && c.amsdu);
    var ts2 := AddIf(ts1, full && c.he, Rec(fill, 14, 28));
    FollowsMore(ts1, l, fill, HE, 28, 5, full && c.he);
    var ts3 := AddIf(ts2, full && c.he, Rec(fill, 0x19, 28));
    FollowsMore(ts2, l, fill, HE_V2, 28, 6, full && c.he);
    FollowsMore(ts3, l, fill, HE_6G, 8, 7, full && c.he && c.assoc6);
  }

  lemma StateFollows(ts: seq<Tlv>, c: Command, fill: Fill)
    requires Fills(fill) && AllFit(ts) && Follows(ts, Outer(c), fill, 8)
    ensures Follows(StateRecords(ts, c.hasSta && c.enable && c.chip.Connac2?, fill), Outer(c), fill, 11)
  {
    var l := Outer(c);
    var full := c.hasSta && c.enable && c.chip.Connac2?;
    hide AddIf, Rec, Size, AllFit, Fits16, Fills, Follows;
    var ts1 := AddIf(ts, full, Rec(fill, 0x15, 12));
    FollowsMore(ts, l, fill, PHY, 12, 8, full);
    var ts2 := AddIf(ts1, full, Rec(fill, 1, 16));
    FollowsMore(ts1, l, fill, RA, 16, 9, full);
    FollowsMore(ts2, l, fill, STATE, 12, 10, full);
  }

  lemma KeyFollows(c: Command, fill: Fill)
    requires Fills(fill)
    ensures Follows(KeyRecords(c, fill), Nested(c), fill, 4)
  {
    var l := Nested(c);
    assert Follows(NoRecords(), l, fill, 0);
    hide AddIf, Rec, Size, AllFit, Fits16, Fills, NoRecords, Follows;
    var ts0 := AddIf(NoRecords(), c.enable, Rec(fill, 0, 20));
    FollowsMore(NoRecords(), l, fill, WTBL_GENERIC, 20, 0, c.enable);
    var ts := AddIf(ts0, c.enable, Rec(fill, 1, 12));
    FollowsMore(ts0, l, fill, WTBL_RX, 12, 1, c.enable);
    var ts1 := AddIf(ts, c.enable && c.chip.ConnacV1?, Rec(fill, 16, 8));
    FollowsMore(ts, l, fill, WTBL_SPE, 8, 2, c.enable && c.chip.ConnacV1?);
    FollowsMore(ts1, l, fill, WTBL_HDR_TRANS, 8, 3, c.enable);
  }

  lemma HtFollows(ts: seq<Tlv>, c: Command, fill: Fill)
    requires Fills(fill) && AllFit(ts) && Follows(ts, Nested(c), fill, 4)
    ensures var sta := c.hasSta && c.enable;
            var ts1 := AddIf(ts, sta && (c.ht || c.he6g), Rec(fill, 2, 12));
            Follows(AddIf(ts1, sta && (c.vht || c.he6g), Rec(fill, 3, 12)), Nested(c), fill, 6)
  {
    var l := Nested(c);
    var sta := c.hasSta && c.enable;
    hide AddIf, Rec, Size, AllFit, Fits16, Fills, Follows;
    FollowsMore(ts, l, fill, WTBL_HT, 12, 4, sta && (c.ht || c.he6g));
    var ts1 := AddIf(ts, sta && (c.ht || c.he6g), Rec(fill, 2, 12));
    FollowsMore(ts1, l, fill, WTBL_VHT, 12, 5, sta && (c.vht || c.he6g));
  }

  lemma SmpsFollows(ts: seq<Tlv>, c: Command, fill: Fill)
    requires Fills(fill) && AllFit(ts) && Follows(ts, Nested(c), fill, 6)
    ensures var sta := c.hasSta && c.enable;
            var ts1 := AddIf(ts, sta, Rec(fill, 13, 8));
            Follows(AddIf(ts1, sta && c.chip.ConnacV1? && c.ht, Rec(fill, 14, 16)), Nested(c), fill, 8)
  {
    var l := Nested(c);
    var sta := c.hasSta && c.enable;
    hide AddIf, Rec, Size, AllFit, Fits16, Fills, Follows;
    FollowsMore(ts, l, fill, WTBL_SMPS, 8, 6, sta);
    FollowsMore(AddIf(ts, sta, Rec(fill, 13, 8)), l, fill, WTBL_RAW_DATA, 16, 7, sta && c.chip.ConnacV1? && c.ht);
  }

  lemma NestedFollows(c: Command, fill: Fill)
    requires Fills(fill)
    ensures Follows(NestedRecords(c, fill), Nested(c), fill, 8)
  {
    var sta := c.hasSta && c.enable;
    var ts := KeyRecords(c, fill);
    KeyFollows(c, fill);
    hide AddIf, Rec, Size, AllFit, Fits16, Fills, Follows, KeyRecords;
    HtFollows(ts, c, fill);
    var ts1 := AddIf(ts, sta && (c.ht || c.he6g), Rec(fill, 2, 12));
    SmpsFollows(AddIf(ts1, sta && (c.vht || c.he6g), Rec(fill, 3, 12)), c, fill);
  }

  lemma OuterFollows(c: Command, fill: Fill)
    requires Fills(fill)
    ensures Follows(StaCmd.OuterRecords(c, fill), Outer(c), fill, 11)
  {
    CommonFollows(c, fill);
    var ts := CommonRecords(c, fill);
    hide CommonRecords, HeRecords, StateRecords, Follows, AllFit, Size;
    HeFollows(ts, c, fill);
    StateFollows(HeRecords(ts, c, fill), c, fill);
  }

  /** The places below 11 and below 8 are those of all records called for. */
  lemma WantedHasPlace(c: Command, tag: nat)
    ensures OuterWanted(c, tag) ==> OuterPlace(tag) < 11
    ensures NestedWanted(c, tag) ==> NestedPlace(tag) < 8
  {
  }

  /** For every command, a reader of the message finds at both levels exactly the records its table calls for, each
      once, with the size of its structure, and in the order of the table. */
  lemma MessageFollows(
      c: Command, fill: Fill, first: seq<Byte>, last: seq<Byte>, wfirst: seq<Byte>, wlast: seq<Byte>)
    requires Fills(fill) && |first| == |wfirst| == 2 && |last| == |wlast| == 4
    ensures var m := StaMessage(c, fill, first, last, wfirst, wlast);
            && ValidMessage(m) && Decode(Encode(m)) == Some(m)
            && Follows(m.outer, Outer(c), fill, 11) && Follows(m.nested, Nested(c), fill, 8)
  {
    FitsBuffer(c, fill, first, last, wfirst, wlast);
    OuterFollows(c, fill);
    NestedFollows(c, fill);
    hide StaCmd.OuterRecords, NestedRecords, Follows, AllFit, Size, Encode, Decode, ValidMessage;
    DecodeEncode(StaMessage(c, fill, first, last, wfirst, wlast));
  }
}
