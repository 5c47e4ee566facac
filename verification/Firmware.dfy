/** Firmware download: the WMT chunk loops of btmtk.c and the region and chunk loops of mt76. */
module Firmware {
  import opened Basics

  const WMT_CHUNK: nat := 250
  const WMT_HDR_SIZE: nat := 5
  const PATCH_HEADER_SIZE: nat := 30

  /** `s` cut into pieces of `max` bytes, the last one possibly shorter. */
  function Pieces(s: seq<Byte>, max: nat): (ps: seq<seq<Byte>>)
    requires 0 < max
    ensures |ps| > 0 <==> s != []
    decreases |s|
  {
    if s == [] then [] else if |s| <= max then [s] else [s[..max]] + Pieces(s[max..], max)
  }

  function Flatten(ps: seq<seq<Byte>>): seq<Byte> {
    if ps == [] then [] else ps[0] + Flatten(ps[1..])
  }

  /** The pieces are the bytes in order, none is empty or too long, and all but the last are full. */
  lemma {:induction false} PiecesAreExact(s: seq<Byte>, max: nat)
    requires 0 < max
    ensures var ps := Pieces(s, max);
            && Flatten(ps) == s
            && (forall p <- ps :: 0 < |p| <= max)
            && (forall i :: 0 <= i < |ps| - 1 ==> |ps[i]| == max)
    decreases |s|
  {
    if |s| > max {
      PiecesAreExact(s[max..], max);
      assert s == s[..max] + s[max..];
    } else if s != [] {
      assert Flatten([s]) == s + Flatten([]) == s;
    }
  }

  /** The length check of `btmtk_usb_hci_wmt_sync`. */
  predicate CommandFits(dlen: nat) {
    WMT_HDR_SIZE + dlen <= 255
  }

  /** Every WMT chunk passes the length check, and no longer chunks would. */
  lemma ChunksFit(s: seq<Byte>)
    ensures forall p <- Pieces(s, WMT_CHUNK) :: CommandFits(|p|)
    ensures !CommandFits(WMT_CHUNK + 1)
  {
    PiecesAreExact(s, WMT_CHUNK);
  }

  datatype Chunk = Chunk(flag: nat, data: seq<Byte>)

  /** The position flag of chunk `i` of `n` in the two downloaders. */
  function Flag79xx(i: nat, n: nat): nat {
    if i == 0 then 1 else if i + 1 == n then 3 else 2
  }

  function FlagPlain(i: nat, n: nat): nat {
    if i + 1 == n then 3 else if i == 0 then 1 else 2
  }

  /** They differ exactly on a firmware of a single chunk. */
  lemma FlagsDiffer(i: nat, n: nat)
    requires i < n
    ensures Flag79xx(i, n) == FlagPlain(i, n) <==> n > 1
  {
  }

  function Flagged(ps: seq<seq<Byte>>, first: nat, n: nat, new79: bool): (cs: seq<Chunk>)
    ensures |cs| == |ps|
  {
    seq(|ps|, i requires 0 <= i < |ps| => Chunk(if new79 then Flag79xx(first + i, n) else FlagPlain(first + i, n), ps[i]))
  }

  function WmtChunks(s: seq<Byte>, new79: bool): seq<Chunk> {
    var ps := Pieces(s, WMT_CHUNK);
    Flagged(ps, 0, |ps|, new79)
  }

  /** Which chunks carry which flag: 1 starts a section, 3 ends it and 2 lies between; a section of a single chunk is
      marked as started by the 79xx downloader and as ended by the other. */
  lemma FlagsMark(s: seq<Byte>, new79: bool, i: nat)
    requires i < |WmtChunks(s, new79)|
    ensures var cs := WmtChunks(s, new79);
            && (cs[i].flag == 1 <==> i == 0 && (|cs| > 1 || new79))
            && (cs[i].flag == 3 <==> i == |cs| - 1 && (|cs| > 1 || !new79))
            && 1 <= cs[i].flag <= 3 && cs[i].data == Pieces(s, WMT_CHUNK)[i]
  {
  }

  /** Of commands that succeed `oks` times and then fail: how many of `n` are carried out. */
  function Carried(oks: nat, n: nat): nat {
    if oks < n then oks else n
  }

  lemma CarriedAll<T>(oks: nat, s: seq<T>)
    ensures Carried(oks, |s|) <= |s| && (oks >= |s| ==> s[..Carried(oks, |s|)] == s)
  {
  }

  lemma PiecesHead(rest: seq<Byte>, max: nat)
    requires 0 < max && rest != []
    ensures var len := if |rest| < max then |rest| else max;
            Pieces(rest, max) == [rest[..len]] + Pieces(rest[len..], max)
  {
    if |rest| <= max {
      assert rest[..|rest|] == rest && rest[|rest|..] == [];
    }
  }

  lemma PiecesStep(s: seq<Byte>, rest: seq<Byte>, sent: seq<seq<Byte>>, max: nat)
    requires 0 < max && rest != [] && Pieces(s, max) == sent + Pieces(rest, max)
    ensures var len := if |rest| < max then |rest| else max;
            && Pieces(s, max) == (sent + [rest[..len]]) + Pieces(rest[len..], max)
            && (|rest| - len == 0 <==> |sent| + 1 == |Pieces(s, max)|)
  {
    var len := if |rest| < max then |rest| else max;
    hide Pieces;
    PiecesHead(rest, max);
    Assoc(sent, [rest[..len]], Pieces(rest[len..], max));
  }

  /** The chunk loop of `btmtk_setup_firmware_79xx` for one section; a failing command ends it. */
  method DownloadSection(section: seq<Byte>, oks: nat) returns (sent: seq<Chunk>, ok: bool)
    ensures var all := WmtChunks(section, true);
            sent == all[..Carried(oks, |all|)] && ok == (oks >= |all|)
  {
    sent := [];
    var rest, first := section, true;
    ghost var all, gone := Pieces(section, WMT_CHUNK), [];
    while rest != []
      invariant all == gone + Pieces(rest, WMT_CHUNK) && first == (gone == [])
      invariant |gone| <= oks && sent == Flagged(gone, 0, |all|, true)
      decreases |rest|
    {
      var dlen := if |rest| < WMT_CHUNK then |rest| else WMT_CHUNK;
      PiecesStep(section, rest, gone, WMT_CHUNK);
      var flag := 2;
      if first {
        flag, first := 1, false;
      } else if |rest| - dlen == 0 {
        flag := 3;
      }
      if |sent| == oks {
        FlaggedPrefix(gone, Pieces(rest, WMT_CHUNK), |all|, true);
        return sent, false;
      }
      FlaggedMore(gone, rest[..dlen], |all|, true);
      sent, gone := sent + [Chunk(flag, rest[..dlen])], gone + [rest[..dlen]];
      rest := rest[dlen..];
    }
    assert gone == all;
    ok := true;
  }

  lemma FlaggedMore(gone: seq<seq<Byte>>, p: seq<Byte>, n: nat, new79: bool)
    ensures Flagged(gone + [p], 0, n, new79)
         == Flagged(gone, 0, n, new79) + [Chunk(if new79 then Flag79xx(|gone|, n) else FlagPlain(|gone|, n), p)]
  {
  }

  lemma FlaggedPrefix(gone: seq<seq<Byte>>, rest: seq<seq<Byte>>, n: nat, new79: bool)
    ensures Flagged(gone + rest, 0, n, new79)[..|gone|] == Flagged(gone, 0, n, new79)
  {
  }

  /** The patch part of `btmtk_setup_firmware`: the 30 bytes of header are skipped; None is -EINVAL. */
  method DownloadPatch(fw: seq<Byte>, oks: nat) returns (valid: bool, sent: seq<Chunk>, ok: bool)
    ensures valid <==> |fw| >= 30
    ensures valid ==> var all := WmtChunks(fw[30..], false);
                      sent == all[..Carried(oks, |all|)] && ok == (oks >= |all|)
    ensures !valid ==> sent == [] && !ok
  {
    sent := [];
    if |fw| < PATCH_HEADER_SIZE {
      return false, [], false;
    }
    valid := true;
    var rest, flag := fw[PATCH_HEADER_SIZE..], 1;
    ghost var body, all, gone := rest, Pieces(rest, WMT_CHUNK), [];
    while rest != []
      invariant all == gone + Pieces(rest, WMT_CHUNK) && (gone == [] <==> |rest| == |body|)
      invariant |rest| <= |body| == |fw| - PATCH_HEADER_SIZE && (gone == [] ==> flag == 1)
      invariant |gone| <= oks && sent == Flagged(gone, 0, |all|, false)
      decreases |rest|
    {
      var dlen := if |rest| < WMT_CHUNK then |rest| else WMT_CHUNK;
      PiecesStep(body, rest, gone, WMT_CHUNK);
      if |rest| - dlen == 0 {
        flag := 3;
      } else if |rest| < |fw| - PATCH_HEADER_SIZE {
        flag := 2;
      }
      if |sent| == oks {
        FlaggedPrefix(gone, Pieces(rest, WMT_CHUNK), |all|, false);
        return true, sent, false;
      }
      FlaggedMore(gone, rest[..dlen], |all|, false);
      sent, gone := sent + [Chunk(flag, rest[..dlen])], gone + [rest[..dlen]];
      rest := rest[dlen..];
    }
    assert gone == all;
    ok := true;
  }

  // ---- the sections of the 79xx patch ----

  /** The device's answer to the announcement of a section. */
  datatype Status = Undone | InProgress | Done | Unexpected

  datatype Verdict = Download | Skip | Fail

  /** A section of the patch: its bytes, the answers the device will give, and after how many chunks a command fails. */
  datatype Section = Section(data: seq<Byte>, answers: seq<Status>, oks: nat)

  const RETRIES: nat := 20

  /** The retry loop; an announcement that gets no answer fails. */
  function Negotiate(answers: seq<Status>, retry: nat): Verdict
    decreases retry
  {
    if retry == 0 then Download
    else if answers == [] then Fail
    else match answers[0]
      case Undone => Download
      case InProgress => Negotiate(answers[1..], retry - 1)
      case Done => Skip
      case Unexpected => Fail
  }

  ghost predicate AllInProgress(answers: seq<Status>, n: nat) {
    n <= |answers| && forall i :: 0 <= i < n ==> answers[i] == InProgress
  }

  /** Within `retry` answers the first that is not "in progress" is `answer`. */
  ghost predicate FirstDefinite(answers: seq<Status>, retry: nat, answer: Status) {
    exists k :: 0 <= k < retry && k < |answers| && AllInProgress(answers, k) && answers[k] == answer
  }

  lemma FirstDefiniteLater(answers: seq<Status>, retry: nat, answer: Status)
    requires retry > 0 && answers != [] && answers[0] == InProgress && answer != InProgress
    ensures FirstDefinite(answers, retry, answer) <==> FirstDefinite(answers[1..], retry - 1, answer)
    ensures AllInProgress(answers, retry) <==> AllInProgress(answers[1..], retry - 1)
  {
    if k :| 0 <= k < retry && k < |answers| && AllInProgress(answers, k) && answers[k] == answer {
      assert k > 0 && AllInProgress(answers[1..], k - 1) && answers[1..][k - 1] == answer;
    }
    if k :| 0 <= k < retry - 1 && k < |answers| - 1 && AllInProgress(answers[1..], k) && answers[1..][k] == answer {
      assert AllInProgress(answers, k + 1) && answers[k + 1] == answer;
    }
    if AllInProgress(answers[1..], retry - 1) {
      forall i | 0 <= i < retry ensures answers[i] == InProgress {
        assert i > 0 ==> answers[1..][i - 1] == InProgress;
      }
    }
  }

  /** A section is sent if the first definite answer is "undone", and also if twenty answers were all "in progress";
      it is skipped if the first definite answer is "done"; and every other course of answers fails. */
  lemma {:induction false} NegotiateIff(answers: seq<Status>, retry: nat)
    ensures Negotiate(answers, retry) == Download <==>
            AllInProgress(answers, retry) || FirstDefinite(answers, retry, Undone)
    ensures Negotiate(answers, retry) == Skip <==> FirstDefinite(answers, retry, Done)
    decreases retry
  {
    if retry > 0 && answers != [] {
      if answers[0] == InProgress {
        NegotiateIff(answers[1..], retry - 1);
        FirstDefiniteLater(answers, retry, Undone);
        FirstDefiniteLater(answers, retry, Done);
      } else {
        assert AllInProgress(answers, 0);
        assert FirstDefinite(answers, retry, answers[0]);
      }
    }
  }

  /** What one section puts on the wire, and whether the download goes on. */
  function SectionSent(s: Section): (seq<Chunk>, bool) {
    var verdict := Negotiate(s.answers, RETRIES);
    var all := WmtChunks(s.data, true);
    if s.data == [] || verdict.Skip? then ([], true)
    else if verdict.Fail? then ([], false)
    else (all[..Carried(s.oks, |all|)], s.oks >= |all|)
  }

  function SectionsSent(ss: seq<Section>): (seq<Chunk>, bool) {
    if ss == [] then ([], true)
    else
      var (cs, ok) := SectionSent(ss[0]);
      if !ok then (cs, false) else var (ds, ok2) := SectionsSent(ss[1..]); (cs + ds, ok2)
  }

  // ---- what a download amounts to ----

  /** The download goes on after this section: it is empty, already there, or accepted and sent without a failure. */
  ghost predicate SectionFine(s: Section) {
    || s.data == []
    || FirstDefinite(s.answers, 20, Done)
    || ((AllInProgress(s.answers, 20) || FirstDefinite(s.answers, 20, Undone))
        && s.oks >= |Pieces(s.data, WMT_CHUNK)|)
  }

  ghost predicate AllFine(ss: seq<Section>) {
    forall s <- ss :: SectionFine(s)
  }

  function ChunkData(cs: seq<Chunk>): seq<Byte> {
    if cs == [] then [] else cs[0].data + ChunkData(cs[1..])
  }

  /** The bytes of the sections that the device does not have yet, in order. */
  ghost function MissingData(ss: seq<Section>): seq<Byte> {
    if ss == [] then []
    else (if FirstDefinite(ss[0].answers, 20, Done) then [] else ss[0].data) + MissingData(ss[1..])
  }

  lemma {:induction false} ChunkDataConcat(a: seq<Chunk>, b: seq<Chunk>)
    ensures ChunkData(a + b) == ChunkData(a) + ChunkData(b)
    decreases |a|
  {
    if a == [] {
      assert a + b == b;
    } else {
      assert (a + b)[1..] == a[1..] + b;
      ChunkDataConcat(a[1..], b);
    }
  }

  lemma {:induction false} FlaggedData(ps: seq<seq<Byte>>, first: nat, n: nat, new79: bool)
    ensures ChunkData(Flagged(ps, first, n, new79)) == Flatten(ps)
    decreases |ps|
  {
    if ps != [] {
      FlaggedData(ps[1..], first + 1, n, new79);
      assert Flagged(ps, first, n, new79)[1..] == Flagged(ps[1..], first + 1, n, new79);
    }
  }

  lemma SectionExact(s: Section)
    ensures var (cs, ok) := SectionSent(s);
            && (ok <==> SectionFine(s))
            && (ok ==> ChunkData(cs) == if FirstDefinite(s.answers, 20, Done) then [] else s.data)
  {
    NegotiateIff(s.answers, 20);
    PiecesAreExact(s.data, WMT_CHUNK);
    FlaggedData(Pieces(s.data, WMT_CHUNK), 0, |Pieces(s.data, WMT_CHUNK)|, true);
    CarriedAll(s.oks, WmtChunks(s.data, true));
    assert |WmtChunks(s.data, true)| == |Pieces(s.data, WMT_CHUNK)|;
    hide Negotiate, FirstDefinite, AllInProgress, Pieces, Flagged, Flatten;
  }

  /** The download succeeds if and only if every section is fine, and then the chunks carry, in order, exactly the bytes
      of the sections that the device did not have. */
  lemma {:induction false} SectionsExact(ss: seq<Section>)
    ensures var (cs, ok) := SectionsSent(ss);
            && (ok <==> AllFine(ss)) && (ok ==> ChunkData(cs) == MissingData(ss))
    decreases |ss|
  {
    if ss != [] {
      SectionExact(ss[0]);
      SectionsExact(ss[1..]);
      ChunkDataConcat(SectionSent(ss[0]).0, SectionsSent(ss[1..]).0);
      assert AllFine(ss) <==> SectionFine(ss[0]) && AllFine(ss[1..]) by {
        assert forall s <- ss[1..] :: s in ss;
        assert ss[0] in ss;
        assert forall s <- ss :: s == ss[0] || s in ss[1..];
      }
      hide SectionSent, SectionFine, FirstDefinite, ChunkData, AllFine;
    }
  }

  lemma SectionsStep(ss: seq<Section>, i: nat, sent: seq<Chunk>)
    requires i < |ss|
    ensures var (cs, ok) := SectionSent(ss[i]);
            var r := SectionsSent(ss[i..]);
            && r.1 == (ok && SectionsSent(ss[i + 1..]).1)
            && sent + r.0 == if ok then (sent + cs) + SectionsSent(ss[i + 1..]).0 else sent + cs
  {
    assert ss[i..][1..] == ss[i + 1..];
    Assoc(sent, SectionSent(ss[i]).0, SectionsSent(ss[i + 1..]).0);
    hide SectionSent;
  }

  lemma SectionsEnds(ss: seq<Section>, sent: seq<Chunk>)
    ensures sent + SectionsSent(ss[|ss|..]).0 == sent && SectionsSent(ss[|ss|..]).1 && ss[0..] == ss
    ensures [] + SectionsSent(ss).0 == SectionsSent(ss).0
  {
  }

  /** One section: the announcement and, if the device wants it, the chunks. */
  method SendSection(s: Section) returns (sent: seq<Chunk>, ok: bool)
    ensures sent == SectionSent(s).0 && ok == SectionSent(s).1
  {
    if s.data == [] {
      return [], true;
    }
    var verdict := Negotiate(s.answers, RETRIES);
    if verdict.Fail? {
      return [], false;
    } else if verdict.Skip? {
      return [], true;
    }
    sent, ok := DownloadSection(s.data, s.oks);
  }

  /** The section loop of `btmtk_setup_firmware_79xx`. */
  method DownloadSections(ss: seq<Section>) returns (sent: seq<Chunk>, ok: bool)
    ensures sent == SectionsSent(ss).0 && ok == SectionsSent(ss).1
  {
    sent, ok := [], true;
    SectionsEnds(ss, sent);
    hide SectionsSent, SectionSent;
    for i := 0 to |ss|
      invariant SectionsSent(ss).0 == sent + SectionsSent(ss[i..]).0
      invariant ok && SectionsSent(ss).1 == SectionsSent(ss[i..]).1
    {
      SectionsStep(ss, i, sent);
      var cs;
      cs, ok := SendSection(ss[i]);
      sent := sent + cs;
      if !ok {
        return;
      }
    }
    SectionsEnds(ss, sent);
  }

  // ---- the regions of the WLAN firmware ----

  /** A region of the image; `nonDl` is FW_FEATURE_NON_DL, `initOk` the answer to its download request, `oks` the
      number of its chunk messages that succeed. */
  datatype Region = Region(len: nat, addr: nat, nonDl: bool, overrideAddr: bool, initOk: bool, oks: nat)

  /** Where region `i` starts: skipped regions count as well. */
  function Offset(rs: seq<Region>, i: nat): nat
    requires i <= |rs|
  {
    if i == 0 then 0 else Offset(rs, i - 1) + rs[i - 1].len
  }

  lemma {:induction false} OffsetGrows(rs: seq<Region>, i: nat, j: nat)
    requires i <= j <= |rs|
    ensures Offset(rs, i) <= Offset(rs, j)
    decreases j
  {
    if i < j {
      OffsetGrows(rs, i, j - 1);
    }
  }

  ghost predicate FitsImage(data: seq<Byte>, rs: seq<Region>) {
    Offset(rs, |rs|) <= |data|
  }

  function RegionBytes(data: seq<Byte>, rs: seq<Region>, i: nat): seq<Byte>
    requires FitsImage(data, rs) && i < |rs|
  {
    OffsetGrows(rs, i + 1, |rs|);
    data[Offset(rs, i)..Offset(rs, i) + rs[i].len]
  }

  function RegionMessages(data: seq<Byte>, rs: seq<Region>, i: nat, max: nat): seq<seq<Byte>>
    requires FitsImage(data, rs) && i < |rs| && 0 < max
  {
    if rs[i].nonDl then [] else Pieces(RegionBytes(data, rs, i), max)
  }

  /** The messages of the regions before `i`, none of which failed. */
  function MessagesUpTo(data: seq<Byte>, rs: seq<Region>, i: nat, max: nat): seq<seq<Byte>>
    requires FitsImage(data, rs) && i <= |rs| && 0 < max
  {
    if i == 0 then [] else MessagesUpTo(data, rs, i - 1, max) + RegionMessages(data, rs, i - 1, max)
  }

  /** Region `i` is skipped, or its request is granted and all its chunk messages succeed. */
  predicate RegionOk(data: seq<Byte>, rs: seq<Region>, i: nat, max: nat)
    requires FitsImage(data, rs) && i < |rs| && 0 < max
  {
    rs[i].nonDl || (rs[i].initOk && rs[i].oks >= |RegionMessages(data, rs, i, max)|)
  }

  ghost predicate AllRegionsOk(data: seq<Byte>, rs: seq<Region>, max: nat)
    requires FitsImage(data, rs) && 0 < max
  {
    forall i :: 0 <= i < |rs| ==> RegionOk(data, rs, i, max)
  }

  /** The address of the last downloaded region that asks for it. */
  function OverrideUpTo(rs: seq<Region>, i: nat): nat
    requires i <= |rs|
  {
    if i == 0 then 0
    else if !rs[i - 1].nonDl && rs[i - 1].overrideAddr then rs[i - 1].addr
    else OverrideUpTo(rs, i - 1)
  }

  /** `mt76_connac_mcu_send_ram_firmware`. On success every downloadable region has been sent, byte for byte, and the
      start command gets the last override address. It stops at the first region whose request is refused or whose
      chunk fails: the messages in front of the failure have been sent. */
  method SendRam(data: seq<Byte>, rs: seq<Region>, max: nat) returns (sent: seq<seq<Byte>>, ok: bool, overrideAddr: nat)
    requires FitsImage(data, rs) && 0 < max
    ensures ok <==> AllRegionsOk(data, rs, max)
    ensures ok ==> sent == MessagesUpTo(data, rs, |rs|, max) && overrideAddr == OverrideUpTo(rs, |rs|)
    ensures !ok ==> exists i: nat :: FailsAt(data, rs, i, max, sent)
  {
    var offset: nat := 0;
    sent, overrideAddr := [], 0;
    SoFarNothing(data, rs, max);
    hide *;
    for i := 0 to |rs|
      invariant SoFar(data, rs, max, i, offset, sent, overrideAddr)
    {
      RegionBounds(data, rs, max, i, offset, sent, overrideAddr);
      if rs[i].nonDl {
        SkippedRegion(data, rs, max, i, offset, sent, overrideAddr);
      } else {
        RegionIs(data, rs, max, i, offset, sent, overrideAddr);
        if RegionOk(data, rs, i, max) {
          RegionSent(data, rs, max, i, offset, sent, overrideAddr);
        } else {
          RegionFails(data, rs, max, i, offset, sent, overrideAddr);
        }
        if rs[i].overrideAddr {
          overrideAddr := rs[i].addr;
        }
        if !rs[i].initOk {
          return sent, false, overrideAddr;
        }
        var ps, sentAll := SendPieces(data[offset..offset + rs[i].len], max, rs[i].oks);
        CarriedAll(rs[i].oks, Pieces(data[offset..offset + rs[i].len], max));
        sent := sent + ps;
        if !sentAll {
          return sent, false, overrideAddr;
        }
      }
      offset := offset + rs[i].len;
    }
    SoFarAll(data, rs, max, offset, sent, overrideAddr);
    ok := true;
  }

  /** The loop at region `i`. */
  ghost predicate SoFar(data: seq<Byte>, rs: seq<Region>, max: nat, i: nat, offset: nat, sent: seq<seq<Byte>>, addr: nat)
    requires FitsImage(data, rs) && 0 < max
  {
    && i <= |rs| && offset == Offset(rs, i) && sent == MessagesUpTo(data, rs, i, max) && addr == OverrideUpTo(rs, i)
    && forall k :: 0 <= k < i ==> RegionOk(data, rs, k, max)
  }

  lemma SoFarNothing(data: seq<Byte>, rs: seq<Region>, max: nat)
    requires FitsImage(data, rs) && 0 < max
    ensures SoFar(data, rs, max, 0, 0, [], 0)
  {
  }

  lemma SoFarAll(data: seq<Byte>, rs: seq<Region>, max: nat, offset: nat, sent: seq<seq<Byte>>, addr: nat)
    requires FitsImage(data, rs) && 0 < max && SoFar(data, rs, max, |rs|, offset, sent, addr)
    ensures AllRegionsOk(data, rs, max)
    ensures sent == MessagesUpTo(data, rs, |rs|, max) && addr == OverrideUpTo(rs, |rs|)
  {
  }

  lemma RegionBounds(data: seq<Byte>, rs: seq<Region>, max: nat, i: nat, offset: nat, sent: seq<seq<Byte>>, addr: nat)
    requires FitsImage(data, rs) && 0 < max && i < |rs| && SoFar(data, rs, max, i, offset, sent, addr)
    ensures offset + rs[i].len <= |data|
  {
    OffsetGrows(rs, i + 1, |rs|);
  }

  lemma OffsetStep(rs: seq<Region>, i: nat)
    requires i < |rs|
    ensures Offset(rs, i + 1) == Offset(rs, i) + rs[i].len
    ensures OverrideUpTo(rs, i + 1) == if !rs[i].nonDl && rs[i].overrideAddr then rs[i].addr else OverrideUpTo(rs, i)
  {
  }

  lemma SkippedRegion(data: seq<Byte>, rs: seq<Region>, max: nat, i: nat, offset: nat, sent: seq<seq<Byte>>, addr: nat)
    requires FitsImage(data, rs) && 0 < max && i < |rs| && SoFar(data, rs, max, i, offset, sent, addr) && rs[i].nonDl
    ensures SoFar(data, rs, max, i + 1, offset + rs[i].len, sent, addr)
  {
    RegionStep(data, rs, i, max);
    assert MessagesUpTo(data, rs, i, max) + [] == MessagesUpTo(data, rs, i, max);
    hide MessagesUpTo, Pieces, RegionBytes;
  }

  /** The chunks of a downloadable region, and when it is fine. */
  lemma RegionIs(data: seq<Byte>, rs: seq<Region>, max: nat, i: nat, offset: nat, sent: seq<seq<Byte>>, addr: nat)
    requires FitsImage(data, rs) && 0 < max && i < |rs| && SoFar(data, rs, max, i, offset, sent, addr) && !rs[i].nonDl
    requires offset + rs[i].len <= |data|
    ensures RegionMessages(data, rs, i, max) == Pieces(data[offset..offset + rs[i].len], max)
    ensures RegionOk(data, rs, i, max) <==> rs[i].initOk && rs[i].oks >= |RegionMessages(data, rs, i, max)|
    ensures !RegionOk(data, rs, i, max) ==> !AllRegionsOk(data, rs, max)
  {
    hide MessagesUpTo, Pieces, Offset, OverrideUpTo;
  }

  lemma RegionFails(data: seq<Byte>, rs: seq<Region>, max: nat, i: nat, offset: nat, sent: seq<seq<Byte>>, addr: nat)
    requires FitsImage(data, rs) && 0 < max && i < |rs| && SoFar(data, rs, max, i, offset, sent, addr) && !rs[i].nonDl
    requires !RegionOk(data, rs, i, max)
    ensures var all := RegionMessages(data, rs, i, max);
            FailsAt(data, rs, i, max, if rs[i].initOk then sent + all[..Carried(rs[i].oks, |all|)] else sent)
  {
    assert sent + [] == sent;
    hide MessagesUpTo, RegionMessages, RegionOk, Carried, Offset, OverrideUpTo;
  }

  lemma RegionSent(data: seq<Byte>, rs: seq<Region>, max: nat, i: nat, offset: nat, sent: seq<seq<Byte>>, addr: nat)
    requires FitsImage(data, rs) && 0 < max && i < |rs| && SoFar(data, rs, max, i, offset, sent, addr) && !rs[i].nonDl
    requires RegionOk(data, rs, i, max)
    ensures SoFar(data, rs, max, i + 1, offset + rs[i].len, sent + RegionMessages(data, rs, i, max),
                  if rs[i].overrideAddr then rs[i].addr else addr)
  {
    RegionStep(data, rs, i, max);
    OffsetStep(rs, i);
    hide MessagesUpTo, RegionMessages, RegionOk, Offset, OverrideUpTo;
  }

  /** Region `i` is the first that fails, and `sent` is what went out before. */
  ghost predicate FailsAt(data: seq<Byte>, rs: seq<Region>, i: nat, max: nat, sent: seq<seq<Byte>>)
    requires FitsImage(data, rs) && 0 < max
  {
    && i < |rs| && !RegionOk(data, rs, i, max) && (forall k :: 0 <= k < i ==> RegionOk(data, rs, k, max))
    && var all := RegionMessages(data, rs, i, max);
    sent == MessagesUpTo(data, rs, i, max) + if rs[i].initOk then all[..Carried(rs[i].oks, |all|)] else []
  }

  /** The loop of `__mt76_mcu_send_firmware`; a failing message ends it. */
  method SendPieces(data: seq<Byte>, max: nat, oks: nat) returns (sent: seq<seq<Byte>>, ok: bool)
    requires 0 < max
    ensures var all := Pieces(data, max);
            sent == all[..Carried(oks, |all|)] && ok == (oks >= |all|)
  {
    sent := [];
    var rest := data;
    while rest != []
      invariant Pieces(data, max) == sent + Pieces(rest, max) && |sent| <= oks
      decreases |rest|
    {
      var len := if |rest| < max then |rest| else max;
      PiecesStep(data, rest, sent, max);
      if |sent| == oks {
        return sent, false;
      }
      sent, rest := sent + [rest[..len]], rest[len..];
    }
    ok := true;
  }

  function RegionPart(data: seq<Byte>, rs: seq<Region>, i: nat): seq<Byte>
    requires FitsImage(data, rs) && i < |rs|
  {
    if rs[i].nonDl then [] else RegionBytes(data, rs, i)
  }

  function RegionsBytes(data: seq<Byte>, rs: seq<Region>, i: nat): seq<Byte>
    requires FitsImage(data, rs) && i <= |rs|
  {
    if i == 0 then [] else RegionsBytes(data, rs, i - 1) + RegionPart(data, rs, i - 1)
  }

  lemma {:induction false} FlattenConcat(a: seq<seq<Byte>>, b: seq<seq<Byte>>)
    ensures Flatten(a + b) == Flatten(a) + Flatten(b)
    decreases |a|
  {
    if a == [] {
      assert a + b == b;
    } else {
      assert (a + b)[1..] == a[1..] + b;
      FlattenConcat(a[1..], b);
    }
  }

  lemma OneRegion(data: seq<Byte>, rs: seq<Region>, i: nat, max: nat)
    requires FitsImage(data, rs) && i < |rs| && 0 < max
    ensures Flatten(RegionMessages(data, rs, i, max)) == RegionPart(data, rs, i)
  {
    PiecesAreExact(RegionBytes(data, rs, i), max);
    hide RegionBytes, Pieces;
  }

  lemma NoRegions(data: seq<Byte>, rs: seq<Region>, max: nat)
    requires FitsImage(data, rs) && 0 < max
    ensures Flatten(MessagesUpTo(data, rs, 0, max)) == RegionsBytes(data, rs, 0)
  {
  }

  lemma RegionStep(data: seq<Byte>, rs: seq<Region>, i: nat, max: nat)
    requires FitsImage(data, rs) && i < |rs| && 0 < max
    ensures MessagesUpTo(data, rs, i + 1, max) == MessagesUpTo(data, rs, i, max) + RegionMessages(data, rs, i, max)
    ensures RegionsBytes(data, rs, i + 1) == RegionsBytes(data, rs, i) + RegionPart(data, rs, i)
  {
    hide RegionMessages, RegionPart;
  }

  lemma FlattenBoth(a: seq<seq<Byte>>, b: seq<seq<Byte>>, x: seq<Byte>, y: seq<Byte>)
    requires Flatten(a) == x && Flatten(b) == y
    ensures Flatten(a + b) == x + y
  {
    FlattenConcat(a, b);
    hide Flatten;
  }

  lemma RegionMore(data: seq<Byte>, rs: seq<Region>, i: nat, max: nat)
    requires FitsImage(data, rs) && i < |rs| && 0 < max && Flatten(MessagesUpTo(data, rs, i, max)) == RegionsBytes(data, rs, i)
    ensures Flatten(MessagesUpTo(data, rs, i + 1, max)) == RegionsBytes(data, rs, i + 1)
  {
    OneRegion(data, rs, i, max);
    RegionStep(data, rs, i, max);
    hide *;
    FlattenBoth(MessagesUpTo(data, rs, i, max), RegionMessages(data, rs, i, max), RegionsBytes(data, rs, i), RegionPart(data, rs, i));
  }

  /** The messages carry exactly the bytes of the downloadable regions, each taken at its own offset. */
  lemma {:induction false} MessagesAreRegions(data: seq<Byte>, rs: seq<Region>, i: nat, max: nat)
    requires FitsImage(data, rs) && i <= |rs| && 0 < max
    ensures Flatten(MessagesUpTo(data, rs, i, max)) == RegionsBytes(data, rs, i)
    decreases i
  {
    hide *;
    if i == 0 {
      NoRegions(data, rs, max);
    } else {
      MessagesAreRegions(data, rs, i - 1, max);
      RegionMore(data, rs, i - 1, max);
    }
  }
}
