/** The packets of the HCI transport, byte by byte (Bluetooth Core Specification, volume 4, part E, section 5.4), and
    what the receive paths make of them. */
module HciPackets {
  import opened Basics
  import opened HciReassembly

  /** `field` is the event code of an event, and the connection handle with its flag bits of a data packet. */
  datatype HciPacket = HciPacket(field: nat, body: seq<Byte>)

  /** What the fields of the header can express. */
  predicate Expressible(k: Kind, p: HciPacket) {
    match k
    case Event => p.field < 0x100 && |p.body| < 0x100
    case Sco => p.field < 0x1_0000 && |p.body| < 0x100
    case Acl => p.field < 0x1_0000 && |p.body| < 0x1_0000
    case Iso => p.field < 0x1_0000 && |p.body| < 0x1_0000
  }

  function Print(k: Kind, p: HciPacket): (s: seq<Byte>)
    requires Expressible(k, p)
  {
    match k
    case Event => [p.field, |p.body|] + p.body
    case Sco => [p.field % 0x100, p.field / 0x100, |p.body|] + p.body
    case Acl => [p.field % 0x100, p.field / 0x100, |p.body| % 0x100, |p.body| / 0x100] + p.body
    case Iso => [p.field % 0x100, p.field / 0x100, |p.body| % 0x100, |p.body| / 0x100] + p.body
  }

  /** The packet fits the skb, and a synchronous one belongs to a connection, or the user channel is open. */
  predicate Welcome(c: Config, p: HciPacket) {
    && (match c.kind
        case Event => 2 + |p.body| <= c.cap
        case Sco => 3 + |p.body| <= c.cap
        case Acl => 4 + |p.body| <= c.cap
        case Iso => 4 + |p.body| <= c.cap)
    && (c.kind.Sco? && !c.userChannel ==> p.field % 0x1000 in c.handles)
  }

  lemma PrintedHeader(c: Config, p: HciPacket, rest: seq<Byte>)
    requires Expressible(c.kind, p)
    ensures var s := Print(c.kind, p) + rest;
            var hdr := HdrSize(c.kind);
            && hdr <= |s| && |Print(c.kind, p)| == hdr + |p.body|
            && BodySize(c.kind, s[..hdr]) == |p.body| && (Accepts(c, s[..hdr]) <==> Welcome(c, p))
  {
    var s := Print(c.kind, p) + rest;
    var h := s[..HdrSize(c.kind)];
    if !c.kind.Event? {
      assert h[0] == p.field % 0x100 && h[1] == p.field / 0x100;
    }
  }

  lemma PrintedIsWellFormed(c: Config, p: HciPacket)
    requires Expressible(c.kind, p)
    ensures WellFormedPacket(c, Print(c.kind, p)) <==> Welcome(c, p)
  {
    PrintedHeader(c, p, []);
    assert Print(c.kind, p) + [] == Print(c.kind, p);
    hide Print, Accepts, BodySize, Welcome;
  }

  /** And every packet the reader hands up is a printed one. */
  lemma WellFormedIsPrinted(c: Config, s: seq<Byte>)
    requires WellFormedPacket(c, s)
    ensures exists p :: Expressible(c.kind, p) && Welcome(c, p) && s == Print(c.kind, p)
  {
    var hdr := HdrSize(c.kind);
    var b0: nat, b1: nat := s[0], s[1];
    var p := HciPacket(if c.kind.Event? then b0 else b0 + 0x100 * b1, s[hdr..]);
    assert s[..hdr] == s[..hdr][..hdr];
    assert Expressible(c.kind, p);
    assert s == Print(c.kind, p);
    PrintedIsWellFormed(c, p);
  }

  ghost predicate AllWelcome(c: Config, ps: seq<HciPacket>) {
    forall p <- ps :: Expressible(c.kind, p) && Welcome(c, p)
  }

  function PrintAll(c: Config, ps: seq<HciPacket>): (ss: seq<seq<Byte>>)
    requires AllWelcome(c, ps)
    ensures |ss| == |ps|
  {
    seq(|ps|, i requires 0 <= i < |ps| => Print(c.kind, ps[i]))
  }

  /** Welcome packets printed one after the other are read back, each with its own bytes. */
  lemma ReadsPrinted(c: Config, ps: seq<HciPacket>)
    requires AllWelcome(c, ps)
    ensures OnePass(c, Flatten(PrintAll(c, ps))) == Outcome(PrintAll(c, ps), [], Ok, 0)
  {
    var ss := PrintAll(c, ps);
    forall s | s in ss ensures WellFormedPacket(c, s) {
      var i :| 0 <= i < |ss| && ss[i] == s;
      PrintedIsWellFormed(c, ps[i]);
    }
    FreshSkb(c);
    ReadsWhatWasSent(c, ss, []);
    assert Flatten(ss) + [] == Flatten(ss);
  }

  /** A packet that is not welcome ends the reading, with the error and nothing of it handed up. */
  lemma RefusesOthers(c: Config, p: HciPacket, rest: seq<Byte>)
    requires Expressible(c.kind, p) && !Welcome(c, p)
    ensures OnePass(c, Print(c.kind, p) + rest) == Outcome([], [], IllegalSequence, 0)
  {
    PrintedHeader(c, p, rest);
  }

  /** In any split into buffers, unless the event path takes a byte for a stray, the receive functions hand up exactly
      the packets that were sent. */
  lemma ReceivesPrinted(c: Config, ps: seq<HciPacket>, buffers: seq<seq<Byte>>)
    requires AllWelcome(c, ps) && Flatten(buffers) == Flatten(PrintAll(c, ps))
    ensures Feed(c, [], buffers).packets == PrintAll(c, ps) && Feed(c, [], buffers).rest == []
            <==> forall i :: 0 <= i < |buffers| ==> !StrayAt(c, [], buffers, i)
  {
    ReadsPrinted(c, ps);
    Reassembly(c, buffers);
    hide Feed, OnePass, StrayAt, PrintAll;
  }
}
