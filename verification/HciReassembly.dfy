/** Reassembly of HCI packets from USB buffers, as the three btusb receive paths and the btmtk ISO path do it. */
module HciReassembly {
  import opened Basics

  datatype Kind = Event | Acl | Sco | Iso

  /** `cap` is the room in a freshly allocated skb; `handles` are the connected synchronous links. */
  datatype Config = Config(kind: Kind, cap: nat, userChannel: bool, handles: set<nat>)

  function HdrSize(k: Kind): (n: nat)
    ensures n >= 2
  {
    match k
    case Event => 2
    case Sco => 3
    case _ => 4
  }

  function BodySize(k: Kind, h: seq<Byte>): nat
    requires |h| >= HdrSize(k)
  {
    match k
    case Event => h[1]
    case Sco => h[2]
    case _ => var hi: nat := h[3]; h[2] + 256 * hi
  }

  predicate KnownHandle(c: Config, h: seq<Byte>)
    requires |h| >= 2
  {
    var hi: nat := h[1];
    c.userChannel || (h[0] + 256 * hi) % 0x1000 in c.handles
  }

  /** A header is accepted if its packet fits the skb and, on a synchronous link, if its handle is connected. */
  predicate Accepts(c: Config, h: seq<Byte>)
    requires |h| >= HdrSize(c.kind)
  {
    HdrSize(c.kind) + BodySize(c.kind, h) <= c.cap && (c.kind.Sco? ==> KnownHandle(c, h))
  }

  datatype Error = Ok | NoMemory | IllegalSequence

  /** What one buffer leads to: packets handed up, the partial frame kept, the error code,
      and how many buffers ended in a byte that was thrown away as a stray. */
  datatype Outcome = Outcome(packets: seq<seq<Byte>>, rest: seq<Byte>, err: Error, strays: nat)

  function AddFirst(p: seq<Byte>, o: Outcome): Outcome {
    o.(packets := [p] + o.packets)
  }

  function Left(mem: Option<nat>): Option<nat>
    requires mem != Some(0)
  {
    if mem.Some? then Some(mem.value - 1) else None
  }

  /** Bytes after a complete packet; the event path discards them when there is only one. */
  function Continue(s: seq<Byte>, strict: bool): (r: (seq<Byte>, nat))
    ensures |r.0| + r.1 == |s|
  {
    if strict && 0 < |s| < HdrSize(Event) then ([], 1) else (s, 0)
  }

  /** What stands at the front of a stream: too little to go on, an error, or a packet of `n` bytes. */
  datatype Front = Wait | Fail(err: Error) | Packet(n: nat)

  function FrontOf(c: Config, s: seq<Byte>, have: nat, mem: Option<nat>): (f: Front)
    ensures f.Fail? ==> f.err != Ok
    ensures f.Packet? ==> 0 < f.n <= |s| && (have == 0 ==> mem != Some(0))
  {
    var hdr := HdrSize(c.kind);
    if s == [] then
      Wait
    else if have == 0 && mem == Some(0) then
      Fail(NoMemory)
    else if |s| < hdr then
      Wait
    else if have < hdr && !Accepts(c, s[..hdr]) then
      Fail(IllegalSequence)
    else
      var n := hdr + BodySize(c.kind, s[..hdr]);
      if |s| < n then Wait else Packet(n)
  }

  /** The parser of the stream `s`, whose first `have` bytes were kept from earlier buffers. The allocation
      after the first `mem` fails. `strict` is the event path's rule about stray bytes. */
  function Parse(c: Config, s: seq<Byte>, have: nat, mem: Option<nat>, strict: bool): Outcome
    decreases |s|
  {
    match FrontOf(c, s, have, mem)
    case Wait => Outcome([], s, Ok, 0)
    case Fail(err) => Outcome([], [], err, 0)
    case Packet(n) =>
      var (t, stray) := Continue(s[n..], strict);
      var o := Parse(c, t, 0, if have == 0 then Left(mem) else mem, strict);
      AddFirst(s[..n], o).(strays := stray + o.strays)
  }

  /** The stream read in one pass, without memory failures and without the stray-byte rule. */
  function OnePass(c: Config, s: seq<Byte>): Outcome {
    Parse(c, s, 0, None, false)
  }

  /** One call of the receive function with partial frame `kept`. */
  function Receive(c: Config, kept: seq<Byte>, buffer: seq<Byte>, mem: Option<nat>): Outcome {
    Parse(c, kept + buffer, |kept|, mem, c.kind.Event?)
  }

  /** A whole stream in any split into buffers, without memory failures; `err` is the first error. */
  function Feed(c: Config, kept: seq<Byte>, buffers: seq<seq<Byte>>): Outcome
    decreases |buffers|
  {
    if buffers == [] then
      Outcome([], kept, Ok, 0)
    else
      var o := Receive(c, kept, buffers[0], None);
      var r := Feed(c, o.rest, buffers[1..]);
      Outcome(o.packets + r.packets, r.rest, if o.err == Ok then r.err else o.err, o.strays + r.strays)
  }

  function Flatten(buffers: seq<seq<Byte>>): seq<Byte> {
    if buffers == [] then [] else buffers[0] + Flatten(buffers[1..])
  }

  // ---- one pass and its pieces ----

  function Total(packets: seq<seq<Byte>>): nat {
    if packets == [] then 0 else |packets[0]| + Total(packets[1..])
  }

  lemma {:induction false} TotalConcat(p: seq<seq<Byte>>, q: seq<seq<Byte>>)
    ensures Total(p + q) == Total(p) + Total(q)
    decreases |p|
  {
    if p == [] {
      assert p + q == q;
    } else {
      assert (p + q)[1..] == p[1..] + q;
      TotalConcat(p[1..], q);
    }
  }

  /** No byte is invented; without errors only stray bytes are lost. */
  lemma {:induction false} ParseConserves(c: Config, s: seq<Byte>, have: nat, mem: Option<nat>, strict: bool)
    ensures var o := Parse(c, s, have, mem, strict);
            && Total(o.packets) + |o.rest| + o.strays <= |s|
            && (o.err == Ok ==> Total(o.packets) + |o.rest| + o.strays == |s|)
    decreases |s|
  {
    hide FrontOf;
    var f := FrontOf(c, s, have, mem);
    if f.Packet? {
      var t := Continue(s[f.n..], strict).0;
      var m := if have == 0 then Left(mem) else mem;
      ParseConserves(c, t, 0, m, strict);
      var o := Parse(c, t, 0, m, strict);
      assert ([s[..f.n]] + o.packets)[1..] == o.packets;
    }
  }

  /** A partial frame: if its header is complete, it was accepted and the body is not all there. */
  ghost predicate Partial(c: Config, s: seq<Byte>) {
    var hdr := HdrSize(c.kind);
    |s| >= hdr ==> Accepts(c, s[..hdr]) && |s| < hdr + BodySize(c.kind, s[..hdr])
  }

  lemma WaitIsPartial(c: Config, s: seq<Byte>, have: nat, mem: Option<nat>)
    requires have <= |s| && Partial(c, s[..have]) && FrontOf(c, s, have, mem).Wait?
    ensures Partial(c, s)
  {
    var hdr := HdrSize(c.kind);
    assert have >= hdr ==> s[..have][..hdr] == s[..hdr];
  }

  lemma {:induction false} RestIsPartial(c: Config, s: seq<Byte>, have: nat, mem: Option<nat>, strict: bool)
    requires have <= |s| && Partial(c, s[..have])
    ensures Partial(c, Parse(c, s, have, mem, strict).rest)
    decreases |s|
  {
    var f := FrontOf(c, s, have, mem);
    if f.Wait? {
      WaitIsPartial(c, s, have, mem);
    }
    hide FrontOf;
    if f.Packet? {
      var t := Continue(s[f.n..], strict).0;
      RestIsPartial(c, t, 0, if have == 0 then Left(mem) else mem, strict);
    }
  }

  /** An accepted header need not be checked again, whichever part of it is already kept. */
  lemma SkipCheck(c: Config, s: seq<Byte>, h1: nat, h2: nat)
    requires h1 <= h2 <= |s| && Partial(c, s[..h1]) && Partial(c, s[..h2])
    ensures FrontOf(c, s, h1, None) == FrontOf(c, s, h2, None)
  {
    var hdr := HdrSize(c.kind);
    assert h1 >= hdr ==> s[..h1][..hdr] == s[..hdr];
    assert h2 >= hdr ==> s[..h2][..hdr] == s[..hdr];
  }

  lemma SameFront(c: Config, s: seq<Byte>, t: seq<Byte>, have: nat)
    requires FrontOf(c, s, have, None).Packet?
    ensures var n := FrontOf(c, s, have, None).n;
            FrontOf(c, s + t, have, None) == Packet(n) && (s + t)[..n] == s[..n] && (s + t)[n..] == s[n..] + t
  {
    var hdr := HdrSize(c.kind);
    assert (s + t)[..hdr] == s[..hdr];
  }

  lemma ResumeWhileWaiting(c: Config, s: seq<Byte>, t: seq<Byte>, have: nat)
    requires have <= |s| && Partial(c, s[..have]) && FrontOf(c, s, have, None).Wait?
    ensures Parse(c, s + t, have, None, false) == Parse(c, s + t, |s|, None, false)
  {
    WaitIsPartial(c, s, have, None);
    assert (s + t)[..have] == s[..have] && (s + t)[..|s|] == s;
    SkipCheck(c, s + t, have, |s|);
  }

  lemma PacketsBefore(p: seq<Byte>, o: Outcome, r: Outcome)
    ensures AddFirst(p, r.(packets := o.packets + r.packets)) == r.(packets := AddFirst(p, o).packets + r.packets)
  {
    assert [p] + (o.packets + r.packets) == ([p] + o.packets) + r.packets;
  }

  lemma StartAtPacket(c: Config, s: seq<Byte>)
    ensures Partial(c, s[..0])
  {
  }

  lemma StepParse(c: Config, s: seq<Byte>, have: nat)
    requires FrontOf(c, s, have, None).Packet?
    ensures var n := FrontOf(c, s, have, None).n;
            Parse(c, s, have, None, false) == AddFirst(s[..n], Parse(c, s[n..], 0, None, false))
  {
  }

  /** Reading may stop anywhere and go on with the partial frame: this is why the split does not matter. */
  lemma {:induction false} ParseResumes(c: Config, s: seq<Byte>, t: seq<Byte>, have: nat)
    requires have <= |s| && Partial(c, s[..have]) && Parse(c, s, have, None, false).err == Ok
    ensures var o := Parse(c, s, have, None, false);
            var r := Parse(c, o.rest + t, |o.rest|, None, false);
            Parse(c, s + t, have, None, false) == r.(packets := o.packets + r.packets)
    decreases |s|
  {
    var f := FrontOf(c, s, have, None);
    if f.Wait? {
      ResumeWhileWaiting(c, s, t, have);
    } else {
      SameFront(c, s, t, have);
      var u := s[f.n..];
      StartAtPacket(c, u);
      hide FrontOf, Partial;
      StepParse(c, s, have);
      StepParse(c, s + t, have);
      hide Parse, AddFirst;
      ParseResumes(c, u, t, 0);
      var o := Parse(c, u, 0, None, false);
      var r := Parse(c, o.rest + t, |o.rest|, None, false);
      PacketsBefore(s[..f.n], o, r);
    }
  }

  /** The stray-byte rule changes nothing exactly when it never applies. */
  lemma {:induction false} RuleUnused(c: Config, s: seq<Byte>, have: nat, mem: Option<nat>, strict: bool)
    ensures Parse(c, s, have, mem, false).strays == 0
    ensures Parse(c, s, have, mem, strict).strays == 0 ==> Parse(c, s, have, mem, strict) == Parse(c, s, have, mem, false)
    decreases |s|
  {
    hide FrontOf;
    var f := FrontOf(c, s, have, mem);
    if f.Packet? {
      RuleUnused(c, s[f.n..], 0, if have == 0 then Left(mem) else mem, strict);
    }
  }

  // ---- allocation failures ----

  /** The skbs a reading fills: one for each packet, and one for what is left or refused. */
  function Begun(o: Outcome): nat {
    |o.packets| + if o.rest != [] || o.err != Ok then 1 else 0
  }

  /** When only `n` allocations succeed: with enough for the skbs that are new in this buffer nothing changes, and
      otherwise the packets of the first ones are handed up, the rest of the buffer is gone, and the call fails. */
  ghost predicate FailsAfter(o: Outcome, m: Outcome, filled: nat) {
    if Begun(o) <= filled then m == o
    else m.packets == o.packets[..filled] && m.rest == [] && m.err == NoMemory
  }

  lemma {:induction false} MemoryFailure(c: Config, s: seq<Byte>, have: nat, n: nat, strict: bool)
    requires have <= |s|
    ensures FailsAfter(Parse(c, s, have, None, strict), Parse(c, s, have, Some(n), strict), n + if have == 0 then 0 else 1)
    decreases |s|
  {
    hide Parse, FrontOf, Continue, FailsAfter;
    var f := FrontOf(c, s, have, None);
    if n == 0 && have == 0 {
      NothingAllocated(c, s, strict);
    } else {
      EnoughForFront(c, s, have, n);
      ParseUnroll(c, s, have, None, strict);
      ParseUnroll(c, s, have, Some(n), strict);
      if f.Packet? {
        var (t, stray) := Continue(s[f.n..], strict);
        var n' := if have == 0 then n - 1 else n;
        MemoryFailure(c, t, 0, n', strict);
        FailsFurther(s[..f.n], stray, Parse(c, t, 0, None, strict), Parse(c, t, 0, Some(n'), strict), n');
      } else {
        FailsNowhere(Parse(c, s, have, None, strict), n + if have == 0 then 0 else 1);
      }
    }
  }

  lemma EnoughForFront(c: Config, s: seq<Byte>, have: nat, n: nat)
    requires have > 0 || n > 0
    ensures FrontOf(c, s, have, Some(n)) == FrontOf(c, s, have, None)
  {
  }

  lemma ParseUnroll(c: Config, s: seq<Byte>, have: nat, mem: Option<nat>, strict: bool)
    ensures var f := FrontOf(c, s, have, mem);
            Parse(c, s, have, mem, strict) ==
              if f.Wait? then Outcome([], s, Ok, 0)
              else if f.Fail? then Outcome([], [], f.err, 0)
              else
                var (t, stray) := Continue(s[f.n..], strict);
                var o := Parse(c, t, 0, if have == 0 then Left(mem) else mem, strict);
                AddFirst(s[..f.n], o).(strays := stray + o.strays)
  {
    hide FrontOf, Continue;
  }

  lemma FailsNowhere(o: Outcome, filled: nat)
    requires o.packets == [] && filled > 0
    ensures FailsAfter(o, o, filled)
  {
  }

  lemma NothingAllocated(c: Config, s: seq<Byte>, strict: bool)
    ensures FailsAfter(Parse(c, s, 0, None, strict), Parse(c, s, 0, Some(0), strict), 0)
  {
    if s != [] {
      assert Parse(c, s, 0, Some(0), strict) == Outcome([], [], NoMemory, 0);
      assert FrontOf(c, s, 0, None).Wait? || FrontOf(c, s, 0, None).Fail? || FrontOf(c, s, 0, None).Packet?;
    }
  }

  lemma FailsFurther(p: seq<Byte>, stray: nat, o: Outcome, m: Outcome, filled: nat)
    requires FailsAfter(o, m, filled)
    ensures FailsAfter(AddFirst(p, o).(strays := stray + o.strays), AddFirst(p, m).(strays := stray + m.strays), filled + 1)
  {
    if Begun(o) > filled {
      assert ([p] + o.packets)[..filled + 1] == [p] + o.packets[..filled];
    }
  }

  // ---- whole streams ----

  lemma {:induction false} FeedConserves(c: Config, kept: seq<Byte>, buffers: seq<seq<Byte>>)
    ensures var o := Feed(c, kept, buffers);
            Total(o.packets) + |o.rest| + o.strays <= |kept| + |Flatten(buffers)|
    decreases |buffers|
  {
    if buffers != [] {
      var o := Receive(c, kept, buffers[0], None);
      ParseConserves(c, kept + buffers[0], |kept|, None, c.kind.Event?);
      FeedConserves(c, o.rest, buffers[1..]);
      TotalConcat(o.packets, Feed(c, o.rest, buffers[1..]).packets);
    }
  }

  /** Without errors in the one-pass reading, buffers without stray bytes read the same packets. */
  lemma {:induction false} FeedIsOnePass(c: Config, kept: seq<Byte>, buffers: seq<seq<Byte>>)
    requires Partial(c, kept) && Feed(c, kept, buffers).strays == 0
    requires Parse(c, kept + Flatten(buffers), |kept|, None, false).err == Ok
    ensures Feed(c, kept, buffers) == Parse(c, kept + Flatten(buffers), |kept|, None, false)
    decreases |buffers|
  {
    if buffers == [] {
      assert kept + Flatten(buffers) == kept;
    } else {
      var s := kept + buffers[0];
      var t := Flatten(buffers[1..]);
      assert kept + Flatten(buffers) == s + t;
      assert s[..|kept|] == kept;
      RuleUnused(c, s, |kept|, None, c.kind.Event?);
      FirstErrorStays(c, s, t, |kept|);
      ParseResumes(c, s, t, |kept|);
      RestIsPartial(c, s, |kept|, None, false);
      FeedIsOnePass(c, Receive(c, kept, buffers[0], None).rest, buffers[1..]);
    }
  }

  lemma {:induction false} FirstErrorStays(c: Config, s: seq<Byte>, t: seq<Byte>, have: nat)
    requires Parse(c, s + t, have, None, false).err == Ok
    ensures Parse(c, s, have, None, false).err == Ok
    decreases |s|
  {
    var f := FrontOf(c, s, have, None);
    var hdr := HdrSize(c.kind);
    assert |s| >= hdr ==> (s + t)[..hdr] == s[..hdr];
    if f.Packet? {
      SameFront(c, s, t, have);
      hide FrontOf;
      FirstErrorStays(c, s[f.n..], t, 0);
    }
  }

  // ---- where a split costs a byte ----

  /** The one-pass reading of everything up to buffer `i`, behind the partial frame `kept`. */
  function Reading(c: Config, kept: seq<Byte>, buffers: seq<seq<Byte>>, i: nat): Outcome
    requires i <= |buffers|
  {
    Parse(c, kept + Flatten(buffers[..i]), |kept|, None, false)
  }

  /** On the event path, buffer `i` completes a packet and ends one byte behind a packet. */
  predicate StrayAt(c: Config, kept: seq<Byte>, buffers: seq<seq<Byte>>, i: nat)
    requires i < |buffers|
  {
    var o := Reading(c, kept, buffers, i + 1);
    c.kind.Event? && |o.rest| == 1 && |o.packets| > |Reading(c, kept, buffers, i).packets|
  }

  /** In one buffer the rule applies exactly when its reading completes a packet and keeps a single byte. */
  lemma {:induction false} StraysIff(c: Config, s: seq<Byte>, have: nat)
    requires c.kind.Event? && Parse(c, s, have, None, false).err == Ok
    ensures var o := Parse(c, s, have, None, false);
            Parse(c, s, have, None, true).strays > 0 <==> o.packets != [] && |o.rest| == 1
    decreases |s|
  {
    var f := FrontOf(c, s, have, None);
    if f.Packet? {
      var u := s[f.n..];
      if |u| == 1 {
        assert Parse(c, u, 0, None, false) == Outcome([], u, Ok, 0);
      } else {
        hide FrontOf;
        StraysIff(c, u, 0);
        var o := Parse(c, u, 0, None, false);
        assert o.packets == [] ==> o.rest == u;
      }
    }
  }

  lemma ReadingNone(c: Config, kept: seq<Byte>, buffers: seq<seq<Byte>>)
    requires Partial(c, kept)
    ensures Reading(c, kept, buffers, 0) == Outcome([], kept, Ok, 0)
  {
    assert kept + Flatten(buffers[..0]) == kept + [];
    StillPartial(c, kept, None, false);
  }

  lemma ReadingOne(c: Config, kept: seq<Byte>, buffers: seq<seq<Byte>>)
    requires buffers != []
    ensures Reading(c, kept, buffers, 1) == Parse(c, kept + buffers[0], |kept|, None, false)
  {
    assert buffers[..1][1..] == [];
    assert Flatten(buffers[..1]) == buffers[0];
  }

  /** Beyond the first buffer, the reading goes on from the frame kept there. */
  lemma ReadingShift(c: Config, kept: seq<Byte>, buffers: seq<seq<Byte>>, i: nat)
    requires buffers != [] && i < |buffers| && Partial(c, kept)
    requires Parse(c, kept + buffers[0], |kept|, None, false).err == Ok
    ensures var o := Parse(c, kept + buffers[0], |kept|, None, false);
            var r := Reading(c, o.rest, buffers[1..], i);
            Reading(c, kept, buffers, i + 1) == r.(packets := o.packets + r.packets)
  {
    var t := Flatten(buffers[1..][..i]);
    assert buffers[..i + 1][1..] == buffers[1..][..i];
    assert kept + Flatten(buffers[..i + 1]) == kept + buffers[0] + t;
    assert (kept + buffers[0])[..|kept|] == kept;
    ParseResumes(c, kept + buffers[0], t, |kept|);
  }

  ghost predicate NoStray(c: Config, kept: seq<Byte>, buffers: seq<seq<Byte>>) {
    forall i :: 0 <= i < |buffers| ==> !StrayAt(c, kept, buffers, i)
  }

  lemma NoStrayShift(c: Config, kept: seq<Byte>, buffers: seq<seq<Byte>>)
    requires buffers != [] && Partial(c, kept) && Parse(c, kept + buffers[0], |kept|, None, false).err == Ok
    ensures NoStray(c, kept, buffers) <==>
            !StrayAt(c, kept, buffers, 0) && NoStray(c, Parse(c, kept + buffers[0], |kept|, None, false).rest, buffers[1..])
  {
    var rest := Parse(c, kept + buffers[0], |kept|, None, false).rest;
    forall i: nat | i < |buffers[1..]| ensures StrayAt(c, rest, buffers[1..], i) <==> StrayAt(c, kept, buffers, i + 1) {
      ReadingShift(c, kept, buffers, i);
      ReadingShift(c, kept, buffers, i + 1);
      hide Parse, Reading;
    }
    hide StrayAt, Parse;
    if NoStray(c, rest, buffers[1..]) {
      forall i | 1 <= i < |buffers| ensures !StrayAt(c, kept, buffers, i) {
        assert !StrayAt(c, rest, buffers[1..], i - 1);
      }
    }
  }

  /** No byte is thrown away as a stray exactly when no buffer completes a packet and ends one byte behind one. */
  lemma {:induction false} FeedStraysIff(c: Config, kept: seq<Byte>, buffers: seq<seq<Byte>>)
    requires Partial(c, kept) && Parse(c, kept + Flatten(buffers), |kept|, None, false).err == Ok
    ensures Feed(c, kept, buffers).strays == 0 <==> NoStray(c, kept, buffers)
    decreases |buffers|
  {
    if buffers != [] {
      var s := kept + buffers[0];
      var t := Flatten(buffers[1..]);
      assert kept + Flatten(buffers) == s + t && s[..|kept|] == kept;
      FirstErrorStays(c, s, t, |kept|);
      ParseResumes(c, s, t, |kept|);
      RestIsPartial(c, s, |kept|, None, false);
      RuleUnused(c, s, |kept|, None, c.kind.Event?);
      ReadingNone(c, kept, buffers);
      ReadingOne(c, kept, buffers);
      NoStrayShift(c, kept, buffers);
      if c.kind.Event? {
        StraysIff(c, s, |kept|);
      }
      var o := Receive(c, kept, buffers[0], None);
      assert o.strays > 0 <==> StrayAt(c, kept, buffers, 0);
      hide Parse, NoStray, StrayAt;
      if o.strays == 0 {
        FeedStraysIff(c, o.rest, buffers[1..]);
      }
    }
  }

  /** When reassembly depends on the split: for a stream that one pass reads without error, the packets handed up and
      the partial frame kept are those of the one pass if and only if no buffer completes a packet of the stream and
      ends one byte behind a packet. */
  lemma Reassembly(c: Config, buffers: seq<seq<Byte>>)
    requires OnePass(c, Flatten(buffers)).err == Ok
    ensures var o := Feed(c, [], buffers);
            var p := OnePass(c, Flatten(buffers));
            o.packets == p.packets && o.rest == p.rest <==> forall i :: 0 <= i < |buffers| ==> !StrayAt(c, [], buffers, i)
  {
    var s := Flatten(buffers);
    assert [] + s == s;
    FreshSkb(c);
    FeedConserves(c, [], buffers);
    ParseConserves(c, s, 0, None, false);
    RuleUnused(c, s, 0, None, false);
    FeedStraysIff(c, [], buffers);
    hide StrayAt, Parse, Partial;
    if Feed(c, [], buffers).strays == 0 {
      FeedIsOnePass(c, [], buffers);
    }
  }

  // ---- streams with a refused header ----

  lemma RefusedStays(c: Config, s: seq<Byte>, t: seq<Byte>, have: nat)
    requires FrontOf(c, s, have, None).Fail?
    ensures FrontOf(c, s + t, have, None) == FrontOf(c, s, have, None)
  {
    assert (s + t)[..HdrSize(c.kind)] == s[..HdrSize(c.kind)];
  }

  /** Once a header is refused, what follows does not matter. */
  lemma {:induction false} ErrorStays(c: Config, s: seq<Byte>, t: seq<Byte>, have: nat)
    requires Parse(c, s, have, None, false).err != Ok
    ensures Parse(c, s + t, have, None, false) == Parse(c, s, have, None, false)
    decreases |s|
  {
    var f := FrontOf(c, s, have, None);
    if f.Packet? {
      SameFront(c, s, t, have);
      hide FrontOf;
      ErrorStays(c, s[f.n..], t, 0);
    } else {
      RefusedStays(c, s, t, have);
    }
  }

  /** For every stream, in any split without stray bytes: the receive functions report the error of the one-pass
      reading, and the packets in front of a refused header are handed up whatever the split. */
  lemma {:induction false} FeedReportsError(c: Config, kept: seq<Byte>, buffers: seq<seq<Byte>>)
    requires Partial(c, kept) && Feed(c, kept, buffers).strays == 0
    ensures var o := Feed(c, kept, buffers);
            var p := Parse(c, kept + Flatten(buffers), |kept|, None, false);
            o.err == p.err && p.packets <= o.packets
    decreases |buffers|
  {
    if buffers == [] {
      StillPartial(c, kept, None, false);
    } else {
      var s := kept + buffers[0];
      var t := Flatten(buffers[1..]);
      assert kept + Flatten(buffers) == s + t;
      assert s[..|kept|] == kept;
      RuleUnused(c, s, |kept|, None, c.kind.Event?);
      RestIsPartial(c, s, |kept|, None, false);
      hide Partial;
      if Parse(c, s, |kept|, None, false).err == Ok {
        ParseResumes(c, s, t, |kept|);
        FeedReportsError(c, Receive(c, kept, buffers[0], None).rest, buffers[1..]);
      } else {
        ErrorStays(c, s, t, |kept|);
      }
    }
  }

  /** Only the event path drops stray bytes, so bulk, isochronous and ISO reassembly never depend on the split. */
  lemma {:induction false} OnlyEventsStray(c: Config, kept: seq<Byte>, buffers: seq<seq<Byte>>)
    ensures !c.kind.Event? ==> Feed(c, kept, buffers).strays == 0
    decreases |buffers|
  {
    if buffers != [] {
      RuleUnused(c, kept + buffers[0], |kept|, None, c.kind.Event?);
      OnlyEventsStray(c, Receive(c, kept, buffers[0], None).rest, buffers[1..]);
    }
  }

  // ---- the parser against the packet format ----

  ghost predicate WellFormedPacket(c: Config, p: seq<Byte>) {
    var hdr := HdrSize(c.kind);
    |p| >= hdr && Accepts(c, p[..hdr]) && |p| == hdr + BodySize(c.kind, p[..hdr])
  }

  /** Printing packets one after the other and reading the bytes gives them back, with the tail as partial frame. */
  lemma {:induction false} ReadsWhatWasSent(c: Config, ps: seq<seq<Byte>>, tail: seq<Byte>)
    requires Partial(c, tail) && forall p <- ps :: WellFormedPacket(c, p)
    ensures OnePass(c, Flatten(ps) + tail) == Outcome(ps, tail, Ok, 0)
    decreases |ps|
  {
    if ps == [] {
      assert [] + tail == tail;
    } else {
      var s := Flatten(ps) + tail;
      var u := Flatten(ps[1..]) + tail;
      assert s == ps[0] + u;
      assert ps[0] in ps;
      SameFront(c, ps[0], u, 0);
      assert ps[0] + u == s && ps[0][|ps[0]|..] + u == u && ps[0][..|ps[0]|] == ps[0];
      hide FrontOf, WellFormedPacket;
      ReadsWhatWasSent(c, ps[1..], tail);
      StepParse(c, s, 0);
      assert [ps[0]] + ps[1..] == ps;
    }
  }

  lemma FirstPacketFlattens(p: seq<Byte>, o: Outcome)
    ensures Flatten(AddFirst(p, o).packets) + o.rest == p + (Flatten(o.packets) + o.rest)
  {
    assert ([p] + o.packets)[1..] == o.packets;
  }

  lemma {:induction false} ReadsWholeStream(c: Config, s: seq<Byte>)
    requires OnePass(c, s).err == Ok
    ensures var o := OnePass(c, s); Flatten(o.packets) + o.rest == s
    decreases |s|
  {
    hide FrontOf;
    var f := FrontOf(c, s, 0, None);
    if f.Packet? {
      StepParse(c, s, 0);
      hide Parse;
      ReadsWholeStream(c, s[f.n..]);
      FirstPacketFlattens(s[..f.n], OnePass(c, s[f.n..]));
      assert s == s[..f.n] + s[f.n..];
    }
  }

  lemma {:induction false} ReadsWellFormed(c: Config, s: seq<Byte>)
    ensures forall p <- OnePass(c, s).packets :: WellFormedPacket(c, p)
    decreases |s|
  {
    var f := FrontOf(c, s, 0, None);
    if f.Packet? {
      assert s[..f.n][..HdrSize(c.kind)] == s[..HdrSize(c.kind)];
      assert WellFormedPacket(c, s[..f.n]);
      hide FrontOf, WellFormedPacket;
      ReadsWellFormed(c, s[f.n..]);
      StepParse(c, s, 0);
    }
  }

  /** And what was read without error is the stream, cut into well-formed packets. */
  lemma SentWhatIsRead(c: Config, s: seq<Byte>)
    requires OnePass(c, s).err == Ok
    ensures var o := OnePass(c, s);
            Flatten(o.packets) + o.rest == s && Partial(c, o.rest) && forall p <- o.packets :: WellFormedPacket(c, p)
  {
    ReadsWholeStream(c, s);
    ReadsWellFormed(c, s);
    RestIsPartial(c, s, 0, None, false);
  }

  // ---- the receive functions ----

  function Missing(c: Config, s: seq<Byte>): int {
    var hdr := HdrSize(c.kind);
    if |s| < hdr then hdr - |s| else hdr + BodySize(c.kind, s[..hdr]) - |s|
  }

  function Then(packets: seq<seq<Byte>>, strays: nat, o: Outcome): Outcome {
    Outcome(packets + o.packets, o.rest, o.err, strays + o.strays)
  }

  /** Once allocated and past the header check, more bytes may be counted as kept. */
  lemma Absorb(c: Config, s: seq<Byte>, h1: nat, h2: nat, mem: Option<nat>, strict: bool)
    requires h1 <= h2 <= |s| && 0 < h2 && (h1 == 0 ==> mem != Some(0))
    requires h1 < HdrSize(c.kind) <= h2 ==> Accepts(c, s[..HdrSize(c.kind)])
    ensures Parse(c, s, h1, mem, strict) == Parse(c, s, h2, if h1 == 0 then Left(mem) else mem, strict)
  {
  }

  lemma CompleteFrame(c: Config, p: seq<Byte>, rest: seq<Byte>, mem: Option<nat>, strict: bool)
    requires |p| >= HdrSize(c.kind) && Missing(c, p) == 0
    ensures var (t, stray) := Continue(rest, strict);
            Parse(c, p + rest, |p|, mem, strict) == Then([p], stray, Parse(c, t, 0, mem, strict))
  {
    assert (p + rest)[..HdrSize(c.kind)] == p[..HdrSize(c.kind)];
    assert (p + rest)[..|p|] == p && (p + rest)[|p|..] == rest;
  }

  lemma ThenThen(ps: seq<seq<Byte>>, n: nat, p: seq<Byte>, k: nat, o: Outcome)
    ensures Then(ps, n, Then([p], k, o)) == Then(ps + [p], n + k, o)
  {
    assert ps + ([p] + o.packets) == (ps + [p]) + o.packets;
  }

  lemma Refused(c: Config, s: seq<Byte>, have: nat, mem: Option<nat>, strict: bool)
    requires have < HdrSize(c.kind) <= |s| && (have == 0 ==> mem != Some(0)) && !Accepts(c, s[..HdrSize(c.kind)])
    ensures Parse(c, s, have, mem, strict) == Outcome([], [], IllegalSequence, 0)
  {
  }

  lemma NoRoom(c: Config, rest: seq<Byte>, strict: bool)
    requires rest != []
    ensures Parse(c, [] + rest, 0, Some(0), strict) == Outcome([], [], NoMemory, 0)
  {
  }

  lemma FreshSkb(c: Config)
    ensures Partial(c, []) && Missing(c, []) == HdrSize(c.kind)
  {
  }

  lemma StillPartial(c: Config, s: seq<Byte>, mem: Option<nat>, strict: bool)
    requires Partial(c, s)
    ensures Parse(c, s + [], |s|, mem, strict) == Outcome([], s, Ok, 0)
  {
    assert s + [] == s;
  }

  /** One receive path: the skb being filled (empty for none), the bytes it still expects, and the frames handed up. */
  class Reassembler {
    const c: Config
    var skb: seq<Byte>
    var expected: int
    var delivered: seq<seq<Byte>>

    ghost predicate Valid()
      reads this
    {
      Partial(c, skb) && (skb != [] ==> expected == Missing(c, skb))
    }

    constructor (c: Config)
      ensures Valid() && this.c == c && skb == [] && delivered == []
    {
      this.c, skb, expected, delivered := c, [], 0, [];
    }

    /** Moves as many bytes as expected into the skb and checks the header when it is complete. */
    method Take(buffer: seq<Byte>) returns (rest: seq<Byte>, ok: bool)
      requires buffer != [] && Partial(c, skb) && expected == Missing(c, skb)
      modifies this`skb, this`expected
      ensures ok ==> skb + rest == old(skb) + buffer && |old(skb)| < |skb|
      ensures ok ==> (|old(skb)| < HdrSize(c.kind) <= |skb| ==> Accepts(c, (skb + rest)[..HdrSize(c.kind)]))
      ensures ok ==> expected == Missing(c, skb) && 0 <= expected
      ensures ok && expected > 0 ==> Partial(c, skb)
      ensures ok && expected == 0 ==> |skb| >= HdrSize(c.kind)
      ensures !ok ==> skb == [] && |old(skb)| < HdrSize(c.kind) <= |old(skb) + buffer|
                      && !Accepts(c, (old(skb) + buffer)[..HdrSize(c.kind)])
    {
      var hdr := HdrSize(c.kind);
      var len := if expected < |buffer| then expected else |buffer|;
      ghost var before, s := skb, skb + buffer;
      skb, rest, expected := skb + buffer[..len], buffer[len..], expected - len;
      assert skb + rest == s && (|skb| >= hdr ==> s[..hdr] == skb[..hdr]);
      assert |before| >= hdr ==> before[..hdr] == s[..hdr];
      ok := true;
      if |skb| == hdr {
        assert skb[..hdr] == skb;
        expected := BodySize(c.kind, skb);
        if !Accepts(c, skb) {
          skb, ok := [], false;
        }
      }
    }

    /** `btusb_recv_intr`, `btusb_recv_bulk`, `btusb_recv_isoc` or `btmtk_recv_isopkt`, by the kind of packet. */
    method Recv(buffer: seq<Byte>, mem: Option<nat>) returns (err: Error)
      requires Valid()
      modifies this`skb, this`expected, this`delivered
      ensures Valid()
      ensures var o := Receive(c, old(skb), buffer, mem);
              skb == o.rest && err == o.err && delivered == old(delivered) + o.packets
    {
      var rest, left := buffer, mem;
      ghost var got: seq<seq<Byte>>, strays := [], 0;
      ghost var strict := c.kind.Event?;
      FreshSkb(c);
      hide Parse, Partial, Missing, Accepts;
      while rest != []
        invariant Valid() && delivered == old(delivered) + got
        invariant Receive(c, old(skb), buffer, mem) == Then(got, strays, Parse(c, skb + rest, |skb|, left, strict))
        decreases |rest|
      {
        ghost var s, have, m := skb + rest, |skb|, left;
        if skb == [] {
          if left == Some(0) {
            NoRoom(c, rest, strict);
            return NoMemory;
          }
          left := Left(left);
          expected := HdrSize(c.kind);
        }
        var ok;
        rest, ok := Take(rest);
        if !ok {
          Refused(c, s, have, m, strict);
          return IllegalSequence;
        }
        Absorb(c, s, have, |skb|, m, strict);
        if expected == 0 {
          CompleteFrame(c, skb, rest, left, strict);
          ghost var (t, stray) := Continue(rest, strict);
          ThenThen(got, strays, skb, stray, Parse(c, t, 0, left, strict));
          if c.kind.Event? && 0 < |rest| < HdrSize(Event) {
            rest := [];
          }
          got, strays := got + [skb], strays + stray;
          delivered, skb := delivered + [skb], [];
          assert skb + rest == t;
        }
      }
      StillPartial(c, skb, left, strict);
      err := Ok;
    }
  }
}
