/** Collecting the subframes of an A-MSDU (`mt76_rx_release_burst`): frames hang on the first one in a list that is
    extended through a pointer to its last link. */
module Amsdu {

  /** `rfc1042` tells whether the LLC/SNAP header stands where the destination address should be. */
  datatype Frame = Frame(id: nat, amsdu: bool, first: bool, last: bool, seqno: nat, rfc1042: bool)

  /** The groups handed over or dropped so far, and the group being collected. */
  datatype Groups = Groups(closed: seq<seq<Frame>>, open: seq<Frame>)

  /** `mt76_rx_release_amsdu`. */
  function Close(s: Groups): Groups {
    Groups(s.closed + [s.open], [])
  }

  /** `mt76_rx_release_burst`. */
  function Burst(s: Groups, f: Frame): Groups {
    var s1 := if s.open != [] && (!f.amsdu || f.first || f.seqno != s.open[0].seqno) then Close(s) else s;
    var s2 := s1.(open := s1.open + [f]);
    if !f.amsdu || f.last then Close(s2) else s2
  }

  function Run(fs: seq<Frame>): Groups {
    if fs == [] then Groups([], []) else Burst(Run(fs[..|fs| - 1]), fs[|fs| - 1])
  }

  // ---- the grouping rule ----

  /** Two consecutive frames belong to different groups. */
  predicate Boundary(a: Frame, b: Frame) {
    !a.amsdu || a.last || !b.amsdu || b.first || b.seqno != a.seqno
  }

  /** The frames cut at the boundaries. */
  function Partition(fs: seq<Frame>): (gs: seq<seq<Frame>>)
    ensures |gs| > 0 <==> fs != []
  {
    if fs == [] then []
    else
      var n := |fs| - 1;
      var gs := Partition(fs[..n]);
      if n == 0 || Boundary(fs[n - 1], fs[n]) then gs + [[fs[n]]]
      else gs[..|gs| - 1] + [gs[|gs| - 1] + [fs[n]]]
  }

  function AllGroups(s: Groups): seq<seq<Frame>> {
    if s.open == [] then s.closed else s.closed + [s.open]
  }

  /** The open group is one sequence number of A-MSDU subframes that goes on, ending with the latest frame. */
  ghost predicate OpenIs(s: Groups, fs: seq<Frame>) {
    && (s.open == [] <==> fs == [] || !fs[|fs| - 1].amsdu || fs[|fs| - 1].last)
    && (s.open != [] ==> fs != [] && s.open[|s.open| - 1] == fs[|fs| - 1])
    && (forall i :: 0 <= i < |s.open| ==> s.open[i].seqno == s.open[0].seqno)
  }

  lemma BurstGroups(s: Groups, f: Frame)
    ensures var cut := s.open == [] || !f.amsdu || f.first || f.seqno != s.open[0].seqno;
            AllGroups(Burst(s, f)) == if cut then AllGroups(s) + [[f]] else s.closed + [s.open + [f]]
  {
    assert [] + [f] == [f];
  }

  lemma BurstOpen(s: Groups, fs: seq<Frame>, f: Frame)
    requires OpenIs(s, fs)
    ensures OpenIs(Burst(s, f), fs + [f])
  {
    assert [] + [f] == [f];
  }

  lemma PartitionMore(fs: seq<Frame>, closed: seq<seq<Frame>>, g: seq<Frame>)
    requires |fs| > 1 && !Boundary(fs[|fs| - 2], fs[|fs| - 1]) && Partition(fs[..|fs| - 1]) == closed + [g]
    ensures Partition(fs) == closed + [g + [fs[|fs| - 1]]]
  {
    var gs := closed + [g];
    assert gs[..|gs| - 1] == closed && gs[|gs| - 1] == g;
  }

  lemma PartitionCut(fs: seq<Frame>)
    requires fs != [] && (|fs| > 1 ==> Boundary(fs[|fs| - 2], fs[|fs| - 1]))
    ensures Partition(fs) == Partition(fs[..|fs| - 1]) + [[fs[|fs| - 1]]]
  {
  }

  /** The groups are exactly the frames cut at the boundaries, for every sequence of frames. */
  lemma {:induction false} RunIsPartition(fs: seq<Frame>)
    ensures AllGroups(Run(fs)) == Partition(fs) && OpenIs(Run(fs), fs)
    decreases |fs|
  {
    if fs != [] {
      var n := |fs| - 1;
      RunIsPartition(fs[..n]);
      var s, f := Run(fs[..n]), fs[n];
      BurstOpen(s, fs[..n], f);
      BurstGroups(s, f);
      assert fs[..n] + [f] == fs;
      if s.open != [] {
        var last := s.open[|s.open| - 1];
        assert last == fs[n - 1] && last.seqno == s.open[0].seqno;
      }
      hide Burst, Partition;
      if s.open != [] && !Boundary(fs[n - 1], f) {
        PartitionMore(fs, s.closed, s.open);
      } else {
        PartitionCut(fs);
      }
    }
  }

  function Flatten(gs: seq<seq<Frame>>): seq<Frame> {
    if gs == [] then [] else Flatten(gs[..|gs| - 1]) + gs[|gs| - 1]
  }

  lemma FlattenMore(gs: seq<seq<Frame>>, g: seq<Frame>, f: Frame)
    ensures Flatten(gs + [g + [f]]) == Flatten(gs + [g]) + [f]
    ensures Flatten(gs + [g]) == Flatten(gs) + g
  {
    assert (gs + [g + [f]])[..|gs|] == gs && (gs + [g])[..|gs|] == gs;
  }

  lemma {:induction false} PartitionFlattens(fs: seq<Frame>)
    ensures Flatten(Partition(fs)) == fs
    decreases |fs|
  {
    if fs != [] {
      var n := |fs| - 1;
      PartitionFlattens(fs[..n]);
      var gs := Partition(fs[..n]);
      assert fs == fs[..n] + [fs[n]];
      if n == 0 || Boundary(fs[n - 1], fs[n]) {
        FlattenMore(gs, [fs[n]], fs[n]);
      } else {
        var k := |gs| - 1;
        assert gs == gs[..k] + [gs[k]];
        hide Flatten;
        FlattenMore(gs[..k], gs[k], fs[n]);
      }
    }
  }

  /** A singleton, or subframes of one A-MSDU: a first mark only at the head, a last mark only at the end. */
  ghost predicate WellShaped(g: seq<Frame>) {
    && |g| > 0
    && (|g| > 1 ==> forall i :: 0 <= i < |g| ==> g[i].amsdu && g[i].seqno == g[0].seqno)
    && (forall i :: 0 < i < |g| ==> !g[i].first)
    && (forall i :: 0 <= i < |g| - 1 ==> !g[i].last)
  }

  lemma {:induction false} PartitionShape(fs: seq<Frame>)
    ensures forall g <- Partition(fs) :: WellShaped(g)
    ensures fs != [] ==> var gs := Partition(fs); var g := gs[|gs| - 1]; g != [] && g[|g| - 1] == fs[|fs| - 1]
    decreases |fs|
  {
    if fs != [] {
      var n := |fs| - 1;
      PartitionShape(fs[..n]);
      var gs := Partition(fs[..n]);
      if n > 0 && !Boundary(fs[n - 1], fs[n]) {
        var g := gs[|gs| - 1];
        assert g in gs;
        var h := g + [fs[n]];
        assert WellShaped(h) by {
          assert g[|g| - 1] == fs[n - 1];
        }
      } else {
        assert WellShaped([fs[n]]);
      }
    }
  }

  /** Closed groups and the open one, flattened, are the frames in order; each is well shaped. */
  lemma GroupsAreFaithful(fs: seq<Frame>)
    ensures Flatten(AllGroups(Run(fs))) == fs && forall g <- AllGroups(Run(fs)) :: WellShaped(g)
  {
    RunIsPartition(fs);
    PartitionFlattens(fs);
    PartitionShape(fs);
  }

  // ---- the linked list ----

  /** A socket buffer with the two links that the list is made of. */
  class Skb {
    const frame: Frame
    var next: Skb?
    var fragList: Skb?

    constructor (frame: Frame)
      ensures this.frame == frame && next == null && fragList == null
    {
      this.frame, next, fragList := frame, null, null;
    }
  }

  /** `head` starts a list of exactly the buffers of `g`: the second one is its fragment list, the others follow. */
  ghost predicate Linked(g: seq<Skb>)
    reads g
  {
    && |g| > 0
    && (forall i, j :: 0 <= i < j < |g| ==> g[i] != g[j])
    && (|g| == 1 ==> g[0].fragList == null)
    && (|g| > 1 ==> g[0].fragList == g[1] && g[|g| - 1].next == null)
    && (forall i :: 1 <= i < |g| - 1 ==> g[i].next == g[i + 1])
  }

  ghost function FramesOf(g: seq<Skb>): (fs: seq<Frame>)
    ensures |fs| == |g|
  {
    seq(|g|, i requires 0 <= i < |g| => g[i].frame)
  }

  /** Where the next buffer will be linked: the address the source keeps in `tail`. */
  datatype Tail = NoTail | FragOf(skb: Skb) | NextOf(skb: Skb)

  class RxAmsdu {
    var head: Skb?
    var tail: Tail
    var seqno: nat
    ghost var group: seq<Skb>

    ghost predicate Valid()
      reads this, group
    {
      if group == [] then head == null
      else
        && Linked(group) && head == group[0] && seqno == group[0].frame.seqno
        && tail == if |group| == 1 then FragOf(group[0]) else NextOf(group[|group| - 1])
    }

    constructor ()
      ensures Valid() && group == []
    {
      head, tail, seqno, group := null, NoTail, 0, [];
    }

    /** `mt76_rx_release_amsdu`: hands out the head of the list unless the group must be dropped. */
    method ReleaseAmsdu() returns (out: Skb, dropped: bool, ghost g: seq<Skb>)
      requires Valid() && group != []
      modifies this
      ensures Valid() && group == [] && g == old(group) && out == g[0] && Linked(g)
      ensures dropped <==> |g| > 1 && g[0].frame.rfc1042
    {
      out, g := head, group;
      head, tail, group := null, NoTail, [];
      dropped := out.fragList != null && out.frame.rfc1042;
    }

    /** `mt76_rx_release_burst`: the lists it closes come out in order, each exactly as long as its group. */
    method ReleaseBurst(skb: Skb) returns (outs: seq<(Skb, bool)>, ghost gs: seq<seq<Skb>>)
      requires Valid() && skb !in group && skb.next == null && skb.fragList == null
      modifies this, set s | s in group
      ensures Valid() && |outs| == |gs|
      ensures forall i :: 0 <= i < |gs| ==> Linked(gs[i]) && outs[i] == (gs[i][0], |gs[i]| > 1 && gs[i][0].frame.rfc1042)
      ensures var s := Burst(Groups([], old(FramesOf(group))), skb.frame);
              FramesOf(group) == s.open && |gs| == |s.closed| && forall i :: 0 <= i < |gs| ==> FramesOf(gs[i]) == s.closed[i]
    {
      outs, gs := [], [];
      if head != null && (!skb.frame.amsdu || skb.frame.first || skb.frame.seqno != seqno) {
        var out, dropped;
        ghost var g;
        out, dropped, g := ReleaseAmsdu();
        outs, gs := [(out, dropped)], [g];
      }
      Append(skb);
      if !skb.frame.amsdu || skb.frame.last {
        var out, dropped;
        ghost var g;
        out, dropped, g := ReleaseAmsdu();
        outs, gs := outs + [(out, dropped)], gs + [g];
      }
    }

    /** Starts a list with `skb`, or links it at the tail. */
    method Append(skb: Skb)
      requires Valid() && skb !in group && skb.next == null && skb.fragList == null
      modifies this, set s | s in group
      ensures Valid() && group == old(group) + [skb]
    {
      if head == null {
        tail, seqno, head := FragOf(skb), skb.frame.seqno, skb;
      } else {
        match tail {
          case FragOf(s) => s.fragList := skb;
          case NextOf(s) => s.next := skb;
        }
        tail := NextOf(skb);
      }
      group := group + [skb];
    }
  }
}
