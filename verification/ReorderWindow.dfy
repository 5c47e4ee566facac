/** The reordering rule without a circular buffer: the head is an unbounded integer and the frames that
    wait are a map from unbounded sequence numbers. ReorderBuffer is proved to compute the same thing. */
module ReorderWindow {
  import opened ReorderBuffer

  type Held = map<nat, Entry>

  datatype Window = Window(head: nat, held: Held)

  /** A frame released at unbounded sequence number `u`. */
  datatype Release = Release(u: nat, frame: Frame)

  function Frames(rs: seq<Release>): (fs: seq<Frame>)
    ensures |fs| == |rs|
  {
    seq(|rs|, i requires 0 <= i < |rs| => rs[i].frame)
  }

  lemma FramesConcat(a: seq<Release>, b: seq<Release>)
    ensures Frames(a + b) == Frames(a) + Frames(b)
  {
  }

  function Pop(w: Window): (Window, seq<Release>) {
    if w.head in w.held then
      (Window(w.head + 1, w.held - {w.head}), [Release(w.head, w.held[w.head].frame)])
    else
      (Window(w.head + 1, w.held), [])
  }

  /** Moves the head up to `to`, releasing what it passes. */
  function Flush(w: Window, target: nat): (Window, seq<Release>)
    decreases target - w.head
  {
    if w.head >= target then
      (w, [])
    else
      var (w1, r1) := Pop(w);
      var (w2, r2) := Flush(w1, target);
      (w2, r1 + r2)
  }

  /** Releases the frames that are next in order. */
  function Drain(w: Window): (Window, seq<Release>)
    decreases w.held.Keys
  {
    if w.head !in w.held then
      (w, [])
    else
      var (w1, r1) := Pop(w);
      var (w2, r2) := Drain(w1);
      (w2, r1 + r2)
  }

  /** The greatest expired number in [lo, hi), or `dflt` when there is none. */
  function LastExpired(held: Held, lo: nat, hi: nat, dflt: nat, now: nat, timeo: nat): nat
    decreases hi - lo
  {
    if lo >= hi then
      dflt
    else
      LastExpired(held, lo + 1, hi, if lo in held && Expired(held[lo], now, timeo) then lo else dflt, now, timeo)
  }

  lemma {:induction false} LastExpiredIsLast(held: Held, lo: nat, hi: nat, dflt: nat, now: nat, timeo: nat)
    requires dflt <= lo <= hi
    ensures var m := LastExpired(held, lo, hi, dflt, now, timeo);
            && dflt <= m <= hi
            && (m == dflt || (lo <= m < hi && m in held && Expired(held[m], now, timeo)))
            && (forall u | u in held && lo <= u < hi && Expired(held[u], now, timeo) :: u <= m)
    decreases hi - lo
  {
    if lo < hi {
      var d := if lo in held && Expired(held[lo], now, timeo) then lo else dflt;
      LastExpiredIsLast(held, lo + 1, hi, d, now, timeo);
    }
  }

  ghost predicate Increasing(rs: seq<Release>, lo: nat, hi: nat) {
    && (forall i :: 0 <= i < |rs| ==> lo <= rs[i].u < hi)
    && (forall i, j :: 0 <= i < j < |rs| ==> rs[i].u < rs[j].u)
  }

  /** `rs` hands out, in order, exactly the frames of `w` that are not in `w'`. */
  ghost predicate Releases(w: Window, w': Window, rs: seq<Release>) {
    && w.head <= w'.head
    && Increasing(rs, w.head, w'.head)
    && (forall i :: 0 <= i < |rs| ==> rs[i].u in w.held && rs[i].frame == w.held[rs[i].u].frame)
    && (forall u | u in w.held && w.head <= u < w'.head :: exists i :: 0 <= i < |rs| && rs[i].u == u)
    && w'.held == (map u | u in w.held && (u < w.head || u >= w'.head) :: w.held[u])
  }

  lemma ReleasesCompose(w: Window, w1: Window, w2: Window, r1: seq<Release>, r2: seq<Release>)
    requires Releases(w, w1, r1) && Releases(w1, w2, r2)
    ensures Releases(w, w2, r1 + r2)
  {
    var rs := r1 + r2;
    forall u | u in w.held && w.head <= u < w2.head
      ensures exists i :: 0 <= i < |rs| && rs[i].u == u
    {
      if u < w1.head {
        var i :| 0 <= i < |r1| && r1[i].u == u;
        assert rs[i].u == u;
      } else {
        assert u in w1.held;
        var i :| 0 <= i < |r2| && r2[i].u == u;
        assert rs[|r1| + i].u == u;
      }
    }
  }

  lemma PopReleases(w: Window)
    ensures var (w', rs) := Pop(w); Releases(w, w', rs)
  {
    var (w', rs) := Pop(w);
    if w.head in w.held {
      assert rs[0].u == w.head;
    }
  }

  lemma {:induction false} FlushReleases(w: Window, target: nat)
    ensures var (w', rs) := Flush(w, target);
            Releases(w, w', rs) && w'.head == (if w.head >= target then w.head else target)
    decreases target - w.head
  {
    if w.head < target {
      var (w1, r1) := Pop(w);
      PopReleases(w);
      FlushReleases(w1, target);
      var (w2, r2) := Flush(w1, target);
      ReleasesCompose(w, w1, w2, r1, r2);
    }
  }

  lemma {:induction false} DrainReleases(w: Window)
    ensures var (w', rs) := Drain(w);
            && Releases(w, w', rs) && w'.head !in w'.held
            && (forall u :: w.head <= u < w'.head ==> u in w.held)
    decreases w.held.Keys
  {
    if w.head in w.held {
      var (w1, r1) := Pop(w);
      PopReleases(w);
      DrainReleases(w1);
      var (w2, r2) := Drain(w1);
      ReleasesCompose(w, w1, w2, r1, r2);
    }
  }

  lemma {:induction false} FlushTwice(w: Window, a: nat, b: nat)
    requires a <= b
    ensures var (w1, r1) := Flush(w, a);
            var (w2, r2) := Flush(w1, b);
            Flush(w, b) == (w2, r1 + r2)
    decreases a - w.head
  {
    var (w1, r1) := Flush(w, a);
    var (w2, r2) := Flush(w1, b);
    if w.head < a {
      var (p, rp) := Pop(w);
      FlushTwice(p, a, b);
      var (w1', r1') := Flush(p, a);
      assert r1 + r2 == rp + (r1' + r2);
    } else {
      assert r1 + r2 == r2;
    }
  }

  /** A timeout: everything up to the last expired frame goes, then whatever is in order behind it. */
  function Timeout(w: Window, size: nat, now: nat, timeo: nat): (Window, seq<Release>) {
    var (w1, r1) := Flush(w, LastExpired(w.held, w.head, w.head + size, w.head, now, timeo));
    var (w2, r2) := Drain(w1);
    (w2, r1 + r2)
  }

  /** A block-ack request whose number lies `d` ahead of the head. */
  function BlockAckRequest(w: Window, d: nat): (Window, seq<Release>) {
    var (w1, r1) := Flush(w, w.head + d);
    var (w2, r2) := Drain(w1);
    (w2, r1 + r2)
  }

  datatype Outcome = Outcome(w: Window, released: seq<Release>, freed: seq<Frame>)

  /** A frame `d` ahead of the head, `d` at most half the circle, arrives at a window of `size`. */
  function Arrive(w: Window, size: nat, f: Frame, d: nat, now: nat): Outcome {
    var u := w.head + d;
    if d == 0 then
      var (w1, r1) := Drain(Window(u + 1, w.held));
      Outcome(w1, [Release(u, f)] + r1, [])
    else
      var (w1, r1) := if d >= size then Flush(w, u - size + 1) else (w, []);
      if u in w1.held then
        Outcome(w1, r1, [f])
      else
        var (w2, r2) := Drain(Window(w1.head, w1.held[u := Entry(f, now)]));
        Outcome(w2, r1 + r2, [])
  }
}
