/** Transmit tokens with backpressure: `mt76_token_consume`, `mt76_token_release` and the batches of `mt7921_mac_tx_free`,
    at the granularity of `token_lock`. Any number of batches and senders interleave. */
module Tokens {
  import opened Basics

  const FREE_THR := 64

  /** `wakes` holds the local flag `wake` of every batch in progress; a finished batch is None. */
  datatype State = State(start: nat, size: nat, live: set<nat>, count: int, blocked: bool, wakes: seq<Option<bool>>)

  /** `Consume` carries what the IDR returned, if anything. */
  datatype Event = Consume(grant: Option<nat>) | BeginBatch | Release(batch: nat, token: nat) | EndBatch(batch: nat)

  function Init(start: nat, size: nat): State {
    State(start, size, {}, 0, false, [])
  }

  /** TX must be blocked from this count on. */
  function Threshold(s: State): int {
    s.size - FREE_THR
  }

  predicate Full(s: State) {
    s.count >= Threshold(s)
  }

  /** The IDR hands out ids in range that are not in use. */
  predicate ValidEvent(s: State, e: Event) {
    e.Consume? && e.grant.Some? ==> s.start <= e.grant.value < s.start + s.size && e.grant.value !in s.live
  }

  function ConsumeStep(s: State, grant: Option<nat>): State {
    var s1 := if grant.Some? then s.(live := s.live + {grant.value}, count := s.count + 1) else s;
    if Full(s1) then s1.(blocked := true) else s1
  }

  /** One call of `mt76_token_release`; the result tells whether it raised the caller's flag. */
  function ReleaseStep(s: State, token: nat): (State, bool) {
    var s1 := if token in s.live then s.(live := s.live - {token}, count := s.count - 1) else s;
    (s1, !Full(s1) && s1.blocked)
  }

  predicate Running(s: State, b: nat) {
    b < |s.wakes| && s.wakes[b].Some?
  }

  function Step(s: State, e: Event): State {
    match e
    case Consume(grant) => ConsumeStep(s, grant)
    case BeginBatch => s.(wakes := s.wakes + [Some(false)])
    case Release(b, token) =>
      if !Running(s, b) then s
      else
        var (s1, wake) := ReleaseStep(s, token);
        s1.(wakes := s.wakes[b := Some(s.wakes[b].value || wake)])
    case EndBatch(b) =>
      if !Running(s, b) then s
      else s.(blocked := s.blocked && !s.wakes[b].value, wakes := s.wakes[b := None])
  }

  ghost predicate ValidRun(s: State, es: seq<Event>)
    decreases |es|
  {
    es == [] || (ValidEvent(s, es[0]) && ValidRun(Step(s, es[0]), es[1..]))
  }

  function Run(s: State, es: seq<Event>): State
    decreases |es|
  {
    if es == [] then s else Run(Step(s, es[0]), es[1..])
  }

  ghost predicate WillWake(s: State) {
    exists b :: 0 <= b < |s.wakes| && s.wakes[b] == Some(true)
  }

  predicate InRange(start: nat, size: nat, i: nat) {
    start <= i < start + size
  }

  ghost function Range(start: nat, size: nat): set<nat> {
    set i: nat | i < start + size && InRange(start, size, i)
  }

  lemma {:induction false} RangeSize(start: nat, size: nat)
    ensures |Range(start, size)| == size
    decreases size
  {
    if size > 0 {
      RangeSize(start, size - 1);
      assert Range(start, size) == Range(start, size - 1) + {start + size - 1};
    } else {
      assert Range(start, size) == {};
    }
  }

  lemma SubsetSize(a: set<nat>, b: set<nat>)
    requires a <= b
    ensures |a| <= |b|
  {
    assert |b| == |a| + |b - a| by {
      assert b == a + (b - a);
    }
  }

  /** The count is the number of live tokens, which are in range; and TX is never left blocked below
      the threshold without a batch that is about to unblock it. */
  ghost predicate Inv(s: State) {
    && s.live <= Range(s.start, s.size) && s.count == |s.live|
    && (s.blocked && !Full(s) ==> WillWake(s))
  }

  lemma BatchKeepsInv(s: State, e: Event)
    requires Inv(s) && !e.Consume?
    ensures Inv(Step(s, e))
  {
    var s' := Step(s, e);
    if s'.blocked && !Full(s') {
      if e.Release? && Running(s, e.batch) {
        assert s'.wakes[e.batch] == Some(true);
      } else {
        var b :| 0 <= b < |s.wakes| && s.wakes[b] == Some(true);
        assert s'.wakes[b] == Some(true);
      }
    }
  }

  lemma StepKeepsInv(s: State, e: Event)
    requires Inv(s) && ValidEvent(s, e)
    ensures Inv(Step(s, e))
  {
    if e.Consume? {
      assert WillWake(s) ==> WillWake(Step(s, e));
    } else {
      BatchKeepsInv(s, e);
    }
  }

  lemma {:induction false} RunKeepsInv(s: State, es: seq<Event>)
    requires Inv(s) && ValidRun(s, es)
    ensures Inv(Run(s, es))
    decreases |es|
  {
    if es != [] {
      StepKeepsInv(s, es[0]);
      hide Inv, Step, ValidEvent;
      RunKeepsInv(Step(s, es[0]), es[1..]);
    }
  }

  /** In every run: no more tokens than there are, and once all batches are finished TX is blocked only when full. */
  lemma TokensSafe(start: nat, size: nat, es: seq<Event>)
    requires ValidRun(Init(start, size), es)
    ensures var s := Run(Init(start, size), es);
            && s.count == |s.live| <= s.size
            && (s.blocked && (forall b :: 0 <= b < |s.wakes| ==> s.wakes[b].None?) ==> Full(s))
  {
    RunKeepsInv(Init(start, size), es);
    var s := Run(Init(start, size), es);
    RangeSize(s.start, s.size);
    SubsetSize(s.live, Range(s.start, s.size));
  }

  // ---- what changes when ----

  /** TX is blocked by a consume that reaches the threshold, and opened by the end of a batch that is set to do so. */
  lemma BlockedChanges(s: State, e: Event)
    ensures var s' := Step(s, e);
            var opens := e.EndBatch? && e.batch < |s.wakes| && s.wakes[e.batch] == Some(true);
            s'.blocked <==> (s.blocked && !opens) || (e.Consume? && s'.count >= s.size - 64)
  {
  }

  /** A batch runs from its begin to its end, and is set to open TX by a release of its own that finds TX blocked with
      the count below the threshold. */
  lemma BatchChanges(s: State, e: Event, b: nat)
    ensures var s' := Step(s, e);
            && (Running(s', b) <==> (Running(s, b) && e != EndBatch(b)) || (e.BeginBatch? && b == |s.wakes|))
            && (Running(s', b) ==>
                  (s'.wakes[b] == Some(true) <==>
                     || (Running(s, b) && s.wakes[b] == Some(true))
                     || (Running(s, b) && e.Release? && e.batch == b && s.blocked && s'.count < s.size - 64)))
  {
  }

  /** A token is in use from its consume to its release by some batch. */
  lemma LiveChanges(s: State, e: Event, token: nat)
    ensures token in Step(s, e).live <==>
              || e == Consume(Some(token))
              || (token in s.live && !(e.Release? && e.token == token && Running(s, e.batch)))
  {
  }

  // ---- blocked if and only if full ----

  /** A consume that reaches the threshold while some batch is already set to unblock. */
  ghost predicate Disturbs(s: State, e: Event) {
    e.Consume? && WillWake(s) && Full(Step(s, e))
  }

  ghost predicate Undisturbed(s: State, es: seq<Event>)
    decreases |es|
  {
    es == [] || (!Disturbs(s, es[0]) && Undisturbed(Step(s, es[0]), es[1..]))
  }

  /** Outside the time between a batch's decision to unblock and its doing so, blocked means full. */
  ghost predicate Exact(s: State) {
    (WillWake(s) ==> !Full(s)) && (!WillWake(s) ==> (s.blocked <==> Full(s)))
  }

  lemma WakeStays(s: State, e: Event)
    ensures WillWake(s) && !e.EndBatch? ==> WillWake(Step(s, e))
  {
    if b :| 0 <= b < |s.wakes| && s.wakes[b] == Some(true) && !e.EndBatch? {
      assert Step(s, e).wakes[b] == Some(true);
    }
  }

  /** Exactly such a consume ends the agreement. */
  lemma StepExactIff(s: State, e: Event)
    requires Inv(s) && Exact(s) && ValidEvent(s, e)
    ensures Exact(Step(s, e)) <==> !Disturbs(s, e)
  {
    var s' := Step(s, e);
    StepKeepsInv(s, e);
    WakeStays(s, e);
    if !Disturbs(s, e) {
      if WillWake(s') {
        var b :| 0 <= b < |s'.wakes| && s'.wakes[b] == Some(true);
        assert b < |s.wakes|;
        assert e.Release? || s.wakes[b] == Some(true);
      } else if e.EndBatch? && Running(s, e.batch) && WillWake(s) {
        var b :| 0 <= b < |s.wakes| && s.wakes[b] == Some(true);
        assert b == e.batch || s'.wakes[b] == Some(true);
      }
    }
  }

  ghost predicate AlwaysExact(s: State, es: seq<Event>)
    decreases |es|
  {
    Exact(s) && (es != [] ==> AlwaysExact(Step(s, es[0]), es[1..]))
  }

  /** Over a run: blocked means full at every moment outside an unblocking if and only if there is no such consume. */
  lemma {:induction false} AlwaysExactIff(s: State, es: seq<Event>)
    requires Inv(s) && Exact(s) && ValidRun(s, es)
    ensures AlwaysExact(s, es) <==> Undisturbed(s, es)
    decreases |es|
  {
    if es != [] {
      StepExactIff(s, es[0]);
      StepKeepsInv(s, es[0]);
      hide Inv, Step, ValidEvent, Exact, Disturbs;
      if !Disturbs(s, es[0]) {
        AlwaysExactIff(Step(s, es[0]), es[1..]);
      }
    }
  }

  lemma {:induction false} AlwaysExactEnds(s: State, es: seq<Event>)
    requires AlwaysExact(s, es)
    ensures Exact(Run(s, es))
    decreases |es|
  {
    if es != [] {
      hide Step, Exact;
      AlwaysExactEnds(Step(s, es[0]), es[1..]);
    }
  }

  /** In every run without such a consume, blocked means full whenever no unblocking is under way. */
  lemma UndisturbedExact(s: State, es: seq<Event>)
    requires Inv(s) && Exact(s) && ValidRun(s, es) && Undisturbed(s, es)
    ensures Exact(Run(s, es))
  {
    AlwaysExactIff(s, es);
    AlwaysExactEnds(s, es);
  }

  /** The empty table is exact if and only if it has more than 64 tokens: a smaller one is full without being blocked. */
  lemma InitExactIff(start: nat, size: nat)
    ensures Inv(Init(start, size)) && (Exact(Init(start, size)) <==> size > 64)
  {
  }

  /** So in every undisturbed run of such a table, TX is blocked exactly when it is full, outside the unblocking. */
  lemma BlockedIffFull(start: nat, size: nat, es: seq<Event>)
    requires size > 64 && ValidRun(Init(start, size), es) && Undisturbed(Init(start, size), es)
    ensures var s := Run(Init(start, size), es);
            if WillWake(s) then !Full(s) else s.blocked <==> Full(s)
  {
    InitExactIff(start, size);
    UndisturbedExact(Init(start, size), es);
  }

  /** And after such a consume, the batch that finishes next leaves TX open although it is full. */
  lemma DisturbedOpens(s: State, e: Event, b: nat)
    requires Disturbs(s, e) && b < |s.wakes| && s.wakes[b] == Some(true)
    ensures var s' := Step(Step(s, e), EndBatch(b)); Full(s') && !s'.blocked
  {
  }

  /** Which does happen, for every table of more than 64 tokens. */
  lemma DisturbanceReachable(start: nat, size: nat)
    requires size > 64
    ensures exists es, e :: ValidRun(Init(start, size), es) && Disturbs(Run(Init(start, size), es), e)
                         && ValidEvent(Run(Init(start, size), es), e)
  {
    var n := size - FREE_THR;
    FillUp(Init(start, size), n);
    var full := Run(Init(start, size), Takes(start, n));
    var es := Takes(start, n) + [BeginBatch, Release(0, start)];
    RunConcat(Init(start, size), Takes(start, n), [BeginBatch, Release(0, start)]);
    var s1 := Step(full, BeginBatch);
    var s2 := Step(s1, Release(0, start));
    var tail := [BeginBatch, Release(0, start)];
    assert tail[1..] == [Release(0, start)] && tail[1..][1..] == [];
    assert Run(s1, tail[1..]) == Run(s2, []) && Run(full, tail) == Run(s1, tail[1..]);
    assert ValidRun(s1, tail[1..]) && ValidRun(full, tail);
    assert s2.wakes[0] == Some(true);
    assert Disturbs(s2, Consume(Some(start)));
  }

  /** `n` successful consumes in a row. */
  function Takes(start: nat, n: nat): seq<Event> {
    if n == 0 then [] else Takes(start, n - 1) + [Consume(Some(start + n - 1))]
  }

  lemma {:induction false} RunConcat(s: State, a: seq<Event>, b: seq<Event>)
    ensures Run(s, a + b) == Run(Run(s, a), b)
    ensures ValidRun(s, a) && ValidRun(Run(s, a), b) ==> ValidRun(s, a + b)
    decreases |a|
  {
    if a == [] {
      assert a + b == b;
    } else {
      assert (a + b)[1..] == a[1..] + b;
      hide Step, ValidEvent;
      RunConcat(Step(s, a[0]), a[1..], b);
    }
  }

  lemma {:induction false} FillUp(s: State, n: nat)
    requires s == Init(s.start, s.size) && n <= s.size - FREE_THR
    ensures ValidRun(s, Takes(s.start, n))
    ensures var s' := Run(s, Takes(s.start, n));
            && s' == s.(live := Range(s.start, n), count := n, blocked := n == s.size - FREE_THR && n > 0)
    decreases n
  {
    if n == 0 {
      assert Range(s.start, 0) == {};
    } else {
      FillUp(s, n - 1);
      var last := [Consume(Some(s.start + n - 1))];
      RunConcat(s, Takes(s.start, n - 1), last);
      var t := Run(s, Takes(s.start, n - 1));
      assert last[1..] == [];
      assert Run(t, last) == Step(t, last[0]);
      assert ValidRun(Step(t, last[0]), last[1..]);
      assert Range(s.start, n - 1) + {s.start + n - 1} == Range(s.start, n);
    }
  }

  // ---- the token table ----

  /** A whole batch with nothing in between: the releases in order, then the unblocking. */
  function ReleaseAll(s: State, tokens: seq<nat>, wake: bool): (State, bool)
    decreases |tokens|
  {
    if tokens == [] then (s, wake)
    else
      var (s1, w) := ReleaseStep(s, tokens[0]);
      ReleaseAll(s1, tokens[1..], wake || w)
  }

  /** The table of `struct mt76_dev`; one method is one critical section, TxFree a batch that nothing interrupts. */
  class TokenTable {
    const start: nat
    const size: nat
    var live: set<nat>
    var count: int
    var blocked: bool

    ghost function Snapshot(): State
      reads this
    {
      State(start, size, live, count, blocked, [])
    }

    constructor (start: nat, size: nat)
      ensures Snapshot() == Init(start, size)
    {
      this.start, this.size, live, count, blocked := start, size, {}, 0, false;
    }

    /** `mt76_token_consume`. */
    method TokenConsume(grant: Option<nat>)
      modifies this
      ensures Snapshot() == ConsumeStep(old(Snapshot()), grant)
      ensures live == old(live) + (if grant.Some? then {grant.value} else {})
      ensures count == old(count) + if grant.Some? then 1 else 0
      ensures blocked <==> old(blocked) || count >= size - 64
    {
      if grant.Some? {
        live := live + {grant.value};
        count := count + 1;
      }
      if count >= size - FREE_THR {
        blocked := true;
      }
    }

    /** `mt76_token_release`. */
    method TokenRelease(token: nat, wake: bool) returns (found: bool, wake': bool)
      modifies this`live, this`count
      ensures var (s1, w) := ReleaseStep(old(Snapshot()), token);
              Snapshot() == s1 && wake' == (wake || w) && found == (token in old(live))
      ensures live == old(live) - {token} && count == old(count) - if found then 1 else 0
      ensures wake' <==> wake || (blocked && count < size - 64)
    {
      found, wake' := token in live, wake;
      if found {
        live := live - {token};
        count := count - 1;
      }
      if count < size - FREE_THR && blocked {
        wake' := true;
      }
    }

    /** The token part of `mt7921_mac_tx_free`: afterwards, if TX was blocked exactly when full, it is so again. */
    method TxFree(tokens: seq<nat>)
      modifies this
      ensures var (s1, w) := ReleaseAll(old(Snapshot()), tokens, false);
              Snapshot() == if w then s1.(blocked := false) else s1
      ensures old(blocked == Full(Snapshot())) ==> blocked == Full(Snapshot())
      ensures live == old(live) - set token | token in tokens
      ensures blocked <==> old(blocked) && (tokens == [] || count >= size - 64)
    {
      var wake := false;
      for i := 0 to |tokens|
        invariant live == old(live) - (set token | token in tokens[..i])
        invariant wake <==> blocked && i > 0 && count < size - FREE_THR
        invariant ReleaseAll(old(Snapshot()), tokens, false) == ReleaseAll(Snapshot(), tokens[i..], wake)
        invariant blocked == old(blocked) && count <= old(count) && (wake ==> !Full(Snapshot()))
        invariant old(blocked == Full(Snapshot())) ==> (wake <==> blocked && !Full(Snapshot()))
      {
        assert tokens[i..][1..] == tokens[i + 1..] && tokens[..i + 1] == tokens[..i] + [tokens[i]];
        var found;
        found, wake := TokenRelease(tokens[i], wake);
      }
      assert tokens[..|tokens|] == tokens;
      if wake {
        blocked := false;
      }
    }
  }
}
