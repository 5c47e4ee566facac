/** What the ownership protocol gives over whole runs: safe references, parked frames that are sent, and the failure. */
module PowerRuns {
  import opened Basics
  import opened Power

  /** Every interleaving: while references are held the sleep bit is clear, and the driver owns the chip if and only if
      the last hand-over did not give up; a parked frame has a wake work on its way if and only if one is queued or
      the last one did not give up. */
  lemma ReferencesAreSafe(es: seq<Event>)
    ensures var s := Run(INITIAL, es);
            && (s.count > 0 ==> !s.pm && (s.owner.Driver? <==> !s.gaveUp))
            && (s.parked ==> (WakeOnTheWay(s) <==> s.wakePending || !s.wakeGaveUp))
  {
    RunKeepsInv(INITIAL, es);
  }

  // ---- falling asleep ----

  /** How many tokens the latest step of the power-save work found in use. */
  function LatestTokens(es: seq<Event>): Option<nat> {
    if es == [] then None
    else
      var e := es[|es| - 1];
      if e.FwStep? then Some(e.tokens) else LatestTokens(es[..|es| - 1])
  }

  lemma {:induction false} RunLast(s: State, es: seq<Event>, e: Event)
    ensures Run(s, es + [e]) == Step(Run(s, es), e)
    decreases |es|
  {
    hide Step;
    if es == [] {
      assert [] + [e] == [e] && [e][1..] == [];
      assert Run(s, [e]) == Run(Step(s, e), []);
    } else {
      assert (es + [e])[1..] == es[1..] + [e];
      RunLast(Step(s, es[0]), es[1..], e);
    }
  }

  lemma {:induction false} LockHasLooked(es: seq<Event>)
    requires Run(INITIAL, es).fw.FLock?
    ensures LatestTokens(es) == Some(0)
    decreases |es|
  {
    if es != [] {
      var n := |es| - 1;
      var s := Run(INITIAL, es[..n]);
      assert es == es[..n] + [es[n]];
      RunLast(INITIAL, es[..n], es[n]);
      LockStep(s, es[n]);
      hide Run, Step;
      if s.fw.FLock? {
        LockHasLooked(es[..n]);
      }
    }
  }

  lemma LockStep(s: State, e: Event)
    requires Step(s, e).fw.FLock?
    ensures (s.fw.FLock? && !e.FwStep?) || (e.FwStep? && e.tokens == 0)
  {
  }

  /** In every interleaving: the sleep bit is set only by the power-save work, while no reference is held, and after
      its look at the tokens found none in use. */
  lemma SleepsOnlyIdle(es: seq<Event>, e: Event)
    ensures var s := Run(INITIAL, es);
            !s.pm && Step(s, e).pm ==> e.FwStep? && s.count == 0 && s.holding == {} && LatestTokens(es) == Some(0)
  {
    RunKeepsInv(INITIAL, es);
    var s := Run(INITIAL, es);
    if s.fw.FLock? {
      LockHasLooked(es);
    }
    assert |s.holding| == 0 ==> s.holding == {};
    hide Run, LatestTokens;
  }

  /** And then it is set: once the look has found no token, the next step of the work sets the bit unless a reference
      is held or the bit is set already. */
  lemma IdleSleeps(s: State, ok: bool)
    requires Inv(s) && s.fw.FTokens?
    ensures Step(Step(s, FwStep(0, ok)), FwStep(0, ok)).pm == (s.pm || s.holding == {})
    ensures forall tokens: nat :: tokens > 0 ==> Step(s, FwStep(tokens, ok)) == s.(fw := FIdle)
  {
    assert |s.holding| == 0 ==> s.holding == {};
  }

  // ---- the parked frame is sent ----

  /** Steps the wake work still takes before it sends, counting the polls it may need. */
  function WakeRank(w: WakePc): nat {
    match w
    case WIdle => RETRIES + 5
    case WLocked => RETRIES + 4
    case WHandshake(n) => if n < RETRIES then RETRIES - n + 3 else 3
    case WClear => 2
    case WDequeue => 1
  }

  /** Steps the power-save work still takes before it drops the mutex. */
  function FwRank(fw: FwPc): nat {
    match fw
    case FTokens => RETRIES + 2
    case FLock => RETRIES + 1
    case FHandshake(n) => if n < RETRIES then RETRIES - n else 0
    case FIdle => 0
  }

  function Rank(s: State): nat {
    WakeRank(s.wake) + FwRank(s.fw)
  }

  predicate Sends(s: State, e: Event) {
    s.parked && s.wake.WDequeue? && e.WakeStep?
  }

  /** The wake work gives up, or the reset frees the parked frame. */
  predicate Fails(s: State, e: Event) {
    e == Reset || (s.wake == WHandshake(9) && e == WakeStep(false))
  }

  /** One of the two works takes a step. */
  predicate Advances(s: State, e: Event) {
    (e.WakeStart? || e.WakeStep? || e.FwStep?) && Step(s, e) != s
  }

  predicate EverSends(s: State, es: seq<Event>)
    decreases |es|
  {
    es != [] && (Sends(s, es[0]) || EverSends(Step(s, es[0]), es[1..]))
  }

  predicate EverFails(s: State, es: seq<Event>)
    decreases |es|
  {
    es != [] && (Fails(s, es[0]) || EverFails(Step(s, es[0]), es[1..]))
  }

  function Advanced(s: State, es: seq<Event>): nat
    decreases |es|
  {
    if es == [] then 0 else (if Advances(s, es[0]) then 1 else 0) + Advanced(Step(s, es[0]), es[1..])
  }

  /** How often the power-save work starts. */
  function Starts(es: seq<Event>): nat {
    if es == [] then 0 else (if es[0].FwStart? then 1 else 0) + Starts(es[1..])
  }

  lemma StepRanks(s: State, e: Event)
    requires Inv(s) && s.parked && WakeOnTheWay(s) && !Sends(s, e) && !Fails(s, e)
    ensures var s' := Step(s, e);
            && s'.parked && WakeOnTheWay(s')
            && Rank(s') + (if Advances(s, e) then 1 else 0) <= Rank(s) + if e.FwStart? then RETRIES + 2 else 0
  {
  }

  /** While a frame is parked and a wake work is on its way, one of the works can take a step. */
  lemma NotStuck(s: State)
    requires Inv(s) && s.parked && WakeOnTheWay(s)
    ensures exists e :: Advances(s, e)
  {
    if !s.wake.WIdle? {
      assert Advances(s, WakeStep(true));
    } else if s.fw.FIdle? {
      assert Advances(s, WakeStart);
    } else {
      assert Advances(s, FwStep(1, true));
    }
  }

  /** In every interleaving, a parked frame with a wake work on its way is sent before the two works have taken
      `Rank(s)` steps, and twelve more for each start of the power-save work, unless the handshake of the wake
      work gives up or the chip is reset. */
  lemma {:induction false} ParkedIsSent(s: State, es: seq<Event>)
    requires Inv(s) && s.parked && WakeOnTheWay(s)
    ensures EverSends(s, es) || EverFails(s, es) || Advanced(s, es) <= Rank(s) + 12 * Starts(es)
    ensures Rank(s) <= 27
    decreases |es|
  {
    if es != [] && !Sends(s, es[0]) && !Fails(s, es[0]) {
      RunKeepsInv(s, es[..1]);
      assert Run(s, es[..1]) == Step(s, es[0]);
      StepRanks(s, es[0]);
      hide Inv, Step, Rank, Advances, Sends, Fails, WakeOnTheWay;
      ParkedIsSent(Step(s, es[0]), es[1..]);
    }
  }

  // ---- a handshake that gives up ----

  function Failures(n: nat): (es: seq<Event>) {
    if n == 0 then [Ref(0)] else [FwStep(0, false)] + Failures(n - 1)
  }

  lemma {:induction false} HandshakeFails(s: State, n: nat)
    requires 0 < n <= RETRIES && s.fw == FHandshake(RETRIES - n) && s.pm && s.holding == s.declined == {} && s.count == 0
    ensures var s' := Run(s, Failures(n)); s'.gaveUp && s'.count == 1 && !s'.owner.Driver?
    decreases n
  {
    var es := Failures(n);
    var s1 := FwNext(s, 0, false);
    assert es[0] == FwStep(0, false) && es[1..] == Failures(n - 1);
    assert Run(s, es) == Run(s1, Failures(n - 1));
    if n == 1 {
      assert Failures(0)[1..] == [];
      assert Run(s1, Failures(0)) == Run(Step(s1, Ref(0)), []);
    } else {
      HandshakeFails(s1, n - 1);
    }
  }

  /** Giving up clears the sleep bit without knowing the owner, so references are then granted on a chip
      that the driver may not own, until the sleep bit is set again or the chip is reset. */
  lemma FailureIsUnsafe()
    ensures exists es :: Run(INITIAL, es).count > 0 && !Run(INITIAL, es).owner.Driver?
  {
    var es := [FwStart, FwStep(0, true), FwStep(0, true)] + Failures(RETRIES);
    var s1 := Step(INITIAL, FwStart);
    var s2 := Step(s1, FwStep(0, true));
    var s3 := Step(s2, FwStep(0, true));
    assert es[1..][1..][1..] == Failures(RETRIES);
    assert es[1..][0] == FwStep(0, true) && es[1..][1..][0] == FwStep(0, true);
    assert Run(INITIAL, es) == Run(s1, es[1..]);
    assert Run(s1, es[1..]) == Run(s2, es[1..][1..]);
    assert Run(s2, es[1..][1..]) == Run(s3, Failures(RETRIES));
    HandshakeFails(s3, RETRIES);
  }
}
