/** The ownership protocol field by field: what sets and clears the sleep bit, who owns the chip after which handshake,
    what users get, how often the wake work runs, and that both works come to their end. */
module PowerEvents {
  import opened Basics
  import opened Power
  import opened PowerRuns

  // ---- the sleep bit and the owner ----

  /** A poll of one of the two handshakes. */
  predicate PollsWake(s: State, e: Event) {
    s.wake.WHandshake? && e.WakeStep?
  }

  predicate PollsFw(s: State, e: Event) {
    s.fw.FHandshake? && e.FwStep?
  }

  predicate Resets(s: State, e: Event) {
    e.Reset? && s.wake.WIdle? && s.fw.FIdle?
  }

  /** The sleep bit is set by the power-save work under `wake.lock`, with no reference held; it is cleared by the wake
      work behind a successful handshake, by a hand-over that gives up on its tenth poll, and by the reset. */
  lemma BitChanges(s: State, e: Event)
    requires Inv(s)
    ensures !s.pm && Step(s, e).pm <==> !s.pm && s.fw.FLock? && e.FwStep? && s.holding == {}
    ensures s.pm && !Step(s, e).pm <==>
              s.pm && (|| (s.wake.WClear? && e.WakeStep?)
                       || (s.fw == FHandshake(9) && e.FwStep? && !e.ok)
                       || Resets(s, e))
  {
    assert |s.holding| == 0 ==> s.holding == {};
  }

  /** Who owns the chip, by the answer of the latest poll. */
  function OwnerAfter(owner: Owner, s: State, e: Event): Owner {
    if PollsWake(s, e) then (if e.ok then Driver else Unknown)
    else if PollsFw(s, e) then (if e.ok then Firmware else Unknown)
    else if Resets(s, e) then Driver
    else owner
  }

  function LatestOwner(owner: Owner, s: State, es: seq<Event>): Owner
    decreases |es|
  {
    if es == [] then owner else LatestOwner(OwnerAfter(owner, s, es[0]), Step(s, es[0]), es[1..])
  }

  lemma WorkOwners(s: State, tokens: nat, ok: bool)
    ensures WakeNext(s, ok).owner == if s.wake.WHandshake? then (if ok then Driver else Unknown) else s.owner
    ensures FwNext(s, tokens, ok).owner == if s.fw.FHandshake? then (if ok then Firmware else Unknown) else s.owner
  {
  }

  lemma StepOwner(s: State, e: Event)
    ensures Step(s, e).owner == OwnerAfter(s.owner, s, e)
  {
    match e
    case WakeStep(ok) => WorkOwners(s, 0, ok);
    case FwStep(tokens, ok) => WorkOwners(s, tokens, ok);
    case _ =>
    hide WakeNext, FwNext;
  }

  /** In every interleaving the driver or the firmware owns the chip exactly when the latest poll confirmed it. */
  lemma {:induction false} OwnerIsConfirmed(s: State, es: seq<Event>)
    ensures Run(s, es).owner == LatestOwner(s.owner, s, es)
    decreases |es|
  {
    if es != [] {
      StepOwner(s, es[0]);
      hide Step, OwnerAfter;
      OwnerIsConfirmed(Step(s, es[0]), es[1..]);
    }
  }

  /** The wake work sends only after it has seen the bit clear, or cleared it on a chip the driver owns. */
  lemma WakesBeforeSending(s: State, ok: bool)
    requires Inv(s) && !s.wake.WDequeue? && Step(s, WakeStep(ok)).wake.WDequeue?
    ensures var s' := Step(s, WakeStep(ok));
            !s'.pm && (s'.owner.Driver? <==> !s'.gaveUp) && (s.pm ==> s'.owner.Driver?)
  {
  }

  /** What a finished reset leaves behind. */
  lemma ResetRecovers(s: State)
    requires s.wake.WIdle? && s.fw.FIdle?
    ensures var s' := Step(s, Reset);
            && !s'.pm && s'.owner.Driver? && !s'.parked && !WakeOnTheWay(s') && s'.fw.FIdle? && !s'.gaveUp && !s'.wakeGaveUp
            && s'.count == s.count && s'.holding == s.holding && s'.declined == s.declined
  {
  }

  // ---- users ----

  lemma WakeKeepsUsers(s: State, ok: bool)
    ensures WakeNext(s, ok).holding == s.holding && WakeNext(s, ok).declined == s.declined
  {
  }

  lemma FwKeepsUsers(s: State, tokens: nat, ok: bool)
    ensures FwNext(s, tokens, ok).holding == s.holding && FwNext(s, tokens, ok).declined == s.declined
  {
  }

  lemma WorksKeepUsers(s: State, e: Event)
    requires !e.Ref? && !e.Unref? && !e.Park?
    ensures Step(s, e).holding == s.holding && Step(s, e).declined == s.declined
  {
    match e
    case WakeStep(ok) => WakeKeepsUsers(s, ok);
    case FwStep(tokens, ok) => FwKeepsUsers(s, tokens, ok);
    case _ =>
    hide WakeNext, FwNext;
  }

  /** A user gets a reference exactly while the bit is clear and is refused one while it is set; it keeps the reference
      until it gives it back, and a refused user owes a frame until it has parked it. Nobody else changes that. */
  lemma UserSees(s: State, e: Event, u: nat)
    ensures var s' := Step(s, e);
            var asks := e == Ref(u) && u !in s.holding && u !in s.declined;
            && (u in s'.holding <==> (u in s.holding && e != Unref(u)) || (asks && !s.pm))
            && (u in s'.declined <==> (u in s.declined && e != Park(u)) || (asks && s.pm))
  {
    if !e.Ref? && !e.Unref? && !e.Park? {
      WorksKeepUsers(s, e);
      hide Step;
    } else {
      hide WakeNext, FwNext;
    }
  }

  /** A parked frame waits until the wake work sends it or the reset frees it, and no longer. */
  lemma ParkedUntilSent(s: State, e: Event)
    ensures var parks := e.Park? && e.u in s.declined;
            Step(s, e).parked <==> parks || (s.parked && !Sends(s, e) && !Resets(s, e))
  {
  }

  // ---- the wake work is queued and run ----

  /** The wake work is queued by any wake-up, and by a frame parked where none waited. */
  predicate QueuesWake(s: State, e: Event) {
    e.Wake? || (e.Park? && e.u in s.declined && !s.parked)
  }

  predicate StartsWake(s: State, e: Event) {
    e.WakeStart? && s.wakePending && s.wake.WIdle? && s.fw.FIdle?
  }

  lemma PendingUntilStarted(s: State, e: Event)
    ensures Step(s, e).wakePending <==> QueuesWake(s, e) || (s.wakePending && !StartsWake(s, e) && !Resets(s, e))
    ensures StartsWake(s, e) <==> s.wake.WIdle? && !Step(s, e).wake.WIdle?
  {
  }

  function Queued(s: State, es: seq<Event>): nat
    decreases |es|
  {
    if es == [] then 0 else (if QueuesWake(s, es[0]) then 1 else 0) + Queued(Step(s, es[0]), es[1..])
  }

  function Started(s: State, es: seq<Event>): nat
    decreases |es|
  {
    if es == [] then 0 else (if StartsWake(s, es[0]) then 1 else 0) + Started(Step(s, es[0]), es[1..])
  }

  /** Over every run the wake work runs at most once for each time it was queued. */
  lemma {:induction false} RunsOnlyWhenQueued(s: State, es: seq<Event>)
    ensures Started(s, es) + (if Run(s, es).wakePending then 1 else 0) <= Queued(s, es) + if s.wakePending then 1 else 0
    decreases |es|
  {
    if es != [] {
      PendingUntilStarted(s, es[0]);
      hide Step, QueuesWake, StartsWake;
      RunsOnlyWhenQueued(Step(s, es[0]), es[1..]);
    }
  }

  // ---- both works end ----

  /** Steps until the wake work is idle again, and until the power-save work is. */
  function WakeLeft(w: WakePc): nat {
    if w.WIdle? then 0 else WakeRank(w)
  }

  function BothLeft(s: State): nat {
    WakeLeft(s.wake) + FwRank(s.fw)
  }

  predicate WorkStep(e: Event) {
    e.WakeStep? || e.FwStep?
  }

  predicate StartsWork(s: State, e: Event) {
    StartsWake(s, e) || (e.FwStart? && s.fw.FIdle? && !WakeHasMutex(s))
  }

  /** A work that has been started can always go on, each of its steps brings its end nearer, and nothing else
      prolongs it. */
  lemma WorksEnd(s: State, e: Event)
    requires Inv(s) && !StartsWork(s, e)
    ensures BothLeft(Step(s, e)) <= BothLeft(s)
    ensures e.WakeStep? && !s.wake.WIdle? ==> BothLeft(Step(s, e)) < BothLeft(s)
    ensures e.FwStep? && !s.fw.FIdle? ==> BothLeft(Step(s, e)) < BothLeft(s)
    ensures BothLeft(s) == 0 <==> s.wake.WIdle? && s.fw.FIdle?
  {
  }

  /** The works start when they may: the wake work once it is queued, the power-save work at any time, each only while
      the other does not hold the mutex. */
  lemma WorksStart(s: State)
    ensures Step(s, WakeStart).wake == if s.wakePending && s.wake.WIdle? && s.fw.FIdle? then WLocked else s.wake
    ensures Step(s, FwStart).fw == if s.fw.FIdle? && !WakeHasMutex(s) then FTokens else s.fw
  {
  }

  /** A handshake begins with no try used: the one of the wake work if it finds the bit set, the one of the power-save
      work if it finds no reference and the bit clear. */
  lemma HandshakesBegin(s: State, ok: bool, tokens: nat)
    requires Inv(s)
    ensures s.wake.WLocked? ==> Step(s, WakeStep(ok)).wake == if s.pm then WHandshake(0) else WDequeue
    ensures s.fw.FLock? ==> Step(s, FwStep(tokens, ok)).fw == if s.holding == {} && !s.pm then FHandshake(0) else FIdle
  {
    assert |s.holding| == 0 ==> s.holding == {};
  }

  function Refusals(wake: bool, n: nat): (es: seq<Event>)
    ensures |es| == n
  {
    if n == 0 then [] else [if wake then WakeStep(false) else FwStep(0, false)] + Refusals(wake, n - 1)
  }

  lemma RefusedOnce(s: State, wake: bool, tries: nat)
    requires tries < 10 && if wake then s.wake == WHandshake(tries) else s.fw == FHandshake(tries)
    ensures var s' := Step(s, if wake then WakeStep(false) else FwStep(0, false));
            if wake then (if tries + 1 < 10 then s'.wake == WHandshake(tries + 1) else s'.wake.WIdle? && s'.wakeGaveUp)
            else (if tries + 1 < 10 then s'.fw == FHandshake(tries + 1) else s'.fw.FIdle? && s'.gaveUp && !s'.pm)
  {
  }

  /** Each handshake polls until it is confirmed, and gives up exactly on the tenth refusal in a row. */
  lemma {:induction false} GivesUpOnTenth(s: State, wake: bool, tries: nat, n: nat)
    requires tries + n <= 10 && tries < 10 && if wake then s.wake == WHandshake(tries) else s.fw == FHandshake(tries)
    ensures var s' := Run(s, Refusals(wake, n));
            if wake then (if tries + n < 10 then s'.wake == WHandshake(tries + n) else s'.wake.WIdle? && s'.wakeGaveUp)
            else (if tries + n < 10 then s'.fw == FHandshake(tries + n) else s'.fw.FIdle? && s'.gaveUp && !s'.pm)
    decreases n
  {
    if n > 0 {
      var e := if wake then WakeStep(false) else FwStep(0, false);
      var s1 := Step(s, e);
      RefusedOnce(s, wake, tries);
      hide Step;
      assert Refusals(wake, n)[0] == e;
      assert Refusals(wake, n)[1..] == Refusals(wake, n - 1);
      assert Run(s, Refusals(wake, n)) == Run(s1, Refusals(wake, n - 1));
      if n == 1 {
        assert Run(s1, Refusals(wake, 0)) == s1;
      } else {
        GivesUpOnTenth(s1, wake, tries + 1, n - 1);
      }
    }
  }
}
