/** Runtime power ownership of mt792x: wake references against the sleep bit and the ownership handshake.
    Users, the wake work and the power-save work interleave at the granularity of `wake.lock`, of single register
    handshakes and of bit operations; `pm->mutex` serialises the two works. */
module Power {

  const RETRIES: nat := 10

  /** Who owns the chip; `Unknown` while the hand-over to the firmware has been requested and not confirmed. */
  datatype Owner = Driver | Firmware | Unknown

  /** The wake work: `Locked` has taken the mutex, `Dequeue` has dropped it and will send the parked frame. */
  datatype WakePc = WIdle | WLocked | WHandshake(tries: nat) | WClear | WDequeue

  /** The power-save work inside `mt792x_mcu_fw_pmctrl`: before and after its look at the tokens, in the handshake. */
  datatype FwPc = FIdle | FTokens | FLock | FHandshake(tries: nat)

  /** `pm` is MT76_STATE_PM; `holding` are the users with a reference, `declined` those that were refused one and
      will park their frame; `parked` says that a frame waits for the wake work. `gaveUp` says that the last hand-over
      to the firmware gave up, `wakeGaveUp` that the last run of the wake work did. */
  datatype State = State(
    pm: bool, owner: Owner, count: int, holding: set<nat>, declined: set<nat>,
    parked: bool, wakePending: bool, wake: WakePc, fw: FwPc, gaveUp: bool, wakeGaveUp: bool)

  datatype Event =
    | Ref(u: nat)
    | Unref(u: nat)
    | Park(u: nat)
    | Wake
    | WakeStart
    | WakeStep(ok: bool)
    | FwStart
    | FwStep(tokens: nat, ok: bool)
    | Reset

  const INITIAL := State(false, Driver, 0, {}, {}, false, false, WIdle, FIdle, false, false)

  predicate WakeHasMutex(s: State) {
    s.wake.WLocked? || s.wake.WHandshake? || s.wake.WClear?
  }

  predicate FwHasMutex(s: State) {
    !s.fw.FIdle?
  }

  function WakeNext(s: State, ok: bool): State {
    match s.wake
    case WIdle => s
    case WLocked => s.(wake := if s.pm then WHandshake(0) else WDequeue)
    case WHandshake(n) =>
      if ok then s.(owner := Driver, wake := WClear)
      else if n + 1 < RETRIES then s.(owner := Unknown, wake := WHandshake(n + 1))
      else s.(owner := Unknown, wake := WIdle, wakeGaveUp := true)
    case WClear => s.(pm := false, wake := WDequeue)
    case WDequeue => s.(parked := false, wake := WIdle)
  }

  function FwNext(s: State, tokens: nat, ok: bool): State {
    match s.fw
    case FIdle => s
    case FTokens => s.(fw := if tokens > 0 then FIdle else FLock)
    case FLock => if s.count != 0 || s.pm then s.(fw := FIdle) else s.(pm := true, fw := FHandshake(0), gaveUp := false)
    case FHandshake(n) =>
      if ok then s.(owner := Firmware, fw := FIdle)
      else if n + 1 < RETRIES then s.(owner := Unknown, fw := FHandshake(n + 1))
      else s.(owner := Unknown, pm := false, fw := FIdle, gaveUp := true)
  }

  /** An event that is not enabled changes nothing. */
  function Step(s: State, e: Event): State {
    match e
    case Ref(u) =>
      if u in s.holding || u in s.declined then s
      else if s.pm then s.(declined := s.declined + {u})
      else s.(count := s.count + 1, holding := s.holding + {u})
    case Unref(u) => if u in s.holding then s.(count := s.count - 1, holding := s.holding - {u}) else s
    case Park(u) =>
      if u in s.declined then s.(declined := s.declined - {u}, parked := true, wakePending := s.wakePending || !s.parked) else s
    case Wake => s.(wakePending := true)
    case WakeStart =>
      if s.wakePending && s.wake.WIdle? && !FwHasMutex(s) then s.(wakePending := false, wake := WLocked, wakeGaveUp := false)
      else s
    case WakeStep(ok) => WakeNext(s, ok)
    case FwStart => if s.fw.FIdle? && !WakeHasMutex(s) then s.(fw := FTokens) else s
    case FwStep(tokens, ok) => FwNext(s, tokens, ok)
    case Reset =>
      if s.wake.WIdle? && s.fw.FIdle? then
        s.(owner := Driver, pm := false, parked := false, wakePending := false, gaveUp := false, wakeGaveUp := false)
      else s
  }

  function Run(s: State, es: seq<Event>): State
    decreases |es|
  {
    if es == [] then s else Run(Step(s, es[0]), es[1..])
  }

  /** The parked frame has a wake work on the way that has not yet reached its dequeue. */
  predicate WakeOnTheWay(s: State) {
    s.wakePending || !s.wake.WIdle?
  }

  ghost predicate Inv(s: State) {
    && s.count == |s.holding|
    && (s.pm ==> s.holding == {})
    && !(WakeHasMutex(s) && FwHasMutex(s))
    && (s.fw.FHandshake? ==> s.pm && s.fw.tries < RETRIES)
    && (s.wake.WHandshake? ==> s.pm && s.wake.tries < RETRIES)
    && (s.wake.WClear? ==> s.pm && s.owner.Driver?)
    && (s.pm ==> !s.gaveUp)
    && (!s.pm ==> (s.gaveUp <==> !s.owner.Driver?))
    && (s.wakeGaveUp ==> s.wake.WIdle?)
    && (s.parked ==> (WakeOnTheWay(s) <==> s.wakePending || !s.wakeGaveUp))
  }

  lemma UserKeepsInv(s: State, e: Event)
    requires Inv(s) && (e.Ref? || e.Unref? || e.Park? || e.Wake?)
    ensures Inv(Step(s, e))
  {
  }

  lemma WorkKeepsInv(s: State, e: Event)
    requires Inv(s) && !(e.Ref? || e.Unref? || e.Park? || e.Wake?)
    ensures Inv(Step(s, e))
  {
    assert |s.holding| == 0 ==> s.holding == {};
  }

  lemma {:induction false} RunKeepsInv(s: State, es: seq<Event>)
    requires Inv(s)
    ensures Inv(Run(s, es))
    decreases |es|
  {
    if es != [] {
      if es[0].Ref? || es[0].Unref? || es[0].Park? || es[0].Wake? {
        UserKeepsInv(s, es[0]);
      } else {
        WorkKeepsInv(s, es[0]);
      }
      hide Inv, Step;
      RunKeepsInv(Step(s, es[0]), es[1..]);
    }
  }
}
