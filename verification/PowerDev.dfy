/** The power functions of mt76_connac.h and mt792x_core.c as methods, each without interruption. */
module PowerDev {
  import opened Power

  class Pm {
    var pm: bool
    var owner: Owner
    var count: int
    ghost var holding: set<nat>

    /** The state between the works, seen from the protocol. */
    ghost function Snapshot(wake: WakePc, fw: FwPc, gaveUp: bool): State
      reads this
    {
      State(pm, owner, count, holding, {}, false, false, wake, fw, gaveUp, false)
    }

    /** `mt76_connac_pm_ref`. */
    method Ref(ghost u: nat) returns (ok: bool)
      requires u !in holding
      modifies this`count, this`holding
      ensures ok == !pm
      ensures ok ==> Snapshot(WIdle, FIdle, false) == Step(old(Snapshot(WIdle, FIdle, false)), Event.Ref(u))
      ensures !ok ==> count == old(count) && holding == old(holding)
    {
      ok := false;
      if !pm {
        count := count + 1;
        holding := holding + {u};
        ok := true;
      }
    }

    /** `mt76_connac_pm_unref`; `idle` tells that the power-save work was scheduled. */
    method Unref(ghost u: nat, mcuRunning: bool) returns (idle: bool)
      requires u in holding && count == |holding|
      modifies this`count, this`holding
      ensures Snapshot(WIdle, FIdle, false) == Step(old(Snapshot(WIdle, FIdle, false)), Event.Unref(u))
      ensures idle <==> mcuRunning && holding == {}
    {
      count := count - 1;
      holding := holding - {u};
      assert |holding| == 0 ==> holding == {};
      idle := count == 0 && mcuRunning;
    }

    /** `mt76_connac_skip_fw_pmctrl`. */
    method SkipFwPmctrl(tokens: nat) returns (skip: bool)
      modifies this`pm
      ensures skip <==> tokens > 0 || count != 0 || old(pm)
      ensures pm == (old(pm) || !skip)
    {
      if tokens > 0 {
        return true;
      }
      skip := count != 0 || pm;
      if count == 0 {
        pm := true;
      }
    }

    /** `mt792x_mcu_fw_pmctrl` with the retry loop of `mt792xe_mcu_fw_pmctrl`; `oks` are the answers to the polls.
        It is the power-save work of the protocol, run to its end. */
    method FwPmctrl(tokens: nat, oks: seq<bool>) returns (err: bool)
      requires |oks| >= RETRIES
      modifies this`pm, this`owner
      ensures var s := FwWork(old(Snapshot(WIdle, FTokens, false)), tokens, oks);
              Snapshot(WIdle, FIdle, err) == s
    {
      ghost var s0 := Snapshot(WIdle, FTokens, false);
      var skip := SkipFwPmctrl(tokens);
      if skip {
        return false;
      }
      ghost var s2 := Snapshot(WIdle, FHandshake(0), false);
      assert FwWork(s0, tokens, oks) == Handshake(s2, oks);
      var i := 0;
      while i < RETRIES
        invariant i <= RETRIES && pm && (i > 0 ==> owner.Unknown?)
        invariant i < RETRIES ==> Handshake(s2, oks) == Handshake(Snapshot(WIdle, FHandshake(i), false), oks[i..])
        invariant i == RETRIES ==> Handshake(s2, oks) == Snapshot(WIdle, FIdle, true).(pm := false)
      {
        if oks[i] {
          owner := Firmware;
          return false;
        }
        owner := Unknown;
        assert oks[i..][1..] == oks[i + 1..];
        i := i + 1;
      }
      pm := false;
      err := true;
    }
  }

  /** The handshake of the power-save work, one answer at a time. */
  ghost function Handshake(s: State, oks: seq<bool>): State
    requires s.fw.FHandshake? && s.fw.tries < RETRIES && |oks| >= RETRIES - s.fw.tries
    decreases RETRIES - s.fw.tries
  {
    var s1 := FwNext(s, 0, oks[0]);
    if s1.fw.FIdle? then s1 else Handshake(s1, oks[1..])
  }

  /** The power-save work from its look at the tokens on. */
  ghost function FwWork(s: State, tokens: nat, oks: seq<bool>): State
    requires s.fw.FTokens? && |oks| >= RETRIES
  {
    var s1 := FwNext(s, tokens, true);
    if s1.fw.FIdle? then s1
    else
      var s2 := FwNext(s1, tokens, true);
      if s2.fw.FIdle? then s2 else Handshake(s2, oks)
  }
}
