/** The status functions of tx.c as methods on the device's tables; each runs under `status_lock`. */
module TxStatusDev {
  import opened Basics
  import opened TxStatus

  class StatusTables {
    var frames: map<nat, Cb>
    var table: map<Key, nat>
    var wcidList: set<nat>
    var reports: seq<nat>
    const timeout: nat

    ghost function Snapshot(): State
      reads this
    {
      State(frames, table, wcidList, {}, map[], {}, {}, reports, timeout, {}, {})
    }

    /** `__mt76_tx_status_skb_done`: sets flags, and queues the frame for mac80211 once both completions are in. */
    method SkbDone(f: nat, dma: bool, txs: bool, failed: bool)
      requires f in frames && frames[f].Tracked?
      modifies this`frames, this`reports
      ensures var c := old(frames[f]);
              Snapshot() == Done(old(Snapshot()), f, c.(dmaDone := c.dmaDone || dma, txsDone := c.txsDone || txs, failed := c.failed || failed))
    {
      var c := frames[f];
      c := c.(dmaDone := c.dmaDone || dma, txsDone := c.txsDone || txs, failed := c.failed || failed);
      frames := frames[f := c];
      if !(c.dmaDone && c.txsDone) {
        return;
      }
      reports := reports + [f];
    }

    /** The critical section of `mt76_tx_status_skb_add` for the packet id the IDR granted. */
    method SkbAdd(w: nat, f: nat, pid: nat)
      requires f !in frames && (w, pid) !in table
      modifies this`frames, this`table, this`wcidList
      ensures (w, pid) in table && table[(w, pid)] == f && w in wcidList
      ensures frames == old(frames)[f := Tracked(w, pid, false, false, false, 0)]
      ensures table == old(table)[(w, pid) := f] && wcidList == old(wcidList) + {w}
    {
      table := table[(w, pid) := f];
      frames := frames[f := Tracked(w, pid, false, false, false, 0)];
      if w !in wcidList {
        wcidList := wcidList + {w};
      }
    }

    /** `mt76_tx_status_skb_get`: takes the entry of `pktid` out of the table, or else gives up on stale entries;
        `pktid` None is -1 and gives up on all. */
    method SkbGet(w: nat, pktid: Option<nat>, now: nat) returns (skb: Option<nat>)
      requires EntriesExact(Snapshot()) && ReportedOnce(Snapshot())
      modifies this
      ensures var s := old(Snapshot());
              var hit := pktid.Some? && (w, pktid.value) in s.table;
              && skb == (if hit then Some(s.table[(w, pktid.value)]) else None)
              && Snapshot() == if hit then Delist(s.(table := s.table - {(w, pktid.value)}), w)
                               else ScanStale(s, w, pktid.None?, now)
    {
      skb := None;
      if pktid.Some? && (w, pktid.value) in table {
        skb := Some(table[(w, pktid.value)]);
        table := table - {(w, pktid.value)};
      } else {
        GiveUpAll(w, pktid.Some?, now);
      }
      if !HasEntries(table, w) {
        wcidList := wcidList - {w};
      }
    }

    /** The scan over all packet ids of `w`. */
    method GiveUpAll(w: nat, timed: bool, now: nat)
      requires EntriesExact(Snapshot()) && ReportedOnce(Snapshot())
      modifies this`table, this`frames, this`reports
      ensures Snapshot() == ScanFrom(old(Snapshot()), w, PID_FIRST, !timed, now)
    {
      hide EntriesExact, ReportedOnce, TakeEntry, Expires;
      for id: nat := PID_FIRST to PID_MASK
        invariant EntriesExact(Snapshot()) && ReportedOnce(Snapshot())
        invariant ScanFrom(old(Snapshot()), w, PID_FIRST, !timed, now) == ScanFrom(Snapshot(), w, id, !timed, now)
      {
        GiveUp(w, id, timed, now);
      }
    }

    /** One turn of the scan. */
    method GiveUp(w: nat, id: nat, timed: bool, now: nat)
      requires EntriesExact(Snapshot()) && ReportedOnce(Snapshot())
      modifies this`table, this`frames, this`reports
      ensures EntriesExact(Snapshot()) && ReportedOnce(Snapshot())
      ensures var s := old(Snapshot());
              Snapshot() == if Expires(s, w, id, !timed, now) then TakeEntry(s, w, id, true) else s
    {
      if (w, id) !in table {
        return;
      }
      var f := table[(w, id)];
      if timed {
        var c := frames[f];
        if !c.dmaDone || now < c.time + timeout {
          return;
        }
      }
      TakeEntryKeeps(Snapshot(), w, id, true);
      table := table - {(w, frames[f].pid)};
      SkbDone(f, false, true, true);
    }

    /** `mt76_connac2_mac_add_txs_skb`. */
    method AddTxs(w: nat, pid: nat, now: nat) returns (found: bool)
      requires EntriesExact(Snapshot()) && ReportedOnce(Snapshot())
      modifies this
      ensures Snapshot() == TxsStep(old(Snapshot()), w, pid, now) && found == ((w, pid) in old(table))
    {
      var skb := SkbGet(w, Some(pid), now);
      found := skb.Some?;
      if found {
        SkbDone(skb.value, false, true, false);
      }
    }

    /** `__mt76_tx_complete_skb` for a registered frame. */
    method TxComplete(f: nat, now: nat)
      requires f in frames && frames[f].Tracked? && !frames[f].dmaDone
      modifies this`frames, this`reports
      ensures Snapshot() == Step(old(Snapshot()), DmaDone(f, now))
    {
      frames := frames[f := frames[f].(time := now)];
      SkbDone(f, true, false, false);
    }
  }
}
