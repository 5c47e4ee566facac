/** Transmit status: a frame is reported to mac80211 when both its DMA completion and its status report (TXS) are in.
    Steps are critical sections of `status_lock`; the test of the station pointer before it is a step of its own. */
module TxStatus {
  import opened Basics

  const PID_FIRST: nat := 3
  const PID_MASK: nat := 0x7f

  /** The control block of a frame handed to the hardware; an untracked frame has no packet id of its own. */
  datatype Cb =
    | Tracked(wcid: nat, pid: nat, dmaDone: bool, txsDone: bool, failed: bool, time: nat)
    | Untracked(done: bool)

  type Key = (nat, nat)

  /** `table` joins the packet-id tables of all entries; `published` are the entries of `dev->wcid[]`, `adding`
      the frames whose sender has seen that pointer and not yet taken the lock; `reports` are the frames handed to
      mac80211. An entry is cleaned up in two steps: `flushed` lies between them, `destroyed` behind the second.
      `grace` are the entries whose cleanup waits for an RCU grace period after the pointer was withdrawn: stations
      do, an interface's own entry does not. `late` records the frames registered while their entry was flushed. */
  datatype State = State(
    frames: map<nat, Cb>, table: map<Key, nat>, wcidList: set<nat>,
    published: set<nat>, adding: map<nat, nat>, flushed: set<nat>, destroyed: set<nat>,
    reports: seq<nat>, timeout: nat, grace: set<nat>, late: set<nat>)

  datatype Event =
    | Publish(w: nat)
    | Check(w: nat, f: nat)
    | Insert(f: nat, grant: Option<nat>)
    | Skip(f: nat)
    | DmaDone(f: nat, now: nat)
    | Txs(w: nat, pid: nat, now: nat)
    | Stale(w: nat, flush: bool, now: nat)
    | Unpublish(w: nat)
    | CleanupFlush(w: nat)
    | CleanupDestroy(w: nat)

  predicate Finished(c: Cb) {
    if c.Tracked? then c.dmaDone && c.txsDone else c.done
  }

  /** `__mt76_tx_status_skb_done` with the new control block `c` of frame `f`. */
  function Done(s: State, f: nat, c: Cb): State {
    s.(frames := s.frames[f := c], reports := if Finished(c) then s.reports + [f] else s.reports)
  }

  predicate HasEntries(table: map<Key, nat>, w: nat) {
    exists k <- table.Keys :: k.0 == w
  }

  /** `list_del_init` once the table of `w` is empty. */
  function Delist(s: State, w: nat): State {
    if HasEntries(s.table, w) then s else s.(wcidList := s.wcidList - {w})
  }

  /** Takes entry (w, pid) out of the table and marks its frame TXS_DONE. */
  function TakeEntry(s: State, w: nat, pid: nat, failed: bool): State
    requires (w, pid) in s.table
  {
    var f := s.table[(w, pid)];
    var s1 := s.(table := s.table - {(w, pid)});
    if f in s.frames && s.frames[f].Tracked? then
      Done(s1, f, s.frames[f].(txsDone := true, failed := s.frames[f].failed || failed))
    else
      s1
  }

  /** An entry the scan may give up on: DMA is done and the time is over, or everything is being flushed. */
  predicate Expires(s: State, w: nat, pid: nat, flush: bool, now: nat) {
    && (w, pid) in s.table
    && (flush ||
        var f := s.table[(w, pid)];
        f in s.frames && s.frames[f].Tracked? && s.frames[f].dmaDone && now >= s.frames[f].time + s.timeout)
  }

  /** The scan for stale entries, from packet id `pid` on. */
  function ScanFrom(s: State, w: nat, pid: nat, flush: bool, now: nat): State
    decreases PID_MASK - pid
  {
    if pid >= PID_MASK then s
    else ScanFrom(if Expires(s, w, pid, flush, now) then TakeEntry(s, w, pid, true) else s, w, pid + 1, flush, now)
  }

  function ScanStale(s: State, w: nat, flush: bool, now: nat): State {
    Delist(ScanFrom(s, w, PID_FIRST, flush, now), w)
  }

  /** `mt76_connac2_mac_add_txs_skb`: a status report for a known packet id, else a scan for stale entries. */
  function TxsStep(s: State, w: nat, pid: nat, now: nat): State {
    if (w, pid) in s.table then Delist(TakeEntry(s, w, pid, false), w) else ScanStale(s, w, false, now)
  }

  /** The grace period of `w` is not over while a sender that has seen its pointer is still registering. */
  predicate MustWait(s: State, w: nat) {
    w in s.grace && exists f <- s.adding.Keys :: s.adding[f] == w
  }

  /** An event that is not enabled changes nothing. A frame's DMA completes once, after it has been queued. */
  function Step(s: State, e: Event): State {
    match e
    case Publish(w) => if w in s.flushed || w in s.destroyed then s else s.(published := s.published + {w})
    case Check(w, f) =>
      if w in s.published && f !in s.adding && f !in s.frames then s.(adding := s.adding[f := w]) else s
    case Insert(f, grant) =>
      if f !in s.adding then s
      else
        var w := s.adding[f];
        var s1 := s.(adding := s.adding - {f});
        if grant.None? then s1.(frames := s.frames[f := Untracked(false)])
        else s1.(
          frames := s.frames[f := Tracked(w, grant.value, false, false, false, 0)],
          table := s.table[(w, grant.value) := f], wcidList := s.wcidList + {w},
          late := if w in s.flushed then s.late + {f} else s.late)
    case Skip(f) => if f in s.adding || f in s.frames then s else s.(frames := s.frames[f := Untracked(false)])
    case DmaDone(f, now) =>
      if f !in s.frames then s
      else
        var c := s.frames[f];
        if c.Untracked? then (if c.done then s else Done(s, f, Untracked(true)))
        else if c.dmaDone then s
        else Done(s, f, c.(dmaDone := true, time := now))
    case Txs(w, pid, now) => if pid < PID_FIRST then s else TxsStep(s, w, pid, now)
    case Stale(w, flush, now) => if w in s.wcidList then ScanStale(s, w, flush, now) else s
    case Unpublish(w) => s.(published := s.published - {w})
    case CleanupFlush(w) =>
      if w in s.published || w in s.flushed || w in s.destroyed || MustWait(s, w) then s
      else ScanStale(s, w, true, 0).(flushed := s.flushed + {w})
    case CleanupDestroy(w) =>
      if w !in s.flushed then s
      else s.(table := map k | k in s.table && k.0 != w :: s.table[k],
              flushed := s.flushed - {w}, destroyed := s.destroyed + {w})
  }

  /** The IDR returns a free packet id. */
  predicate ValidEvent(s: State, e: Event) {
    e.Insert? && e.grant.Some? && e.f in s.adding ==>
      PID_FIRST <= e.grant.value < PID_MASK && (s.adding[e.f], e.grant.value) !in s.table
  }

  ghost predicate ValidRun(s: State, es: seq<Event>)
    decreases |es|
  {
    es == [] || (ValidEvent(s, es[0]) && ValidRun(Step(s, es[0]), es[1..]))
  }

  function Run(s: State, es: seq<Event>): State
    decreases |es|
  {
    if es == [] then s else Run(Step(s, es[0]), es[1..])
  }

  function Init(timeout: nat, grace: set<nat>): State {
    State(map[], map[], {}, {}, map[], {}, {}, [], timeout, grace, {})
  }

  function Times(reports: seq<nat>, f: nat): nat {
    if reports == [] then 0 else Times(reports[..|reports| - 1], f) + if reports[|reports| - 1] == f then 1 else 0
  }

  lemma TimesMore(reports: seq<nat>, g: nat, f: nat)
    ensures Times(reports + [g], f) == Times(reports, f) + if g == f then 1 else 0
  {
    assert (reports + [g])[..|reports|] == reports;
  }

  // ---- the invariant ----

  ghost predicate Registered(s: State, f: nat) {
    f in s.frames && s.frames[f].Tracked?
  }

  ghost predicate InTable(s: State, f: nat)
    requires Registered(s, f)
  {
    var k := (s.frames[f].wcid, s.frames[f].pid);
    k in s.table && s.table[k] == f
  }

  /** An entry is a registered frame under its own key whose status report is still missing. */
  ghost predicate EntriesExact(s: State) {
    forall k | k in s.table ::
      && PID_FIRST <= k.1 < PID_MASK && Registered(s, s.table[k])
      && (var c := s.frames[s.table[k]]; c.wcid == k.0 && c.pid == k.1 && !c.txsDone && !c.failed)
      && (s.table[k] in s.late <==> k.0 in s.flushed)
  }

  /** A frame whose report is missing is in the table, unless it came late and its table has been destroyed. */
  ghost predicate NoneMissing(s: State) {
    forall f | Registered(s, f) && !s.frames[f].txsDone && (f in s.late ==> s.frames[f].wcid in s.flushed) :: InTable(s, f)
  }

  /** A frame has been reported once if both completions are in, and not at all otherwise. */
  ghost predicate ReportedOnce(s: State) {
    forall f :: Times(s.reports, f) == if f in s.frames && Finished(s.frames[f]) then 1 else 0
  }

  /** An entry with a non-empty table is listed; a listed one has a non-empty table unless it was destroyed
      without a grace period. */
  ghost predicate ListExact(s: State) {
    && (forall w | HasEntries(s.table, w) :: w in s.wcidList)
    && (forall w | w in s.wcidList && !HasEntries(s.table, w) :: w in s.destroyed && w !in s.grace)
  }

  /** Entries pass through the stages in order, and the grace period keeps late frames away. */
  ghost predicate StagesExact(s: State) {
    && (forall w | w in s.flushed :: w !in s.published && w !in s.destroyed)
    && (forall w | w in s.destroyed :: w !in s.published)
    && (forall f | f in s.adding && (s.adding[f] in s.flushed || s.adding[f] in s.destroyed) :: s.adding[f] !in s.grace)
    && (forall f | f in s.late :: Registered(s, f) && s.frames[f].wcid !in s.grace
                                  && (s.frames[f].wcid in s.flushed || s.frames[f].wcid in s.destroyed))
    && s.frames.Keys !! s.adding.Keys
  }

  ghost predicate Inv(s: State) {
    EntriesExact(s) && NoneMissing(s) && ReportedOnce(s) && ListExact(s) && StagesExact(s)
  }

  /** The parts that a scan keeps at each of its steps. */
  ghost predicate ScanInv(s: State) {
    EntriesExact(s) && NoneMissing(s) && ReportedOnce(s)
  }

  lemma DoneKeepsReports(s: State, f: nat, c: Cb)
    requires ReportedOnce(s) && f in s.frames && !Finished(s.frames[f])
    ensures ReportedOnce(Done(s, f, c))
  {
    forall g ensures Times(Done(s, f, c).reports, g) == if g in Done(s, f, c).frames && Finished(Done(s, f, c).frames[g]) then 1 else 0 {
      TimesMore(s.reports, f, g);
      assert Times(s.reports, g) == if g in s.frames && Finished(s.frames[g]) then 1 else 0;
    }
  }

  lemma TakeEntryKeeps(s: State, w: nat, pid: nat, failed: bool)
    requires EntriesExact(s) && ReportedOnce(s) && (w, pid) in s.table
    ensures var s' := TakeEntry(s, w, pid, failed);
            EntriesExact(s') && ReportedOnce(s') && (NoneMissing(s) ==> NoneMissing(s'))
  {
    var f := s.table[(w, pid)];
    var c := s.frames[f].(txsDone := true, failed := s.frames[f].failed || failed);
    DoneKeepsReports(s.(table := s.table - {(w, pid)}), f, c);
  }

  /** What a scan or a report of entry `w` may do: take entries of `w` out, and mark and report their frames. */
  ghost predicate Shrinks(s: State, s': State, w: nat) {
    && s'.(frames := s.frames, table := s.table, reports := s.reports, wcidList := s.wcidList) == s
    && (forall k | k in s'.table :: k in s.table && s'.table[k] == s.table[k])
    && (forall k | k in s.table && k.0 != w :: k in s'.table)
    && (forall f :: f in s'.frames <==> f in s.frames)
    && (forall f | Registered(s, f) :: Registered(s', f) && s'.frames[f].wcid == s.frames[f].wcid)
    && (forall f | Registered(s', f) :: Registered(s, f))
  }

  lemma TakeEntryShrinks(s: State, w: nat, pid: nat, failed: bool)
    requires (w, pid) in s.table
    ensures var s' := TakeEntry(s, w, pid, failed);
            Shrinks(s, s', w) && s'.wcidList == s.wcidList && s'.table == s.table - {(w, pid)}
  {
  }

  lemma ShrinksCompose(s: State, t: State, u: State, w: nat)
    requires Shrinks(s, t, w) && Shrinks(t, u, w)
    ensures Shrinks(s, u, w)
  {
  }

  lemma {:induction false} ScanFromKeeps(s: State, w: nat, pid: nat, flush: bool, now: nat)
    requires ScanInv(s)
    ensures var s' := ScanFrom(s, w, pid, flush, now); ScanInv(s') && Shrinks(s, s', w) && s'.wcidList == s.wcidList
    decreases PID_MASK - pid
  {
    assert Shrinks(s, s, w);
    if pid < PID_MASK {
      var s1 := s;
      if Expires(s, w, pid, flush, now) {
        TakeEntryKeeps(s, w, pid, true);
        TakeEntryShrinks(s, w, pid, true);
        s1 := TakeEntry(s, w, pid, true);
      }
      hide ScanInv, TakeEntry, Expires, Shrinks;
      ScanFromKeeps(s1, w, pid + 1, flush, now);
      ShrinksCompose(s, s1, ScanFrom(s1, w, pid + 1, flush, now), w);
    }
  }

  /** A flush empties the table of its entry. */
  lemma FlushEmpties(s: State, w: nat)
    requires ScanInv(s)
    ensures !HasEntries(ScanFrom(s, w, PID_FIRST, true, 0).table, w)
  {
    var t := ScanFrom(s, w, PID_FIRST, true, 0);
    ScanFromKeeps(s, w, PID_FIRST, true, 0);
    forall p: nat ensures (w, p) !in t.table {
      if p >= PID_FIRST {
        ScanTakes(s, w, PID_FIRST, true, 0, p);
      }
    }
  }

  lemma TakeEntryElsewhere(s: State, w: nat, pid: nat, flush: bool, now: nat, p: nat)
    requires EntriesExact(s) && (w, pid) in s.table && p != pid
    ensures var s1 := TakeEntry(s, w, pid, true);
            ((w, p) in s1.table <==> (w, p) in s.table) && (Expires(s1, w, p, flush, now) <==> Expires(s, w, p, flush, now))
  {
    var f := s.table[(w, pid)];
    assert (w, p) in s.table ==> s.table[(w, p)] != f;
    hide EntriesExact;
  }

  lemma {:induction false} ScanTakes(s: State, w: nat, pid: nat, flush: bool, now: nat, p: nat)
    requires ScanInv(s) && pid <= p
    ensures (w, p) in ScanFrom(s, w, pid, flush, now).table <==> (w, p) in s.table && !Expires(s, w, p, flush, now)
    decreases PID_MASK - pid
  {
    if pid >= PID_MASK {
      assert (w, p) !in s.table;
    } else {
      var s1 := s;
      if Expires(s, w, pid, flush, now) {
        TakeEntryKeeps(s, w, pid, true);
        s1 := TakeEntry(s, w, pid, true);
        if p != pid {
          TakeEntryElsewhere(s, w, pid, flush, now, p);
        }
      }
      hide EntriesExact, NoneMissing, ReportedOnce;
      if p > pid {
        hide Expires, TakeEntry;
        ScanTakes(s1, w, pid + 1, flush, now, p);
      } else {
        ScanLeaves(s1, w, pid + 1, flush, now, p);
      }
    }
  }

  /** A flush takes every entry of `w` out. Any other scan takes exactly those whose frame has left the hardware and has
      waited for its report for the timeout: nothing younger, nothing whose DMA is still out, and none is left. */
  lemma ScanExact(s: State, w: nat, flush: bool, now: nat, p: nat)
    requires ScanInv(s) && (w, p) in s.table
    ensures 3 <= p < 0x7f
    ensures var c := s.frames[s.table[(w, p)]];
            (w, p) !in ScanStale(s, w, flush, now).table <==> flush || (c.dmaDone && now >= c.time + s.timeout)
  {
    assert p >= PID_FIRST;
    ScanTakes(s, w, PID_FIRST, flush, now, p);
  }

  lemma {:induction false} ScanLeaves(s: State, w: nat, pid: nat, flush: bool, now: nat, p: nat)
    requires p < pid
    ensures (w, p) in ScanFrom(s, w, pid, flush, now).table <==> (w, p) in s.table
    decreases PID_MASK - pid
  {
    if pid < PID_MASK {
      ScanLeaves(if Expires(s, w, pid, flush, now) then TakeEntry(s, w, pid, true) else s, w, pid + 1, flush, now, p);
    }
  }

  lemma MoreEntries(a: map<Key, nat>, b: map<Key, nat>, w: nat)
    requires forall k | k in a && k.0 == w :: k in b
    ensures HasEntries(a, w) ==> HasEntries(b, w)
  {
    if k :| k in a.Keys && k.0 == w {
      assert k in b.Keys;
    }
  }

  lemma SameEntries(a: map<Key, nat>, b: map<Key, nat>, w: nat)
    requires forall k: Key | k.0 == w :: k in a <==> k in b
    ensures HasEntries(a, w) <==> HasEntries(b, w)
  {
    MoreEntries(a, b, w);
    MoreEntries(b, a, w);
  }

  lemma ShrinksKeepsList(s: State, s': State, w: nat)
    requires ListExact(s) && Shrinks(s, s', w) && s'.wcidList == s.wcidList
    ensures ListExact(Delist(s', w))
  {
    forall v ensures v != w ==> (HasEntries(s'.table, v) <==> HasEntries(s.table, v)) {
      if v != w {
        SameEntries(s.table, s'.table, v);
      }
    }
    MoreEntries(s'.table, s.table, w);
  }

  lemma ShrinksKeepsInv(s: State, s': State, w: nat)
    requires Inv(s) && ScanInv(s') && Shrinks(s, s', w) && s'.wcidList == s.wcidList
    ensures Inv(Delist(s', w))
  {
    ShrinksKeepsList(s, s', w);
    var t := Delist(s', w);
    assert EntriesExact(t) && NoneMissing(t) && ReportedOnce(t);
    hide EntriesExact, NoneMissing, ReportedOnce, ListExact;
  }

  lemma ScanStaleKeepsInv(s: State, w: nat, flush: bool, now: nat)
    requires Inv(s)
    ensures Inv(ScanStale(s, w, flush, now)) && Shrinks(s, ScanStale(s, w, flush, now), w)
  {
    ScanFromKeeps(s, w, PID_FIRST, flush, now);
    ShrinksKeepsInv(s, ScanFrom(s, w, PID_FIRST, flush, now), w);
  }

  lemma TxsKeepsInv(s: State, w: nat, pid: nat, now: nat)
    requires Inv(s)
    ensures Inv(TxsStep(s, w, pid, now))
  {
    if (w, pid) in s.table {
      TakeEntryKeeps(s, w, pid, false);
      ShrinksKeepsInv(s, TakeEntry(s, w, pid, false), w);
    } else {
      ScanStaleKeepsInv(s, w, false, now);
    }
  }

  lemma InsertKeepsEntries(s: State, f: nat, pid: nat)
    requires Inv(s) && f in s.adding && ValidEvent(s, Insert(f, Some(pid)))
    ensures var s' := Step(s, Insert(f, Some(pid))); EntriesExact(s') && NoneMissing(s')
  {
    var s' := Step(s, Insert(f, Some(pid)));
    assert f !in s.frames && f !in s.late;
    hide ReportedOnce, ListExact, HasEntries;
    forall g | Registered(s', g) && !s'.frames[g].txsDone && (g in s'.late ==> s'.frames[g].wcid in s'.flushed)
      ensures InTable(s', g)
    {
      if g != f {
        assert InTable(s, g);
      }
    }
  }

  lemma InsertKeepsList(s: State, f: nat, pid: nat)
    requires ListExact(s) && f in s.adding
    ensures ListExact(Step(s, Insert(f, Some(pid))))
  {
    var s' := Step(s, Insert(f, Some(pid)));
    var w := s.adding[f];
    assert (w, pid) in s'.table;
    forall v ensures HasEntries(s'.table, v) <==> v == w || HasEntries(s.table, v) {
      if k :| k in s.table && k.0 == v {
        assert k in s'.table;
      }
    }
  }

  lemma InsertKeepsRest(s: State, f: nat, grant: Option<nat>)
    requires ReportedOnce(s) && StagesExact(s) && f in s.adding
    ensures var s' := Step(s, Insert(f, grant)); ReportedOnce(s')
  {
    assert f !in s.frames;
    assert Times(s.reports, f) == 0;
  }

  lemma InsertKeepsStages(s: State, f: nat, grant: Option<nat>)
    requires StagesExact(s) && f in s.adding
    ensures StagesExact(Step(s, Insert(f, grant)))
  {
    assert f !in s.frames && f !in s.late;
  }

  lemma InsertKeepsInv(s: State, f: nat, grant: Option<nat>)
    requires Inv(s) && f in s.adding && ValidEvent(s, Insert(f, grant))
    ensures Inv(Step(s, Insert(f, grant)))
  {
    InsertKeepsRest(s, f, grant);
    InsertKeepsStages(s, f, grant);
    if grant.Some? {
      InsertKeepsEntries(s, f, grant.value);
      InsertKeepsList(s, f, grant.value);
      hide EntriesExact, NoneMissing, ReportedOnce, ListExact, StagesExact;
    } else {
      assert f !in s.frames && f !in s.late;
      assert NoneMissing(Step(s, Insert(f, grant))) by {
        forall g | Registered(s, g) && !s.frames[g].txsDone && (g in s.late ==> s.frames[g].wcid in s.flushed)
          ensures InTable(s, g) {
        }
      }
    }
  }

  lemma MarkKeepsTable(s: State, f: nat, now: nat)
    requires EntriesExact(s) && NoneMissing(s) && Registered(s, f)
    ensures var s' := Done(s, f, s.frames[f].(dmaDone := true, time := now)); EntriesExact(s') && NoneMissing(s')
  {
    var s' := Done(s, f, s.frames[f].(dmaDone := true, time := now));
    forall g | Registered(s', g) && !s'.frames[g].txsDone && (g in s'.late ==> s'.frames[g].wcid in s'.flushed)
      ensures InTable(s', g)
    {
      assert InTable(s, g);
    }
  }

  lemma UntrackedKeepsTable(s: State, f: nat)
    requires EntriesExact(s) && NoneMissing(s) && f in s.frames && s.frames[f].Untracked?
    ensures var s' := Done(s, f, Untracked(true)); EntriesExact(s') && NoneMissing(s')
  {
    var s' := Done(s, f, Untracked(true));
    forall g | Registered(s', g) && !s'.frames[g].txsDone && (g in s'.late ==> s'.frames[g].wcid in s'.flushed)
      ensures InTable(s', g)
    {
      assert InTable(s, g);
    }
  }

  lemma CompletedKeepsInv(s: State, f: nat, c: Cb)
    requires Inv(s) && f in s.frames && ScanInv(Done(s, f, c))
    requires s.frames[f].Tracked? ==> c.Tracked? && c.wcid == s.frames[f].wcid
    ensures Inv(Done(s, f, c))
  {
    var s' := Done(s, f, c);
    assert s'.frames.Keys == s.frames.Keys;
    assert ListExact(s');
    hide EntriesExact, NoneMissing, ReportedOnce, ListExact;
  }

  lemma DmaKeepsInv(s: State, f: nat, now: nat)
    requires Inv(s)
    ensures Inv(Step(s, DmaDone(f, now)))
  {
    if f in s.frames && s.frames[f].Untracked? && !s.frames[f].done {
      UntrackedKeepsTable(s, f);
      DoneKeepsReports(s, f, Untracked(true));
      CompletedKeepsInv(s, f, Untracked(true));
    } else if f in s.frames && s.frames[f].Tracked? && !s.frames[f].dmaDone {
      var c := s.frames[f].(dmaDone := true, time := now);
      MarkKeepsTable(s, f, now);
      DoneKeepsReports(s, f, c);
      CompletedKeepsInv(s, f, c);
    } else {
      assert Step(s, DmaDone(f, now)) == s;
    }
  }

  lemma FlushedKeepsInv(t: State, w: nat)
    requires Inv(t) && !HasEntries(t.table, w) && w !in t.published && w !in t.destroyed
    requires w in t.grace ==> forall f <- t.adding.Keys :: t.adding[f] != w
    ensures Inv(t.(flushed := t.flushed + {w}))
  {
    assert forall k | k in t.table :: k.0 != w;
    assert forall f | f in t.late :: t.frames[f].wcid == w ==> w in t.flushed;
    hide ReportedOnce, HasEntries;
  }

  lemma FlushKeepsInv(s: State, w: nat)
    requires Inv(s)
    ensures Inv(Step(s, CleanupFlush(w)))
  {
    if w !in s.published && w !in s.flushed && w !in s.destroyed && !MustWait(s, w) {
      ScanStaleKeepsInv(s, w, true, 0);
      FlushEmpties(s, w);
      assert !HasEntries(ScanStale(s, w, true, 0).table, w);
      hide ScanStale, Inv;
      FlushedKeepsInv(ScanStale(s, w, true, 0), w);
    }
  }

  lemma DestroyKeepsInv(s: State, w: nat)
    requires Inv(s)
    ensures Inv(Step(s, CleanupDestroy(w)))
  {
    var s' := Step(s, CleanupDestroy(w));
    if w in s.flushed {
      forall v ensures v != w ==> (HasEntries(s'.table, v) <==> HasEntries(s.table, v)) {
        if v != w {
          SameEntries(s.table, s'.table, v);
        }
      }
      assert !HasEntries(s'.table, w);
    }
  }

  lemma PlainKeepsInv(s: State, e: Event)
    requires Inv(s) && (e.Publish? || e.Unpublish? || e.Check? || e.Skip?)
    ensures Inv(Step(s, e))
  {
    if e.Skip? && e.f !in s.frames {
      assert Times(s.reports, e.f) == 0;
    }
    hide HasEntries;
  }

  lemma StepKeepsInv(s: State, e: Event)
    requires Inv(s) && ValidEvent(s, e)
    ensures Inv(Step(s, e))
  {
    match e
    case Insert(f, grant) => if f in s.adding { InsertKeepsInv(s, f, grant); }
    case DmaDone(f, now) => DmaKeepsInv(s, f, now);
    case Txs(w, pid, now) => if pid >= PID_FIRST { TxsKeepsInv(s, w, pid, now); }
    case Stale(w, flush, now) => if w in s.wcidList { ScanStaleKeepsInv(s, w, flush, now); }
    case CleanupFlush(w) => FlushKeepsInv(s, w);
    case CleanupDestroy(w) => DestroyKeepsInv(s, w);
    case _ => PlainKeepsInv(s, e);
  }

  /** Every interleaving, with or without a grace period, keeps the invariant. */
  lemma {:induction false} RunKeepsInv(s: State, es: seq<Event>)
    requires Inv(s) && ValidRun(s, es)
    ensures Inv(Run(s, es))
    decreases |es|
  {
    if es != [] {
      StepKeepsInv(s, es[0]);
      hide Inv, Step, ValidEvent;
      RunKeepsInv(Step(s, es[0]), es[1..]);
    }
  }

  lemma InitKeeps(timeout: nat, grace: set<nat>)
    ensures Inv(Init(timeout, grace))
  {
  }
}
