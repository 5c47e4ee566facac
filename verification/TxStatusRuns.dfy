/** Transmit status over whole runs: what every interleaving gives, which frames are lost, and how reports come in. */
module TxStatusRuns {
  import opened Basics
  import opened TxStatus

  // ---- what holds in every run ----

  /** Every interleaving of senders, completions, reports, scans and cleanups: a frame is handed to mac80211 exactly
      once when both completions are in and never before. For an entry with a grace period, a registered frame is in
      the table exactly while its report is missing, and the entry is listed exactly while its table is not empty. */
  lemma RunExact(timeout: nat, grace: set<nat>, es: seq<Event>, f: nat, w: nat)
    requires ValidRun(Init(timeout, grace), es)
    ensures var s := Run(Init(timeout, grace), es);
            && Times(s.reports, f) == (if f in s.frames && Finished(s.frames[f]) then 1 else 0)
            && (Registered(s, f) && s.frames[f].wcid in grace ==> (InTable(s, f) <==> !s.frames[f].txsDone))
            && (w in grace ==> (w in s.wcidList <==> HasEntries(s.table, w)))
  {
    InitKeeps(timeout, grace);
    RunKeepsInv(Init(timeout, grace), es);
    RunKeepsGrace(Init(timeout, grace), es);
    var s := Run(Init(timeout, grace), es);
    hide Run;
    if Registered(s, f) && InTable(s, f) {
      assert !s.frames[s.table[(s.frames[f].wcid, s.frames[f].pid)]].txsDone;
    }
  }

  lemma {:induction false} ScanFromGrace(s: State, w: nat, pid: nat, flush: bool, now: nat)
    ensures var s' := ScanFrom(s, w, pid, flush, now); s'.grace == s.grace && s'.late == s.late && s'.timeout == s.timeout
    decreases PID_MASK - pid
  {
    if pid < PID_MASK {
      ScanFromGrace(if Expires(s, w, pid, flush, now) then TakeEntry(s, w, pid, true) else s, w, pid + 1, flush, now);
    }
  }

  lemma ScanStaleGrace(s: State, w: nat, flush: bool, now: nat)
    ensures var s' := ScanStale(s, w, flush, now); s'.grace == s.grace && s'.late == s.late && s'.timeout == s.timeout
  {
    ScanFromGrace(s, w, PID_FIRST, flush, now);
  }

  lemma StepKeepsGrace(s: State, e: Event)
    ensures Step(s, e).grace == s.grace && Step(s, e).timeout == s.timeout
    ensures e.Insert? || Step(s, e).late == s.late
  {
    hide ScanStale, HasEntries, MustWait;
    match e
    case Txs(w, pid, now) => ScanStaleGrace(s, w, false, now);
    case Stale(w, flush, now) => ScanStaleGrace(s, w, flush, now);
    case CleanupFlush(w) => ScanStaleGrace(s, w, true, 0);
    case _ =>
  }

  lemma {:induction false} RunKeepsGrace(s: State, es: seq<Event>)
    ensures Run(s, es).grace == s.grace && Run(s, es).timeout == s.timeout
    decreases |es|
  {
    if es != [] {
      StepKeepsGrace(s, es[0]);
      hide Step;
      RunKeepsGrace(Step(s, es[0]), es[1..]);
    }
  }

  // ---- lost frames ----

  /** A registered frame without a report that no table entry leads to. */
  ghost predicate Lost(s: State, f: nat) {
    Registered(s, f) && !s.frames[f].txsDone && !InTable(s, f)
  }

  /** In every run: a frame is lost if and only if it was registered while its entry was flushed, the entry has been
      destroyed since, and no report or scan came in between. */
  lemma LostIff(s: State, f: nat)
    requires Inv(s)
    ensures Lost(s, f) <==>
            f in s.late && !s.frames[f].txsDone && s.frames[f].wcid in s.destroyed
  {
    if Registered(s, f) && InTable(s, f) {
      assert f in s.late <==> s.frames[f].wcid in s.flushed;
    }
    assert forall w | w in s.flushed :: w !in s.destroyed;
    hide EntriesExact, ReportedOnce, ListExact;
  }

  /** And at the step that destroys a table, the frames lost are exactly its entries. */
  lemma DestroyLoses(s: State, w: nat, f: nat)
    requires Inv(s) && w in s.flushed
    ensures Lost(Step(s, CleanupDestroy(w)), f) <==> Lost(s, f) || ((exists p :: (w, p) in s.table && s.table[(w, p)] == f))
    ensures var s' := Step(s, CleanupDestroy(w));
            w in s'.wcidList && !HasEntries(s'.table, w) <==> HasEntries(s.table, w)
  {
    if p :| (w, p) in s.table && s.table[(w, p)] == f {
      assert Registered(s, f) && s.frames[f].wcid == w;
    }
    if Registered(s, f) && InTable(s, f) && s.frames[f].wcid == w {
      assert (w, s.frames[f].pid) in s.table;
    }
    assert !HasEntries(Step(s, CleanupDestroy(w)).table, w);
  }

  /** Taking the entry of another frame leaves `f` and its entry alone. */
  lemma TakeOther(s: State, w: nat, pid: nat, f: nat)
    requires ScanInv(s) && Registered(s, f) && (w, pid) in s.table && s.table[(w, pid)] != f
    ensures var s1 := TakeEntry(s, w, pid, true);
            && ScanInv(s1) && Registered(s1, f) && s1.frames[f] == s.frames[f] && (InTable(s1, f) <==> InTable(s, f))
            && s1.timeout == s.timeout
  {
    TakeEntryKeeps(s, w, pid, true);
    hide EntriesExact, NoneMissing, ReportedOnce;
  }

  lemma TakeOwn(s: State, w: nat, pid: nat, f: nat)
    requires ScanInv(s) && (w, pid) in s.table && s.table[(w, pid)] == f
    ensures var s1 := TakeEntry(s, w, pid, true);
            && Registered(s, f) && s.frames[f].wcid == w && s.frames[f].pid == pid && InTable(s, f)
            && ScanInv(s1) && Registered(s1, f) && !InTable(s1, f)
            && s1.frames[f] == s.frames[f].(txsDone := true, failed := true)
  {
    TakeEntryKeeps(s, w, pid, true);
    hide NoneMissing, ReportedOnce;
  }

  lemma StaysWhile(s: State, w: nat, pid: nat, flush: bool, now: nat, f: nat)
    requires Registered(s, f) && pid < PID_MASK && !Expires(s, w, pid, flush, now)
    ensures InTable(s, f) && s.frames[f].wcid == w && s.frames[f].pid == pid ==>
            !flush && !(s.frames[f].dmaDone && now >= s.frames[f].time + s.timeout)
  {
  }

  lemma ScanTurn(s: State, w: nat, pid: nat, flush: bool, now: nat)
    requires pid < PID_MASK
    ensures ScanFrom(s, w, pid, flush, now)
         == ScanFrom(if Expires(s, w, pid, flush, now) then TakeEntry(s, w, pid, true) else s, w, pid + 1, flush, now)
  {
    hide Expires, TakeEntry;
  }

  /** What a scan does to one frame: it is marked as failed if its entry may expire, and left alone otherwise. */
  lemma {:induction false} ScanFrame(s: State, w: nat, pid: nat, flush: bool, now: nat, f: nat)
    requires ScanInv(s) && Registered(s, f)
    ensures var c := s.frames[f];
            var s' := ScanFrom(s, w, pid, flush, now);
            var hit := && c.wcid == w && c.pid >= pid && InTable(s, f)
                       && (flush || (c.dmaDone && now >= c.time + s.timeout));
            f in s'.frames && s'.frames[f] == if hit then c.(txsDone := true, failed := true) else c
    decreases PID_MASK - pid
  {
    if pid >= PID_MASK {
      assert InTable(s, f) ==> s.frames[f].pid < PID_MASK;
    } else if !Expires(s, w, pid, flush, now) {
      StaysWhile(s, w, pid, flush, now, f);
      ScanTurn(s, w, pid, flush, now);
      hide *;
      ScanFrame(s, w, pid + 1, flush, now, f);
    } else if s.table[(w, pid)] == f {
      TakeOwn(s, w, pid, f);
      ScanTurn(s, w, pid, flush, now);
      hide ScanInv, TakeEntry, InTable, ScanFrom;
      ScanFrame(TakeEntry(s, w, pid, true), w, pid + 1, flush, now, f);
    } else {
      TakeOther(s, w, pid, f);
      assert InTable(s, f) && s.frames[f].wcid == w ==> s.frames[f].pid != pid;
      ScanTurn(s, w, pid, flush, now);
      hide *;
      ScanFrame(TakeEntry(s, w, pid, true), w, pid + 1, flush, now, f);
    }
  }

  lemma TakeEntryLoses(s: State, w: nat, pid: nat, failed: bool, f: nat)
    requires EntriesExact(s) && (w, pid) in s.table && Lost(s, f)
    ensures Lost(TakeEntry(s, w, pid, failed), f)
  {
  }

  lemma {:induction false} ScanLoses(s: State, w: nat, pid: nat, flush: bool, now: nat, f: nat)
    requires ScanInv(s) && Lost(s, f)
    ensures Lost(ScanStale(s, w, flush, now), f)
  {
    ScanFrame(s, w, PID_FIRST, flush, now, f);
    ScanFromKeeps(s, w, PID_FIRST, flush, now);
  }

  lemma StepLoses(s: State, e: Event, f: nat)
    requires Inv(s) && ValidEvent(s, e) && Lost(s, f)
    ensures Lost(Step(s, e), f)
  {
    match e
    case Txs(w, pid, now) =>
      if pid >= PID_FIRST && (w, pid) in s.table {
        TakeEntryLoses(s, w, pid, false, f);
      } else if pid >= PID_FIRST {
        ScanLoses(s, w, PID_FIRST, false, now, f);
      }
    case Stale(w, flush, now) => ScanLoses(s, w, PID_FIRST, flush, now, f);
    case CleanupFlush(w) => ScanLoses(s, w, PID_FIRST, true, 0, f);
    case _ =>
  }

  /** A lost frame stays lost and unreported, whatever happens next. */
  lemma {:induction false} LostForever(s: State, es: seq<Event>, f: nat)
    requires Inv(s) && ValidRun(s, es) && Lost(s, f)
    ensures Lost(Run(s, es), f) && Times(Run(s, es).reports, f) == 0
    decreases |es|
  {
    if es != [] {
      StepKeepsInv(s, es[0]);
      StepLoses(s, es[0], f);
      hide Inv, Step, ValidEvent, Lost;
      LostForever(Step(s, es[0]), es[1..], f);
    }
  }

  ghost predicate Loses(timeout: nat, grace: set<nat>, es: seq<Event>, w: nat, f: nat) {
    ValidRun(Init(timeout, grace), es) &&
    var s := Run(Init(timeout, grace), es);
    Lost(s, f) && s.frames[f].wcid == w
  }

  /** The sender takes the lock only after the flush of its entry. */
  function LateRun(w: nat, f: nat): seq<Event> {
    [Publish(w), Check(w, f), Unpublish(w), CleanupFlush(w), Insert(f, Some(PID_FIRST)), CleanupDestroy(w)]
  }

  lemma {:induction false} ScanNothing(s: State, w: nat, pid: nat, flush: bool, now: nat)
    requires s.table == map[]
    ensures ScanFrom(s, w, pid, flush, now) == s
    decreases PID_MASK - pid
  {
    if pid < PID_MASK {
      ScanNothing(s, w, pid + 1, flush, now);
    }
  }

  lemma LateStart(timeout: nat, grace: set<nat>, w: nat, f: nat)
    requires w !in grace
    ensures var s := Step(Step(Step(Init(timeout, grace), Publish(w)), Check(w, f)), Unpublish(w));
            Step(s, CleanupFlush(w)) == Init(timeout, grace).(adding := map[f := w], flushed := {w})
  {
    var s0 := Init(timeout, grace);
    var s3 := Step(Step(Step(s0, Publish(w)), Check(w, f)), Unpublish(w));
    hide ScanStale, HasEntries;
    assert s3 == s0.(adding := map[f := w]);
    FlushNothing(s3, w);
  }

  lemma LateEnd(s: State, w: nat, f: nat)
    requires s.adding == map[f := w] && s.flushed == {w} && s.table == map[] && f !in s.frames
    ensures ValidEvent(s, Insert(f, Some(PID_FIRST)))
    ensures var t := Step(Step(s, Insert(f, Some(PID_FIRST))), CleanupDestroy(w)); Lost(t, f) && t.frames[f].wcid == w
  {
  }

  lemma LateRunLoses(timeout: nat, grace: set<nat>, w: nat, f: nat)
    requires w !in grace
    ensures Loses(timeout, grace, LateRun(w, f), w, f)
  {
    var s0 := Init(timeout, grace);
    var es := LateRun(w, f);
    var s4 := s0.(adding := map[f := w], flushed := {w});
    LateStart(timeout, grace, w, f);
    LateEnd(s4, w, f);
    hide Step, ScanStale, Run, ValidRun, Lost;
    var s1 := Step(s0, Publish(w));
    var s2 := Step(s1, Check(w, f));
    var s3 := Step(s2, Unpublish(w));
    var s5 := Step(s4, Insert(f, Some(PID_FIRST)));
    RunSix(s0, es, s1, s2, s3, s4, s5, Step(s5, CleanupDestroy(w)));
  }

  lemma FlushNothing(s: State, w: nat)
    requires s.table == map[] && s.wcidList == {}
    ensures ScanStale(s, w, true, 0) == s
  {
    ScanNothing(s, w, PID_FIRST, true, 0);
    assert s.wcidList - {w} == {};
  }

  lemma RunSix(s0: State, es: seq<Event>, s1: State, s2: State, s3: State, s4: State, s5: State, s6: State)
    requires |es| == 6 && s1 == Step(s0, es[0]) && s2 == Step(s1, es[1]) && s3 == Step(s2, es[2])
    requires s4 == Step(s3, es[3]) && s5 == Step(s4, es[4]) && s6 == Step(s5, es[5])
    requires ValidEvent(s0, es[0]) && ValidEvent(s1, es[1]) && ValidEvent(s2, es[2])
    requires ValidEvent(s3, es[3]) && ValidEvent(s4, es[4]) && ValidEvent(s5, es[5])
    ensures Run(s0, es) == s6 && ValidRun(s0, es)
  {
    hide Step, ValidEvent;
    assert es[1..][1..] == es[2..] && es[2..][1..] == es[3..] && es[3..][1..] == es[4..] && es[4..][1..] == es[5..];
    assert Run(s5, es[5..]) == s6 && ValidRun(s5, es[5..]);
    assert Run(s4, es[4..]) == s6 && ValidRun(s4, es[4..]);
    assert Run(s3, es[3..]) == s6 && ValidRun(s3, es[3..]);
    assert Run(s2, es[2..]) == s6 && ValidRun(s2, es[2..]);
    assert Run(s1, es[1..]) == s6 && ValidRun(s1, es[1..]);
  }

  /** Some run loses a frame of entry `w` if and only if its cleanup does not wait for a grace period. */
  lemma CanLose(timeout: nat, grace: set<nat>, w: nat, f: nat)
    ensures (exists es :: Loses(timeout, grace, es, w, f)) <==> w !in grace
  {
    if w !in grace {
      LateRunLoses(timeout, grace, w, f);
    }
    forall es | Loses(timeout, grace, es, w, f) ensures w !in grace {
      InitKeeps(timeout, grace);
      RunKeepsInv(Init(timeout, grace), es);
      RunKeepsGrace(Init(timeout, grace), es);
      LostIff(Run(Init(timeout, grace), es), f);
      hide Run;
    }
  }

  /** Once nothing is listed, a frame whose DMA is done has been handed to mac80211 exactly once, unless it is lost. */
  lemma AllReported(s: State, f: nat)
    requires Inv(s) && s.wcidList == {} && f in s.frames
    requires if s.frames[f].Tracked? then s.frames[f].dmaDone else s.frames[f].done
    ensures Times(s.reports, f) == if Lost(s, f) then 0 else 1
  {
    EntriesListed(s);
  }

  lemma EntriesListed(s: State)
    requires ListExact(s)
    ensures forall k | k in s.table :: k.0 in s.wcidList
  {
    forall k | k in s.table ensures k.0 in s.wcidList {
      assert k in s.table.Keys && HasEntries(s.table, k.0);
    }
  }

  // ---- how a frame's report came in ----

  /** The status report of frame `f` arrives. */
  ghost predicate Hits(s: State, e: Event, f: nat) {
    e.Txs? && e.pid >= 3 && (e.w, e.pid) in s.table && s.table[(e.w, e.pid)] == f
  }

  /** A scan or a flush finds frame `f` in the table; a scan gives it up if its DMA was done the timeout ago. */
  ghost predicate GivesUp(s: State, e: Event, f: nat) {
    Registered(s, f) && InTable(s, f) &&
    var c := s.frames[f];
    match e
    case Txs(w, pid, now) =>
      pid >= 3 && (w, pid) !in s.table && w == c.wcid && c.dmaDone && now >= c.time + s.timeout
    case Stale(w, flush, now) => w == c.wcid && (flush || (c.dmaDone && now >= c.time + s.timeout))
    case CleanupFlush(w) => w == c.wcid && w !in s.published && w !in s.flushed && w !in s.destroyed && !MustWait(s, w)
    case _ => false
  }

  ghost predicate EverHit(s: State, es: seq<Event>, f: nat)
    decreases |es|
  {
    es != [] && (Hits(s, es[0], f) || EverHit(Step(s, es[0]), es[1..], f))
  }

  ghost predicate EverGivenUp(s: State, es: seq<Event>, f: nat)
    decreases |es|
  {
    es != [] && (GivesUp(s, es[0], f) || EverGivenUp(Step(s, es[0]), es[1..], f))
  }

  ghost predicate Reported(s: State, f: nat) {
    Registered(s, f) && s.frames[f].txsDone
  }

  ghost predicate Failed(s: State, f: nat) {
    Registered(s, f) && s.frames[f].failed
  }

  lemma ScanMarks(s: State, w: nat, flush: bool, now: nat, f: nat)
    requires ScanInv(s) && Registered(s, f)
    ensures var s' := ScanStale(s, w, flush, now);
            var c := s.frames[f];
            var hit := c.wcid == w && InTable(s, f) && (flush || (c.dmaDone && now >= c.time + s.timeout));
            && (Reported(s', f) <==> Reported(s, f) || hit) && (Failed(s', f) <==> Failed(s, f) || hit)
  {
    ScanFrame(s, w, PID_FIRST, flush, now, f);
    if InTable(s, f) {
      assert s.frames[f].pid >= PID_FIRST;
    }
  }

  lemma ScanUnknown(s: State, w: nat, flush: bool, now: nat, f: nat)
    requires ScanInv(s) && !Registered(s, f)
    ensures !Registered(ScanStale(s, w, flush, now), f)
  {
    ScanFromKeeps(s, w, PID_FIRST, flush, now);
  }

  lemma ListedEntry(s: State, f: nat)
    requires Inv(s) && Registered(s, f) && InTable(s, f)
    ensures s.frames[f].wcid in s.wcidList && !s.frames[f].txsDone
  {
    assert (s.frames[f].wcid, s.frames[f].pid) in s.table.Keys;
  }

  lemma TxsMarks(s: State, w: nat, pid: nat, now: nat, f: nat)
    requires Inv(s) && Registered(s, f)
    ensures var e := Txs(w, pid, now);
            var s' := Step(s, e);
            && (Reported(s', f) <==> Reported(s, f) || Hits(s, e, f) || GivesUp(s, e, f))
            && (Failed(s', f) <==> Failed(s, f) || GivesUp(s, e, f))
  {
    if pid >= PID_FIRST && (w, pid) !in s.table {
      ScanMarks(s, w, false, now, f);
    }
  }

  lemma FlushMarks(s: State, w: nat, f: nat)
    requires Inv(s) && Registered(s, f)
    ensures var s' := Step(s, CleanupFlush(w));
            var given := GivesUp(s, CleanupFlush(w), f);
            && (Reported(s', f) <==> Reported(s, f) || given) && (Failed(s', f) <==> Failed(s, f) || given)
  {
    if w !in s.published && w !in s.flushed && w !in s.destroyed && !MustWait(s, w) {
      ScanMarks(s, w, true, 0, f);
      hide ScanStale, ScanInv, Inv;
    }
  }

  lemma StaleMarks(s: State, w: nat, flush: bool, now: nat, f: nat)
    requires Inv(s) && Registered(s, f)
    ensures var s' := Step(s, Stale(w, flush, now));
            var given := GivesUp(s, Stale(w, flush, now), f);
            && (Reported(s', f) <==> Reported(s, f) || given) && (Failed(s', f) <==> Failed(s, f) || given)
  {
    if InTable(s, f) {
      ListedEntry(s, f);
    }
    if w in s.wcidList {
      ScanMarks(s, w, flush, now, f);
    }
    hide ScanStale, ScanInv, Inv;
  }

  lemma UnknownMarks(s: State, e: Event, f: nat)
    requires ScanInv(s) && !Registered(s, f)
    ensures !Reported(Step(s, e), f) && !Failed(Step(s, e), f) && !Hits(s, e, f)
  {
    hide ScanStale, MustWait, HasEntries, NoneMissing, ReportedOnce;
    match e
    case Txs(w, pid, now) => ScanUnknown(s, w, false, now, f);
    case Stale(w, flush, now) => ScanUnknown(s, w, flush, now, f);
    case CleanupFlush(w) => ScanUnknown(s, w, true, 0, f);
    case _ =>
  }

  /** One step: the report of `f` is in afterwards if it was, arrives or is given up, and it counts as failed only in
      the last case. */
  lemma StepMarks(s: State, e: Event, f: nat)
    requires Inv(s) && ValidEvent(s, e)
    ensures var s' := Step(s, e);
            && (Reported(s', f) <==> Reported(s, f) || Hits(s, e, f) || GivesUp(s, e, f))
            && (Failed(s', f) <==> Failed(s, f) || GivesUp(s, e, f))
  {
    if !Registered(s, f) {
      UnknownMarks(s, e, f);
      hide Step, Inv, ValidEvent;
    } else {
      match e
      case Txs(w, pid, now) => TxsMarks(s, w, pid, now, f); hide *;
      case Stale(w, flush, now) => StaleMarks(s, w, flush, now, f); hide Step, Inv, ValidEvent, GivesUp, Reported, Failed;
      case CleanupFlush(w) => FlushMarks(s, w, f); hide Step, Inv, ValidEvent, GivesUp, Reported, Failed;
      case _ => hide ScanStale, Inv, InTable;
    }
  }

  /** Over every run: the report of a registered frame is in if and only if it arrived or was given up by a scan or a
      flush, never both, and the frame is marked as failed if and only if it was given up. */
  lemma {:induction false} RunMarks(s: State, es: seq<Event>, f: nat)
    requires Inv(s) && ValidRun(s, es)
    ensures var s' := Run(s, es);
            && (Reported(s', f) <==> Reported(s, f) || EverHit(s, es, f) || EverGivenUp(s, es, f))
            && (Failed(s', f) <==> Failed(s, f) || EverGivenUp(s, es, f))
    ensures Reported(s, f) ==> !EverHit(s, es, f) && !EverGivenUp(s, es, f)
    ensures !(EverHit(s, es, f) && EverGivenUp(s, es, f))
    decreases |es|
  {
    if es != [] {
      var s1 := Step(s, es[0]);
      StepKeepsInv(s, es[0]);
      StepMarks(s, es[0], f);
      MarksOnce(s, es[0], f);
      hide Inv, Step, ValidEvent, Hits, GivesUp, Reported, Failed;
      RunMarks(s1, es[1..], f);
    }
  }

  lemma MarksOnce(s: State, e: Event, f: nat)
    requires Inv(s)
    ensures !(Hits(s, e, f) && GivesUp(s, e, f))
    ensures Reported(s, f) ==> !Hits(s, e, f) && !GivesUp(s, e, f)
  {
    if Registered(s, f) && InTable(s, f) {
      ListedEntry(s, f);
    }
  }

  /** From the start: failed exactly when given up, completed exactly when reported or given up, and never both. */
  lemma FailedIffGivenUp(timeout: nat, grace: set<nat>, es: seq<Event>, f: nat)
    requires ValidRun(Init(timeout, grace), es)
    ensures var s := Run(Init(timeout, grace), es);
            && (Reported(s, f) <==> EverHit(Init(timeout, grace), es, f) || EverGivenUp(Init(timeout, grace), es, f))
            && (Failed(s, f) <==> EverGivenUp(Init(timeout, grace), es, f))
            && !(EverHit(Init(timeout, grace), es, f) && EverGivenUp(Init(timeout, grace), es, f))
  {
    InitKeeps(timeout, grace);
    RunMarks(Init(timeout, grace), es, f);
  }

  // ---- when a frame is reported ----

  /** Frame `f` goes to the hardware: registered for status or not. */
  ghost predicate Queues(s: State, e: Event, f: nat) {
    || (e.Insert? && e.f == f && f in s.adding)
    || (e.Skip? && e.f == f && f !in s.adding && f !in s.frames)
  }

  ghost predicate Registers(s: State, e: Event, f: nat) {
    e.Insert? && e.f == f && f in s.adding && e.grant.Some?
  }

  /** The hardware has read frame `f`. */
  ghost predicate DmaIsDone(s: State, f: nat) {
    f in s.frames && if s.frames[f].Tracked? then s.frames[f].dmaDone else s.frames[f].done
  }

  ghost predicate Completes(s: State, e: Event, f: nat) {
    e.DmaDone? && e.f == f && f in s.frames
  }

  ghost predicate SameFrame(s: State, s': State, f: nat) {
    (f in s'.frames <==> f in s.frames) && (Registered(s', f) <==> Registered(s, f)) && (DmaIsDone(s', f) <==> DmaIsDone(s, f))
  }

  lemma ScanKeepsFrame(s: State, w: nat, flush: bool, now: nat, f: nat)
    requires ScanInv(s)
    ensures SameFrame(s, ScanStale(s, w, flush, now), f)
  {
    ScanFromKeeps(s, w, PID_FIRST, flush, now);
    if Registered(s, f) {
      ScanFrame(s, w, PID_FIRST, flush, now, f);
    } else {
      ScanUntracked(s, w, PID_FIRST, flush, now, f);
    }
    hide ScanFrom, ScanInv;
  }

  lemma {:induction false} ScanUntracked(s: State, w: nat, pid: nat, flush: bool, now: nat, f: nat)
    requires !Registered(s, f)
    ensures var s' := ScanFrom(s, w, pid, flush, now);
            !Registered(s', f) && (f in s'.frames <==> f in s.frames) && (f in s.frames ==> s'.frames[f] == s.frames[f])
    decreases PID_MASK - pid
  {
    if pid < PID_MASK {
      ScanUntracked(if Expires(s, w, pid, flush, now) then TakeEntry(s, w, pid, true) else s, w, pid + 1, flush, now, f);
    }
  }

  lemma StepCompletes(s: State, e: Event, f: nat)
    requires Inv(s) && ValidEvent(s, e)
    ensures var s' := Step(s, e);
            && (f in s'.frames <==> f in s.frames || Queues(s, e, f))
            && (Registered(s', f) <==> Registered(s, f) || Registers(s, e, f))
            && (DmaIsDone(s', f) <==> DmaIsDone(s, f) || Completes(s, e, f))
  {
    hide ScanStale, MustWait, HasEntries, NoneMissing, ReportedOnce;
    match e
    case Txs(w, pid, now) => ScanKeepsFrame(s, w, false, now, f);
    case Stale(w, flush, now) => ScanKeepsFrame(s, w, flush, now, f);
    case CleanupFlush(w) => ScanKeepsFrame(s, w, true, 0, f);
    case _ =>
  }

  ghost predicate EverRegisters(s: State, es: seq<Event>, f: nat)
    decreases |es|
  {
    es != [] && (Registers(s, es[0], f) || EverRegisters(Step(s, es[0]), es[1..], f))
  }

  ghost predicate EverCompletes(s: State, es: seq<Event>, f: nat)
    decreases |es|
  {
    es != [] && (Completes(s, es[0], f) || EverCompletes(Step(s, es[0]), es[1..], f))
  }

  ghost predicate EverQueues(s: State, es: seq<Event>, f: nat)
    decreases |es|
  {
    es != [] && (Queues(s, es[0], f) || EverQueues(Step(s, es[0]), es[1..], f))
  }

  lemma {:induction false} RunCompletes(s: State, es: seq<Event>, f: nat)
    requires Inv(s) && ValidRun(s, es)
    ensures var s' := Run(s, es);
            && (f in s'.frames <==> f in s.frames || EverQueues(s, es, f))
            && (Registered(s', f) <==> Registered(s, f) || EverRegisters(s, es, f))
            && (DmaIsDone(s', f) <==> DmaIsDone(s, f) || EverCompletes(s, es, f))
    decreases |es|
  {
    if es != [] {
      StepKeepsInv(s, es[0]);
      StepCompletes(s, es[0], f);
      hide Inv, Step, ValidEvent, Registers, Completes, Queues, DmaIsDone, Registered;
      RunCompletes(Step(s, es[0]), es[1..], f);
    }
  }

  /** Over every run, in terms of what has happened: a frame is handed to mac80211 exactly once if the hardware has
      finished it and, when it was registered for status, its report has come in or was given up; otherwise never. */
  lemma ReportedIff(timeout: nat, grace: set<nat>, es: seq<Event>, f: nat)
    requires ValidRun(Init(timeout, grace), es)
    ensures var s0 := Init(timeout, grace);
            Times(Run(s0, es).reports, f) ==
              if EverCompletes(s0, es, f) && (EverRegisters(s0, es, f) ==> EverHit(s0, es, f) || EverGivenUp(s0, es, f))
              then 1 else 0
    ensures EverCompletes(Init(timeout, grace), es, f) || EverRegisters(Init(timeout, grace), es, f) ==>
              EverQueues(Init(timeout, grace), es, f)
  {
    var s0 := Init(timeout, grace);
    InitKeeps(timeout, grace);
    RunExact(timeout, grace, es, f, 0);
    RunCompletes(s0, es, f);
    FailedIffGivenUp(timeout, grace, es, f);
    hide Run, Inv, EverCompletes, EverRegisters, EverHit, EverGivenUp, EverQueues;
  }

  // ---- how long a frame waits for its report ----

  /** The DMA of frame `f` was done at time `t`. */
  ghost predicate Stamped(s: State, f: nat, t: nat) {
    Registered(s, f) && s.frames[f].dmaDone && s.frames[f].time == t
  }

  lemma ScanStamps(s: State, w: nat, flush: bool, now: nat, f: nat, t: nat)
    requires ScanInv(s)
    ensures Stamped(ScanStale(s, w, flush, now), f, t) <==> Stamped(s, f, t)
  {
    if Registered(s, f) {
      ScanFrame(s, w, PID_FIRST, flush, now, f);
      ScanFromKeeps(s, w, PID_FIRST, flush, now);
    } else {
      ScanUnknown(s, w, flush, now, f);
    }
    hide ScanFrom, ScanInv;
  }

  /** The time stamp of a frame is set by its DMA completion alone. */
  lemma StepStamps(s: State, e: Event, f: nat, t: nat)
    requires Inv(s)
    ensures Stamped(Step(s, e), f, t) <==>
            Stamped(s, f, t) || (e == DmaDone(f, t) && Registered(s, f) && !s.frames[f].dmaDone)
  {
    hide ScanStale, MustWait, HasEntries, NoneMissing, ReportedOnce;
    match e
    case Txs(w, pid, now) => ScanStamps(s, w, false, now, f, t);
    case Stale(w, flush, now) => ScanStamps(s, w, flush, now, f, t);
    case CleanupFlush(w) => ScanStamps(s, w, true, 0, f, t);
    case _ =>
  }

  lemma {:induction false} RunStamps(s: State, es: seq<Event>, f: nat, t: nat)
    requires Inv(s) && ValidRun(s, es) && Stamped(Run(s, es), f, t)
    ensures Stamped(s, f, t) || DmaDone(f, t) in es
    decreases |es|
  {
    if es != [] {
      StepKeepsInv(s, es[0]);
      StepStamps(s, es[0], f, t);
      hide Inv, Step, ValidEvent, Stamped;
      RunStamps(Step(s, es[0]), es[1..], f, t);
    }
  }

  lemma {:induction false} GivenUpAt(s: State, es: seq<Event>, f: nat) returns (j: nat)
    requires ValidRun(s, es) && EverGivenUp(s, es, f)
    ensures j < |es| && ValidRun(s, es[..j]) && GivesUp(Run(s, es[..j]), es[j], f)
    decreases |es|
  {
    hide Step, ValidEvent, GivesUp;
    if GivesUp(s, es[0], f) {
      j := 0;
    } else {
      var i := GivenUpAt(Step(s, es[0]), es[1..], f);
      j := i + 1;
      assert es[..j][1..] == es[1..][..i];
    }
  }

  predicate Flushes(e: Event) {
    e.CleanupFlush? || (e.Stale? && e.flush)
  }

  /** A scan of some entry at time `t` or later. */
  predicate ScansFrom(e: Event, t: nat) {
    (e.Stale? || e.Txs?) && e.now >= t
  }

  /** In every run without a flush, a frame counts as failed only if its DMA was done at some time and a scan at least
      the timeout later found its report missing. */
  lemma FailedHasWaited(timeout: nat, grace: set<nat>, es: seq<Event>, f: nat)
    requires ValidRun(Init(timeout, grace), es) && forall e <- es :: !Flushes(e)
    requires Failed(Run(Init(timeout, grace), es), f)
    ensures exists i, j :: 0 <= i < j < |es| && es[i].DmaDone? && es[i].f == f && ScansFrom(es[j], es[i].now + timeout)
  {
    var s0 := Init(timeout, grace);
    FailedIffGivenUp(timeout, grace, es, f);
    var j := GivenUpAt(s0, es, f);
    var s := Run(s0, es[..j]);
    RunKeepsGrace(s0, es[..j]);
    InitKeeps(timeout, grace);
    hide Run, Step;
    assert !Flushes(es[j]);
    assert s.frames[f].dmaDone && ScansFrom(es[j], s.frames[f].time + timeout);
    RunStamps(s0, es[..j], f, s.frames[f].time);
    var i :| 0 <= i < j && es[..j][i] == DmaDone(f, s.frames[f].time);
    assert es[i].DmaDone?;
  }

  /** Frame `f` is registered between the flush of its entry and the end of its table. */
  ghost predicate ComesLate(s: State, e: Event, f: nat) {
    e.Insert? && e.f == f && f in s.adding && e.grant.Some? && s.adding[f] in s.flushed
  }

  ghost predicate EverLate(s: State, es: seq<Event>, f: nat)
    decreases |es|
  {
    es != [] && (ComesLate(s, es[0], f) || EverLate(Step(s, es[0]), es[1..], f))
  }

  lemma {:induction false} RunLate(s: State, es: seq<Event>, f: nat)
    ensures f in Run(s, es).late <==> f in s.late || EverLate(s, es, f)
    decreases |es|
  {
    if es != [] {
      StepKeepsGrace(s, es[0]);
      assert f in Step(s, es[0]).late <==> f in s.late || ComesLate(s, es[0], f);
      hide Step, ComesLate;
      RunLate(Step(s, es[0]), es[1..], f);
    }
  }

  /** In every run, a frame is lost if and only if it was registered between the flush of its entry and the end of its
      table, that table is gone, and no report, scan or flush caught it before. */
  lemma LostExact(timeout: nat, grace: set<nat>, es: seq<Event>, f: nat)
    requires ValidRun(Init(timeout, grace), es)
    ensures var s0 := Init(timeout, grace);
            var s := Run(s0, es);
            Lost(s, f) <==> && Registered(s, f) && s.frames[f].wcid in s.destroyed
                            && EverLate(s0, es, f) && !EverHit(s0, es, f) && !EverGivenUp(s0, es, f)
  {
    var s0 := Init(timeout, grace);
    InitKeeps(timeout, grace);
    RunKeepsInv(s0, es);
    LostIff(Run(s0, es), f);
    RunLate(s0, es, f);
    FailedIffGivenUp(timeout, grace, es, f);
    hide Inv, Run, Lost, EverLate, EverHit, EverGivenUp, ValidRun;
  }
}
