/** The stages of a station's or an interface's entry, and of the senders that have seen it. */
module TxStatusEntries {
  import opened TxStatus

  /** A scan touches frames, their table and the list of entries alone. */
  lemma {:induction false} ScanKeepsEntries(s: State, w: nat, pid: nat, flush: bool, now: nat)
    ensures var s' := ScanFrom(s, w, pid, flush, now);
            && s'.published == s.published && s'.adding == s.adding
            && s'.flushed == s.flushed && s'.destroyed == s.destroyed
    decreases PID_MASK - pid
  {
    if pid < PID_MASK {
      ScanKeepsEntries(if Expires(s, w, pid, flush, now) then TakeEntry(s, w, pid, true) else s, w, pid + 1, flush, now);
    }
  }

  lemma ScanStaleKeeps(s: State, w: nat, flush: bool, now: nat)
    ensures var s' := ScanStale(s, w, flush, now);
            && s'.published == s.published && s'.adding == s.adding
            && s'.flushed == s.flushed && s'.destroyed == s.destroyed
  {
    ScanKeepsEntries(s, w, PID_FIRST, flush, now);
    hide ScanFrom, HasEntries;
  }

  lemma ReportsKeep(s: State, e: Event)
    requires e.Txs? || e.Stale? || e.DmaDone? || e.Skip?
    ensures var s' := Step(s, e);
            && s'.published == s.published && s'.adding == s.adding
            && s'.flushed == s.flushed && s'.destroyed == s.destroyed
  {
    match e
    case Stale(v, flush, now) =>
      ScanStaleKeeps(s, v, flush, now);
      hide ScanStale;
    case Txs(v, pid, now) =>
      ScanStaleKeeps(s, v, false, now);
      hide ScanStale, HasEntries, Finished;
    case _ =>
    hide ScanStale, TxsStep;
  }

  /** A sender that has seen the pointer of `w` is still registering its frame. */
  ghost predicate StillAdding(s: State, w: nat) {
    exists f :: f in s.adding && s.adding[f] == w
  }

  lemma FlushStage(s: State, w: nat)
    ensures var s' := Step(s, CleanupFlush(w));
            var now := w !in s.published && w !in s.flushed && w !in s.destroyed && (w in s.grace ==> !StillAdding(s, w));
            && s'.published == s.published && s'.adding == s.adding && s'.destroyed == s.destroyed
            && s'.flushed == if now then s.flushed + {w} else s.flushed
  {
    ScanStaleKeeps(s, w, true, 0);
    assert MustWait(s, w) <==> w in s.grace && StillAdding(s, w);
    hide ScanStale, MustWait, StillAdding;
  }

  /** An entry is published until its pointer is withdrawn, and never again once its cleanup has begun; it is flushed
      once, after that and, where the cleanup waits for a grace period, after the last sender that saw the pointer;
      and then destroyed for good. */
  lemma EntryChanges(s: State, e: Event, w: nat)
    ensures var s' := Step(s, e);
            && (w in s'.published <==> (w in s.published && e != Unpublish(w))
                                       || (e == Publish(w) && w !in s.flushed && w !in s.destroyed))
            && (w in s'.flushed <==> (w in s.flushed && e != CleanupDestroy(w))
                                     || (e == CleanupFlush(w) && w !in s.published && w !in s.destroyed
                                         && (w in s.grace ==> !StillAdding(s, w))))
            && (w in s'.destroyed <==> w in s.destroyed || (e == CleanupDestroy(w) && w in s.flushed))
  {
    if e.CleanupFlush? {
      FlushStage(s, e.w);
      hide *;
    } else if e.Txs? || e.Stale? || e.DmaDone? || e.Skip? {
      ReportsKeep(s, e);
      hide *;
    } else {
      hide ScanStale, TxsStep, StillAdding;
    }
  }

  /** A sender registers a new frame with an entry it has seen published, even if the pointer is withdrawn meanwhile. */
  lemma SenderChanges(s: State, e: Event, f: nat, w: nat)
    ensures var s' := Step(s, e);
            (f in s'.adding && s'.adding[f] == w) <==>
              || (f in s.adding && s.adding[f] == w && !(e.Insert? && e.f == f))
              || (e == Check(w, f) && w in s.published && f !in s.adding && f !in s.frames)
  {
    if e.CleanupFlush? {
      FlushStage(s, e.w);
      hide *;
    } else if e.Txs? || e.Stale? || e.DmaDone? || e.Skip? {
      ReportsKeep(s, e);
      hide *;
    } else {
      hide ScanStale, TxsStep, MustWait;
    }
  }
}
