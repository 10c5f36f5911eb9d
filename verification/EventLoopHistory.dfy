/** What every step of the system keeps: the fate of every event index, the bell that wakes
    the thread, the cover a snapshot gives, the requests handed to the menu, and the measure
    of the drain loop. */
module EventLoopHistory {
  import opened Vqmbt
  import opened Channel
  import opened ChannelTheorems
  import opened BtEvent
  import opened QmState
  import opened EventLoop

  // ----- Fates partition the indices -----

  /** Entry k starts where the one before it ends and settles at least one index. */
  ghost predicate Fits(log: seq<Entry>, k: int)
    requires 0 <= k < |log|
  {
    && Lo(log[k]) == (if k == 0 then 0 else Hi(log[k - 1]))
    && Lo(log[k]) < Hi(log[k])
    && (log[k].Overrun? ==> Hi(log[k]) - Lo(log[k]) > RING)
  }

  /** The entries cover 0..n without gap or overlap, in order; an overrun costs at least 17. */
  ghost predicate Tiles(log: seq<Entry>, n: int) {
    && (forall k :: 0 <= k < |log| ==> Fits(log, k))
    && n == (if log == [] then 0 else Hi(log[|log| - 1]))
  }

  /** The indices whose fate is settled: all those the read index has passed, but for one
      event taken from the ring and not yet copied out. */
  function Settled(c: Ring): int {
    c.r - if c.reader.Exporting? then 1 else 0
  }

  lemma TilesAppend(log: seq<Entry>, n: int, e: Entry)
    requires Tiles(log, n) && Lo(e) == n && n < Hi(e) && (e.Overrun? ==> Hi(e) - n > RING)
    ensures Tiles(log + [e], Hi(e))
  {
    forall k | 0 <= k < |log + [e]| ensures Fits(log + [e], k) {
      assert k < |log| ==> Fits(log, k);
    }
  }

  lemma ReadKeepsTiles(s: Sys, want: int, c: Choice)
    requires ReaderInv(s.core) && !s.core.reader.Returned? && Tiles(s.log, Settled(s.core))
    ensures var t := ReadOn(false, s, want, c); Tiles(t.log, Settled(t.core))
  {
    var noted := Noted(s.core, c);
    if noted == [] {
      assert s.log + noted == s.log;
    } else {
      assert noted == [noted[0]];
      TilesAppend(s.log, Settled(s.core), noted[0]);
    }
  }

  lemma ActKeepsTiles(s: Sys, a: Action)
    requires BaseInv(s) && Tiles(s.log, Settled(s.core))
    ensures Tiles(Act(false, s, a).log, Settled(Act(false, s, a).core))
  {
    if !a.Thread? {
      ProducerActQuiet(s, a);
    } else if InSyscall(s) {
      ReadKeepsTiles(s, if s.phase.Draining? then 1 else 0, a.c);
    } else {
      ElsewhereQuiet(s, a.c);
    }
  }

  /** Each index below the settled bound lies in exactly one entry. */
  lemma {:induction false} EntryOf(log: seq<Entry>, n: int, i: int) returns (k: nat)
    requires Tiles(log, n) && 0 <= i < n
    ensures k < |log| && Lo(log[k]) <= i < Hi(log[k])
    ensures forall j :: 0 <= j < |log| && Lo(log[j]) <= i < Hi(log[j]) ==> j == k
  {
    var m := |log| - 1;
    assert Fits(log, m);
    if Lo(log[m]) <= i {
      k := m;
      forall j | 0 <= j < m ensures Hi(log[j]) <= Lo(log[m]) {
        EntriesOrdered(log, n, j, m);
      }
    } else {
      forall j | 0 <= j < m ensures Fits(log[..m], j) {
        assert Fits(log, j);
      }
      k := EntryOf(log[..m], Lo(log[m]), i);
    }
  }

  lemma {:induction false} EntriesOrdered(log: seq<Entry>, n: int, j: nat, k: nat)
    requires Tiles(log, n) && j < k < |log|
    ensures Hi(log[j]) <= Lo(log[k])
    decreases k
  {
    assert Fits(log, k);
    if j + 1 < k {
      assert Fits(log, k - 1);
      EntriesOrdered(log, n, j, k - 1);
    }
  }

  lemma EntriesEnd(log: seq<Entry>, n: int, k: nat)
    requires Tiles(log, n) && k < |log|
    ensures Hi(log[k]) <= n
  {
    if k < |log| - 1 {
      EntriesOrdered(log, n, k, |log| - 1);
      assert Fits(log, |log| - 1);
    }
  }

  /** Where entry k begins, or would begin. */
  function StartOf(log: seq<Entry>, n: int, k: nat): int {
    if k < |log| then Lo(log[k]) else n
  }

  // ----- Handled events are what was emitted -----

  ghost predicate LogProven(s: Sys) {
    forall k :: 0 <= k < |s.log| && s.log[k].Handled? ==> Provenance(s.core, s.log[k].at, s.log[k].seen, s.log[k].ev)
  }

  lemma ActGrowsEmitted(s: Sys, a: Action)
    ensures s.core.emitted <= Act(false, s, a).core.emitted
  {
    if a.Thread? {
      ThreadKeepsProducer(s, a.c);
    }
  }

  lemma ActKeepsProvenance(s: Sys, a: Action, from: int, seen: int, got: Event)
    requires ProducerInv(s.core) && Provenance(s.core, from, seen, got)
    ensures Provenance(Act(false, s, a).core, from, seen, got)
  {
    var c, d := s.core, Act(false, s, a).core;
    match a
    case Thread(ch) =>
      ThreadKeepsProducer(s, ch);
      SameProvenance(c, d, from, seen, got);
    case Reading(u) =>
      if c.prod.Resting? && Emission(u) != [] {
        ProducerKeepsProvenance(c, EmitBegin(Emission(u)[0]), from, seen, got);
      }
    case Whole(u, ok) =>
      forall f ensures WordOf(d, from, got, f) || WordOf(d, from + RING, got, f) {
        assert WordOf(c, from, got, f) || WordOf(c, from + RING, got, f);
      }
    case Fill(f) => ProducerKeepsProvenance(c, FillWord(f), from, seen, got);
    case Published => ProducerKeepsProvenance(c, Publish, from, seen, got);
    case Signal(ok) => ProducerKeepsProvenance(c, Notify(ok), from, seen, got);
    case _ =>
  }

  lemma ActKeepsLogProven(s: Sys, a: Action)
    requires BaseInv(s) && LogProven(s)
    ensures LogProven(Act(false, s, a))
  {
    var t := Act(false, s, a);
    LogGrows(s, a);
    forall k | 0 <= k < |t.log| && t.log[k].Handled?
      ensures Provenance(t.core, t.log[k].at, t.log[k].seen, t.log[k].ev)
    {
      if k < |s.log| {
        assert t.log[k] == s.log[k];
      }
      ActKeepsProvenance(s, a, t.log[k].at, t.log[k].seen, t.log[k].ev);
    }
  }

  /** The log grows by what the read syscall's current step settles, if anything. */
  lemma LogGrows(s: Sys, a: Action)
    ensures var t := Act(false, s, a);
            || t.log == s.log
            || (a.Thread? && !s.core.reader.Returned? && (s.phase.Draining? || s.phase.Flushing?)
                && t.log == s.log + Noted(s.core, a.c))
  {
  }

  /** Schedules in which every emit is one uninterrupted step: without a Reading the
      producer never starts one step by step. */
  predicate Atomic(acts: seq<Action>) {
    forall k :: 0 <= k < |acts| ==> AtomicAct(acts[k])
  }

  predicate AtomicAct(a: Action) {
    !a.Reading?
  }

  /** Nothing is half done by the producer, and every event taken is the one emitted. */
  ghost predicate ExactInv(s: Sys) {
    && s.core.prod.Resting?
    && TakenExactly(s.core)
    && forall k :: 0 <= k < |s.log| && s.log[k].Handled? ==>
                     0 <= s.log[k].at < |s.core.emitted| && s.log[k].ev == s.core.emitted[s.log[k].at]
  }

  lemma ReloadIsExact(c: Ring)
    requires Inv(c) && c.prod.Resting?
    ensures c.reader.Copying? && ReaderStep(false, c, Reload).reader.Committing? ==>
              0 <= c.reader.from < |c.emitted| && c.reader.got == c.emitted[c.reader.from]
  {
    if c.reader.Copying? && ReaderStep(false, c, Reload).reader.Committing? {
      var from, got := c.reader.from, c.reader.got;
      forall f ensures SameWord(got, c.emitted[from], f) {
        AllFields(f);
        assert Copied(c, from, got, f);
      }
      SameWordsSameEvent(got, c.emitted[from]);
    }
  }

  lemma ActKeepsExact(s: Sys, a: Action)
    requires BaseInv(s) && ExactInv(s) && AtomicAct(a)
    ensures ExactInv(Act(false, s, a))
  {
    if a.Thread? {
      ThreadKeepsExact(s, a.c);
    } else {
      ActGrowsEmitted(s, a);
      ProducerActQuiet(s, a);
    }
  }

  lemma ThreadKeepsExact(s: Sys, c: Choice)
    requires BaseInv(s) && ExactInv(s)
    ensures ExactInv(ThreadStep(false, s, c))
  {
    if InSyscall(s) {
      ReadKeepsExact(s, if s.phase.Draining? then 1 else 0, c);
    } else {
      ElsewhereQuiet(s, c);
      SameExact(s, ThreadStep(false, s, c));
    }
  }

  lemma SameExact(s: Sys, t: Sys)
    requires ExactInv(s) && t.log == s.log && t.core.prod == s.core.prod && t.core.emitted == s.core.emitted
    requires t.core.reader == s.core.reader || t.core.reader.Away?
    ensures ExactInv(t)
  {
  }

  lemma ReadKeepsExact(s: Sys, want: int, c: Choice)
    requires Inv(s.core) && ExactInv(s) && !s.core.reader.Returned?
    ensures ExactInv(ReadOn(false, s, want, c))
  {
    ReadOnFrame(s, want, c);
    ReaderKeepsTaken(s.core, NextMicro(s.core.reader, want, c));
  }

  /** An event taken from the ring and not yet passed on. */
  predicate TakenExactly(c: Ring) {
    c.reader.Committing? || c.reader.Exporting? ==>
      0 <= c.reader.from < |c.emitted| && c.reader.got == c.emitted[c.reader.from]
  }

  lemma ReaderKeepsTaken(c: Ring, m: Micro)
    requires Inv(c) && c.prod.Resting? && TakenExactly(c)
    ensures TakenExactly(ReaderStep(false, c, m))
  {
    if m.Reload? && c.reader.Copying? {
      ReloadIsExact(c);
    }
  }

  // ----- The bell -----

  predicate Rung(c: Ring) {
    c.flag || c.prod.Notifying?
  }

  /** If the ring holds more than n events have been passed, the thread will be woken. */
  predicate Heard(c: Ring, n: int) {
    |c.emitted| > n ==> Rung(c)
  }

  ghost predicate WakeInv(s: Sys) {
    s.silent == 0 ==>
      match s.phase
      case Waiting(clean) => clean ==> Heard(s.core, s.core.r)
      case Draining => s.core.reader == Returned(Nothing) ==> Heard(s.core, s.core.r)
      case Flushing(_) =>
        && (s.core.reader.Storing? ==> Heard(s.core, s.core.reader.to))
        && (s.core.reader.Returned? ==> Heard(s.core, s.core.r))
      case Snapshotting(next) => next.ToWait? ==> Heard(s.core, s.core.r)
      case Querying(next, _, _) => next.ToWait? ==> Heard(s.core, s.core.r)
      case Stopped => true
  }

  lemma ProducerRings(s: Sys, a: Action, n: int)
    requires !a.Thread? && Heard(s.core, n) && Act(false, s, a).silent == s.silent
    ensures Heard(Act(false, s, a).core, n)
  {
  }

  lemma ReadKeepsWake(s: Sys, want: int, c: Choice)
    requires PhaseInv(s) && WakeInv(s) && s.core.w == |s.core.emitted| && !s.core.reader.Returned?
    requires ReaderInv(s.core)
    requires (s.phase.Draining? && want == 1) || (s.phase.Flushing? && want == 0)
    ensures WakeInv(ReadOn(false, s, want, c))
  {
    ReadOnFrame(s, want, c);
    if s.core.reader.Loading? {
      LoadSeesAll(s.core);
    }
  }

  /** A read that finds nothing has seen every event; a flush is about to pass them all. */
  lemma LoadSeesAll(c: Ring)
    requires ReaderInv(c) && c.reader.Loading?
    ensures var d := ReaderStep(false, c, LoadWrite);
            && d.r == c.r && (d.reader.Returned? ==> d.reader.outcome == Nothing && d.r == d.w)
            && (d.reader.Storing? ==> d.reader.to == d.w)
  {
  }

  lemma ThreadKeepsWake(s: Sys, c: Choice)
    requires BaseInv(s) && WakeInv(s)
    ensures WakeInv(ThreadStep(false, s, c))
  {
    match s.phase
    case Draining =>
      if s.core.reader.Returned? {
        DispatchCore(s);
      } else {
        ReadKeepsWake(s, 1, c);
      }
    case Flushing(_) =>
      if !s.core.reader.Returned? {
        ReadKeepsWake(s, 0, c);
      }
    case _ =>
  }

  lemma ProducerKeepsWake(s: Sys, a: Action)
    requires PhaseInv(s) && WakeInv(s) && !a.Thread? && Act(false, s, a).silent == s.silent
    ensures WakeInv(Act(false, s, a))
  {
    ProducerActKeepsPhase(s, a);
    if Heard(s.core, s.core.r) {
      ProducerRings(s, a, s.core.r);
    }
    if s.core.reader.Storing? && Heard(s.core, s.core.reader.to) {
      ProducerRings(s, a, s.core.reader.to);
    }
  }

  lemma ActKeepsWake(s: Sys, a: Action)
    requires BaseInv(s) && WakeInv(s)
    ensures WakeInv(Act(false, s, a))
  {
    if a.Thread? {
      ThreadKeepsWake(s, a.c);
    } else {
      SilentGrows(s, a);
      if Act(false, s, a).silent == s.silent {
        ProducerKeepsWake(s, a);
      }
    }
  }

  lemma SilentGrows(s: Sys, a: Action)
    requires !a.Thread?
    ensures Act(false, s, a).silent >= s.silent
  {
  }

  // ----- Snapshots cover losses -----

  /** Entries that only a later snapshot can make good: losses, flushes, and the events
      whose handling is a reset. */
  predicate NeedsSnapshot(e: Entry) {
    !e.Handled? || Resets(e.ev.id)
  }

  ghost predicate CoveredBy(log: seq<Entry>, m: int) {
    forall k :: 0 <= k < |log| && NeedsSnapshot(log[k]) ==> Hi(log[k]) <= m
  }

  /** A snapshot that should have made good entry k failed after it was noted. */
  ghost predicate SnapshotFailedAfter(failures: seq<Failure>, k: int) {
    exists noted: nat :: k < noted && SnapshotFailed(noted) in failures
  }

  /** The call whose failure explains that entry k has not been made good. */
  ghost predicate Blamed(failures: seq<Failure>, e: Entry, k: int) {
    if e.CopyLost? then CopyFailed(e.at) in failures else SnapshotFailedAfter(failures, k)
  }

  lemma BlamedGrows(failures: seq<Failure>, more: seq<Failure>, e: Entry, k: int)
    requires Blamed(failures, e, k)
    ensures Blamed(failures + more, e, k)
  {
    if !e.CopyLost? {
      var noted: nat :| k < noted && SnapshotFailed(noted) in failures;
      assert SnapshotFailed(noted) in failures + more;
    }
  }

  /** A failed call did what its failure says. */
  predicate Recorded(log: seq<Entry>, f: Failure) {
    match f
    case CopyFailed(at) => CopyLost(at) in log
    case SnapshotFailed(noted) => noted <= |log|
  }

  /** A reset is under way or about to start. */
  predicate Pending(s: Sys) {
    || s.phase.Flushing? || s.phase.Snapshotting? || s.phase.Querying?
    || (s.phase.Draining? && s.core.reader.Returned?
        && (s.core.reader.outcome.Overflow? || (s.core.reader.outcome.Got? && Resets(s.core.reader.outcome.ev.id))))
  }

  /** The event just returned to fetch_events is the last one noted. */
  ghost predicate JustRead(s: Sys) {
    s.phase.Draining? && s.core.reader.Returned? && s.core.reader.outcome.Got? ==>
      s.log != [] && s.log[|s.log| - 1].Handled? && s.log[|s.log| - 1].ev == s.core.reader.outcome.ev
  }

  /** Entry k needs no snapshot, or a failed call explains why none has made it good, or a
      reset that may yet do so is under way. */
  ghost predicate Explained(s: Sys, k: int)
    requires 0 <= k < |s.log|
  {
    NeedsSnapshot(s.log[k]) && (s.log[k].CopyLost? || !Pending(s)) ==> Blamed(s.failures, s.log[k], k)
  }

  /** Unless a reset is under way, what was noted since the last snapshot applied and not
      handled is explained by a call that failed since, and by nothing else. */
  ghost predicate CoverInv(s: Sys) {
    && s.mark <= |s.core.emitted|
    && s.logBase <= |s.log|
    && (s.phase.Querying? ==> s.phase.mark <= |s.core.emitted|)
    && (forall k :: s.logBase <= k < |s.log| ==> Explained(s, k))
    && (forall f :: f in s.failures ==> Recorded(s.log, f))
  }

  /** Entries noted before the last applied snapshot ended before it began. */
  ghost predicate MarkInv(s: Sys) {
    && s.logBase <= |s.log|
    && (s.phase.Querying? ==> s.core.r <= s.phase.mark)
    && (s.logBase > 0 ==> Hi(s.log[s.logBase - 1]) <= s.mark)
  }

  lemma ActKeepsMark(s: Sys, a: Action)
    requires BaseInv(s) && Tiles(s.log, Settled(s.core)) && MarkInv(s)
    ensures MarkInv(Act(false, s, a))
  {
    if !a.Thread? {
      ProducerActQuiet(s, a);
    } else {
      ThreadKeepsMark(s, a.c);
    }
  }

  lemma ThreadKeepsMark(s: Sys, c: Choice)
    requires BaseInv(s) && Tiles(s.log, Settled(s.core)) && MarkInv(s)
    ensures MarkInv(ThreadStep(false, s, c))
  {
    if InSyscall(s) {
      ReadOnFrame(s, if s.phase.Draining? then 1 else 0, c);
    } else if s.phase.Querying? {
      ConcludedKeepsMark(s, c.table);
    } else {
      ElsewhereKeepsMark(s, c);
    }
  }

  lemma ConcludedKeepsMark(s: Sys, table: Option<Snapshot>)
    requires Tiles(s.log, Settled(s.core)) && MarkInv(s) && s.phase.Querying? && Settled(s.core) <= s.core.r
    ensures MarkInv(Concluded(s, table))
  {
  }

  lemma ElsewhereKeepsMark(s: Sys, c: Choice)
    requires ReaderInv(s.core) && s.core.w == |s.core.emitted| && MarkInv(s) && !InSyscall(s) && !s.phase.Querying?
    ensures MarkInv(ThreadStep(false, s, c))
  {
    match s.phase
    case Draining => DispatchPending(s);
    case Waiting(_) => AwakenedQuiet(s, c.wake);
    case _ =>
  }

  lemma ActKeepsJustRead(s: Sys, a: Action)
    requires PhaseInv(s) && JustRead(s)
    ensures JustRead(Act(false, s, a))
  {
    if !a.Thread? {
      ProducerActQuiet(s, a);
    } else if InSyscall(s) {
      ReadKeepsJustRead(s, if s.phase.Draining? then 1 else 0, a.c);
    } else {
      ElsewhereQuiet(s, a.c);
    }
  }

  lemma ReadKeepsJustRead(s: Sys, want: int, c: Choice)
    requires PhaseInv(s) && InSyscall(s)
    ensures JustRead(ReadOn(false, s, want, c))
  {
    ReadOnFrame(s, want, c);
  }

  /** The producer and the user's presses leave the reader and its history alone. */
  lemma ProducerActQuiet(s: Sys, a: Action)
    requires !a.Thread?
    ensures var t := Act(false, s, a);
            && t.log == s.log && t.mark == s.mark && t.base == s.base && t.logBase == s.logBase && t.failures == s.failures
            && t.core.reader == s.core.reader && t.core.r == s.core.r
            && t.drainFrom == s.drainFrom && t.drainW == s.drainW && t.iters == s.iters
            && |s.core.emitted| <= |t.core.emitted|
            && (t.phase == s.phase || (s.phase.Stopped? && t.phase.Flushing?))
            && (t.requests == s.requests || exists req: Req :: req.ButtonPressed? && t.requests == s.requests + [req])
  {
  }

  lemma ActKeepsCover(s: Sys, a: Action)
    requires BaseInv(s) && CoverInv(s) && JustRead(s)
    ensures CoverInv(Act(false, s, a))
  {
    if a.Thread? {
      ThreadKeepsCover(s, a.c);
    } else {
      ProducerActQuiet(s, a);
      forall k | s.logBase <= k < |s.log| ensures Explained(Act(false, s, a), k) {
        assert Explained(s, k);
      }
    }
  }

  lemma ThreadKeepsCover(s: Sys, c: Choice)
    requires BaseInv(s) && CoverInv(s) && JustRead(s)
    ensures CoverInv(ThreadStep(false, s, c))
  {
    match s.phase
    case Draining =>
      if s.core.reader.Returned? {
        DispatchKeepsCover(s);
      } else {
        ReadKeepsCover(s, 1, c);
      }
    case Flushing(_) =>
      if s.core.reader.Returned? {
        QuietKeepsCover(s, ThreadStep(false, s, c));
      } else {
        ReadKeepsCover(s, 0, c);
      }
    case Querying(_, _, _) => ConcludedKeepsCover(s, c.table);
    case Waiting(_) =>
      AwakenedQuiet(s, c.wake);
      QuietKeepsCover(s, ThreadStep(false, s, c));
    case _ => QuietKeepsCover(s, ThreadStep(false, s, c));
  }

  lemma AwakenedQuiet(s: Sys, wake: Wake)
    requires s.phase.Waiting?
    ensures var t := Awakened(s, wake);
            && t == s.(phase := t.phase, core := s.core.(flag := t.core.flag),
                       drainFrom := t.drainFrom, drainW := t.drainW, iters := t.iters)
            && (t.phase.Draining? || t.phase.Stopped? || t.phase == s.phase)
  {
  }

  /** Steps that note nothing, and end a reset only if it was under way. */
  lemma QuietKeepsCover(s: Sys, t: Sys)
    requires CoverInv(s) && t.core.emitted == s.core.emitted && t.mark == s.mark && t.logBase == s.logBase
    requires t.log == s.log && t.failures == s.failures && (Pending(s) ==> Pending(t))
    requires t.phase.Querying? ==> t.phase.mark <= |t.core.emitted|
    ensures CoverInv(t)
  {
    forall k | t.logBase <= k < |t.log| ensures Explained(t, k) {
      assert Explained(s, k);
    }
  }

  lemma DispatchKeepsCover(s: Sys)
    requires CoverInv(s) && s.phase.Draining? && s.core.reader.Returned?
    ensures CoverInv(Dispatch(s))
  {
    DispatchCore(s);
    DispatchPending(s);
    QuietKeepsCover(s, Dispatch(s));
  }

  lemma DispatchPending(s: Sys)
    requires s.phase.Draining? && s.core.reader.Returned?
    ensures var t := Dispatch(s);
            && t == s.(phase := t.phase, core := t.core, iters := t.iters, requests := t.requests)
            && !t.phase.Querying? && (Pending(t) <==> Pending(s))
  {
  }

  lemma ConcludedKeepsCover(s: Sys, table: Option<Snapshot>)
    requires CoverInv(s) && s.phase.Querying?
    ensures CoverInv(Concluded(s, table))
  {
    var t := Concluded(s, table);
    if table.None? {
      assert SnapshotFailed(|s.log|) in t.failures;
      forall k | t.logBase <= k < |t.log| ensures Explained(t, k) {
        assert Explained(s, k);
        if s.log[k].CopyLost? {
          BlamedGrows(s.failures, [SnapshotFailed(|s.log|)], s.log[k], k);
        } else {
          assert SnapshotFailedAfter(t.failures, k);
        }
      }
    }
  }

  lemma ReadKeepsCover(s: Sys, want: int, c: Choice)
    requires CoverInv(s) && PhaseInv(s) && !s.core.reader.Returned? && (s.phase.Draining? || s.phase.Flushing?)
    ensures CoverInv(ReadOn(false, s, want, c))
  {
    var t := ReadOn(false, s, want, c);
    ReadOnFrame(s, want, c);
    ReadPending(s, want, c);
    forall k | t.logBase <= k < |t.log| ensures Explained(t, k) {
      if k < |s.log| {
        assert Explained(s, k) && t.log[k] == s.log[k];
        if Blamed(s.failures, s.log[k], k) {
          BlamedGrows(s.failures, Failing(s.core, c), s.log[k], k);
        }
      } else {
        NotedExplained(s, want, c);
      }
    }
    forall f | f in t.failures ensures Recorded(t.log, f) {
      if f in s.failures {
        RecordedGrows(s.log, Noted(s.core, c), f);
      } else {
        assert f in Failing(s.core, c);
      }
    }
  }

  lemma RecordedGrows(log: seq<Entry>, more: seq<Entry>, f: Failure)
    requires Recorded(log, f)
    ensures Recorded(log + more, f)
  {
  }

  lemma ReadPending(s: Sys, want: int, c: Choice)
    requires !s.core.reader.Returned? && (s.phase.Draining? || s.phase.Flushing?)
    ensures Pending(s) ==> Pending(ReadOn(false, s, want, c))
  {
    ReadOnFrame(s, want, c);
  }

  /** What a read notes itself either starts a reset, or is handled, or is a failed copy. */
  lemma NotedExplained(s: Sys, want: int, c: Choice)
    requires PhaseInv(s) && !s.core.reader.Returned? && (s.phase.Draining? || s.phase.Flushing?)
    requires Noted(s.core, c) != []
    ensures Explained(ReadOn(false, s, want, c), |s.log|)
  {
    var t := ReadOn(false, s, want, c);
    ReadOnFrame(s, want, c);
    assert t.log[|s.log|] == Noted(s.core, c)[0];
    match s.core.reader
    case Exporting(from, _, _) =>
      if !c.copyOk {
        assert CopyFailed(from) in t.failures;
      }
    case _ =>
  }

  // ----- The requests handed to the menu -----

  function HandledRequests(log: seq<Entry>): seq<Req> {
    if log == [] then []
    else
      var last := log[|log| - 1];
      HandledRequests(log[..|log| - 1]) + if last.Handled? then RequestOf(last.ev) else []
  }

  function NotPresses(reqs: seq<Req>): seq<Req> {
    if reqs == [] then []
    else
      var last := reqs[|reqs| - 1];
      NotPresses(reqs[..|reqs| - 1]) + if last.ButtonPressed? then [] else [last]
  }

  /** The entries fetch_events has dispatched. */
  function Dispatched(s: Sys): int {
    |s.log| - if s.phase.Draining? && s.core.reader.Returned? && s.core.reader.outcome.Got? then 1 else 0
  }

  /** What the menu was given from position `base` on, presses aside, is what the entries
      from `from` to `upto` ask for. */
  ghost predicate TailMatches(requests: seq<Req>, base: nat, log: seq<Entry>, from: nat, upto: int) {
    && base <= |requests|
    && from <= upto <= |log|
    && NotPresses(requests[base..]) == HandledRequests(log[from..upto])
  }

  lemma TailLogGrows(requests: seq<Req>, base: nat, log: seq<Entry>, from: nat, e: Entry)
    requires TailMatches(requests, base, log, from, |log|)
    ensures TailMatches(requests, base, log + [e], from, |log|)
    ensures !e.Handled? ==> TailMatches(requests, base, log + [e], from, |log| + 1)
  {
    assert (log + [e])[from..|log|] == log[from..|log|];
    assert (log + [e])[from..|log| + 1] == log[from..|log|] + [e];
    HandledAppend(log[from..|log|], e);
  }

  lemma TailDispatch(requests: seq<Req>, base: nat, log: seq<Entry>, from: nat)
    requires log != [] && TailMatches(requests, base, log, from, |log| - 1) && log[|log| - 1].Handled?
    ensures TailMatches(requests + RequestOf(log[|log| - 1].ev), base, log, from, |log|)
  {
    var last := log[|log| - 1];
    assert log[from..|log|] == log[from..|log| - 1] + [last];
    HandledAppend(log[from..|log| - 1], last);
    TailRequests(requests, base, RequestOf(last.ev));
  }

  lemma TailRequests(requests: seq<Req>, base: nat, more: seq<Req>)
    requires base <= |requests| && |more| <= 1
    ensures NotPresses((requests + more)[base..]) == NotPresses(requests[base..]) + NotPresses(more)
    ensures |more| == 1 && more[0].ButtonPressed? ==> NotPresses((requests + more)[base..]) == NotPresses(requests[base..])
    ensures |more| == 1 && !more[0].ButtonPressed? ==> NotPresses(more) == more
  {
    assert (requests + more)[base..] == requests[base..] + more;
    NotPressesAppend(requests[base..], more);
  }

  /** Since the last snapshot the menu has been given that snapshot, then exactly the
      requests of the events handled since, in order, with the user's presses in between. */
  ghost predicate RequestInv(s: Sys) {
    && TailMatches(s.requests, s.base, s.log, s.logBase, Dispatched(s))
    && (s.base > 0 ==> s.requests[s.base - 1].BulkUpdate?)
    && (s.base == 0 ==> s.logBase == 0)
  }

  lemma NotPressesAppend(reqs: seq<Req>, more: seq<Req>)
    requires |more| <= 1
    ensures NotPresses(reqs + more) == NotPresses(reqs) + NotPresses(more)
    ensures |more| == 1 ==> NotPresses(more) == if more[0].ButtonPressed? then [] else more
  {
    if |more| == 1 {
      assert (reqs + more)[..|reqs|] == reqs;
      assert more[..0] == [] && more == [more[0]];
    } else {
      assert reqs + more == reqs;
    }
  }

  lemma HandledAppend(log: seq<Entry>, e: Entry)
    ensures HandledRequests(log + [e]) == HandledRequests(log) + if e.Handled? then RequestOf(e.ev) else []
  {
    assert (log + [e])[..|log|] == log;
  }

  lemma ReadKeepsRequests(s: Sys, c: Choice)
    requires PhaseInv(s) && RequestInv(s) && (s.phase.Draining? || s.phase.Flushing?) && !s.core.reader.Returned?
    ensures RequestInv(ThreadStep(false, s, c))
  {
    var t := ThreadStep(false, s, c);
    ReadNotes(s, c);
    if t.log != s.log {
      TailLogGrows(s.requests, s.base, s.log, s.logBase, t.log[|s.log|]);
    }
  }

  lemma ReadNotes(s: Sys, c: Choice)
    requires PhaseInv(s) && (s.phase.Draining? || s.phase.Flushing?) && !s.core.reader.Returned?
    ensures var t := ThreadStep(false, s, c);
            && t.requests == s.requests && t.base == s.base && t.logBase == s.logBase && Dispatched(s) == |s.log|
            && (t.log == s.log || (|t.log| == |s.log| + 1 && t.log == s.log + [t.log[|s.log|]]))
            && (t.log == s.log ==> Dispatched(t) == |s.log|)
            && (t.log != s.log ==> Dispatched(t) == if t.log[|s.log|].Handled? then |s.log| else |s.log| + 1)
  {
    var t := ThreadStep(false, s, c);
    var noted := Noted(s.core, c);
    if noted == [] {
      assert s.log + noted == s.log;
    } else {
      assert noted == [noted[0]];
    }
  }

  lemma DispatchNotes(s: Sys)
    requires s.phase.Draining? && s.core.reader.Returned?
    ensures var t := Dispatch(s);
            && t.log == s.log && t.base == s.base && t.logBase == s.logBase && Dispatched(t) == |s.log|
            && (s.core.reader.outcome.Got? ==>
                  Dispatched(s) == |s.log| - 1 && t.requests == s.requests + RequestOf(s.core.reader.outcome.ev))
            && (!s.core.reader.outcome.Got? ==> Dispatched(s) == |s.log| && t.requests == s.requests)
  {
    if s.core.reader.outcome.Got? && Resets(s.core.reader.outcome.ev.id) {
      assert s.requests + RequestOf(s.core.reader.outcome.ev) == s.requests;
    }
  }

  lemma DispatchKeepsRequests(s: Sys)
    requires JustRead(s) && RequestInv(s) && s.phase.Draining? && s.core.reader.Returned?
    ensures RequestInv(Dispatch(s))
  {
    DispatchNotes(s);
    if s.core.reader.outcome.Got? {
      TailDispatch(s.requests, s.base, s.log, s.logBase);
    }
  }

  lemma PressKeepsRequests(s: Sys, req: Req)
    requires RequestInv(s) && req.ButtonPressed?
    ensures RequestInv(s.(requests := s.requests + [req]))
  {
    TailRequests(s.requests, s.base, [req]);
  }

  lemma SnapshotKeepsRequests(s: Sys, c: Choice)
    requires PhaseInv(s) && RequestInv(s) && s.phase.Querying?
    ensures RequestInv(ThreadStep(false, s, c))
  {
    var t := ThreadStep(false, s, c);
    if c.table.Some? {
      assert t.requests[t.base..] == [] && t.log[t.logBase..|t.log|] == [];
    }
  }

  lemma OthersKeepRequests(s: Sys, a: Action)
    requires RequestInv(s) && !a.Thread?
    ensures RequestInv(Act(false, s, a))
  {
    if a.Press? {
      if a.req.ButtonPressed? {
        PressKeepsRequests(s, a.req);
      }
    } else {
      ProducerAsksNothing(s, a);
      SameRequests(s, Act(false, s, a));
    }
  }

  lemma ProducerAsksNothing(s: Sys, a: Action)
    requires !a.Thread? && !a.Press?
    ensures var t := Act(false, s, a);
            && t.requests == s.requests && t.log == s.log && t.base == s.base && t.logBase == s.logBase
            && Dispatched(t) == Dispatched(s)
  {
    ProducerActQuiet(s, a);
  }

  lemma SameRequests(s: Sys, t: Sys)
    requires RequestInv(s) && t.requests == s.requests && t.log == s.log && t.base == s.base && t.logBase == s.logBase
    requires Dispatched(t) == Dispatched(s)
    ensures RequestInv(t)
  {
  }

  lemma ElsewhereKeepsRequests(s: Sys, c: Choice)
    requires PhaseInv(s) && RequestInv(s)
    requires s.phase.Stopped? || s.phase.Waiting? || s.phase.Snapshotting? || (s.phase.Flushing? && s.core.reader.Returned?)
    ensures RequestInv(ThreadStep(false, s, c))
  {
    var t := ThreadStep(false, s, c);
    assert t.log == s.log && t.requests == s.requests && t.base == s.base && t.logBase == s.logBase;
    assert Dispatched(t) == |s.log| == Dispatched(s);
  }

  lemma ActKeepsRequests(s: Sys, a: Action)
    requires PhaseInv(s) && JustRead(s) && RequestInv(s)
    ensures RequestInv(Act(false, s, a))
  {
    if !a.Thread? {
      OthersKeepRequests(s, a);
    } else if (s.phase.Draining? || s.phase.Flushing?) && !s.core.reader.Returned? {
      ReadKeepsRequests(s, a.c);
    } else if s.phase.Draining? {
      DispatchKeepsRequests(s);
      assert Act(false, s, a) == Dispatch(s);
    } else if s.phase.Querying? {
      SnapshotKeepsRequests(s, a.c);
    } else {
      ElsewhereKeepsRequests(s, a.c);
    }
  }

  /** Unless the call that failed is on record, the thread is past its first reset only after
      a snapshot was applied. */
  ghost predicate SnapshotInv(s: Sys) {
    s.failures == [] && s.base == 0 ==>
      match s.phase
      case Stopped => true
      case Flushing(next) => next.ToWait?
      case Snapshotting(next) => next.ToWait?
      case Querying(next, _, _) => next.ToWait?
      case _ => false
  }

  lemma ActKeepsSnapshot(s: Sys, a: Action)
    requires SnapshotInv(s)
    ensures SnapshotInv(Act(false, s, a))
  {
    if !a.Thread? {
      ProducerActQuiet(s, a);
    }
  }

  // ----- The drain loop makes progress -----

  predicate InDrain(p: Phase) {
    p.Draining? || (p.Flushing? && p.next.ToDrain?) || (p.Snapshotting? && p.next.ToDrain?) || (p.Querying? && p.next.ToDrain?)
  }

  /** Whether the current iteration has already raised the read index. */
  function Raised(s: Sys): int {
    if s.phase.Draining?
       && (s.core.reader.Exporting?
           || (s.core.reader.Returned? && (s.core.reader.outcome.Got? || s.core.reader.outcome.Overflow?)))
    then 1 else 0
  }

  /** Every iteration that went round the loop has raised the read index. */
  ghost predicate DrainInv(s: Sys) {
    && s.drainFrom <= s.drainW <= |s.core.emitted|
    && (InDrain(s.phase) ==> s.iters + Raised(s) <= s.core.r - s.drainFrom)
  }

  lemma ActKeepsDrain(s: Sys, a: Action)
    requires BaseInv(s) && DrainInv(s)
    ensures DrainInv(Act(false, s, a))
  {
    if !a.Thread? {
      ProducerActQuiet(s, a);
    } else {
      ThreadKeepsDrain(s, a.c);
    }
  }

  lemma ThreadKeepsDrain(s: Sys, c: Choice)
    requires PhaseInv(s) && ReaderInv(s.core) && s.core.w == |s.core.emitted| && DrainInv(s)
    ensures DrainInv(ThreadStep(false, s, c))
  {
    match s.phase
    case Draining =>
      if s.core.reader.Returned? {
        DispatchKeepsDrain(s);
      } else {
        ReadKeepsDrain(s, c);
      }
    case Flushing(_) =>
      if !s.core.reader.Returned? {
        ReadOnFrame(s, 0, c);
        ReaderRises(s.core, NextMicro(s.core.reader, 0, c));
      }
    case _ =>
  }

  lemma DispatchKeepsDrain(s: Sys)
    requires DrainInv(s) && s.phase.Draining? && s.core.reader.Returned?
    ensures DrainInv(Dispatch(s))
  {
  }

  lemma ReadKeepsDrain(s: Sys, c: Choice)
    requires PhaseInv(s) && ReaderInv(s.core) && DrainInv(s) && s.phase.Draining? && !s.core.reader.Returned?
    ensures DrainInv(ReadOn(false, s, 1, c))
  {
    ReadOnFrame(s, 1, c);
    ReaderRaises(s.core, NextMicro(s.core.reader, 1, c));
  }

  lemma ReaderRises(c: Ring, m: Micro)
    requires ReaderInv(c)
    ensures c.r <= ReaderStep(false, c, m).r
  {
  }

  /** Taking an event and storing an overrun are the steps that raise the read index. */
  lemma ReaderRaises(c: Ring, m: Micro)
    requires ReaderInv(c) && !c.reader.Returned?
    requires c.reader.Storing? ==> c.reader.result == Overflow
    ensures var d := ReaderStep(false, c, m);
            && c.r <= d.r
            && (d.reader.Exporting? || (d.reader.Returned? && (d.reader.outcome.Got? || d.reader.outcome.Overflow?)) ==>
                  c.r < d.r || c.reader.Exporting?)
  {
  }

  /** The read index never falls. */
  lemma ReadIndexRises(s: Sys, c: Choice)
    requires ReaderInv(s.core)
    ensures s.core.r <= ThreadStep(false, s, c).core.r
  {
    match s.phase
    case Draining =>
      if s.core.reader.Returned? {
        DispatchCore(s);
      } else {
        ReaderRises(s.core, NextMicro(s.core.reader, 1, c));
      }
    case Flushing(_) => ReaderRises(s.core, NextMicro(s.core.reader, 0, c));
    case _ =>
  }

  // ----- All together -----

  ghost predicate SysInv(s: Sys) {
    && BaseInv(s) && Tiles(s.log, Settled(s.core)) && LogProven(s) && WakeInv(s)
    && JustRead(s) && CoverInv(s) && MarkInv(s) && RequestInv(s) && SnapshotInv(s) && DrainInv(s)
  }

  lemma ActKeepsSysInv(s: Sys, a: Action)
    requires SysInv(s)
    ensures SysInv(Act(false, s, a))
  {
    ActKeepsBase(s, a);
    ActKeepsTiles(s, a);
    ActKeepsLogProven(s, a);
    ActKeepsWake(s, a);
    ActKeepsJustRead(s, a);
    ActKeepsCover(s, a);
    ActKeepsMark(s, a);
    ActKeepsRequests(s, a);
    ActKeepsSnapshot(s, a);
    ActKeepsDrain(s, a);
  }

  lemma SystemBootInv()
    ensures SysInv(SystemBoot())
  {
    BootInv();
  }

  lemma {:induction false} RunKeepsSysInv(acts: seq<Action>)
    ensures SysInv(State(acts))
  {
    if acts == [] {
      SystemBootInv();
    } else {
      RunKeepsSysInv(acts[..|acts| - 1]);
      ActKeepsSysInv(State(acts[..|acts| - 1]), acts[|acts| - 1]);
    }
  }

  /** The invariants one by one, for schedules from boot. */
  lemma AlwaysTiles(acts: seq<Action>)
    ensures Tiles(State(acts).log, Settled(State(acts).core))
    ensures 0 <= Settled(State(acts).core) <= State(acts).core.r <= State(acts).core.w == |State(acts).core.emitted|
  {
    RunKeepsSysInv(acts);
  }

  lemma AlwaysCovered(acts: seq<Action>)
    ensures CoverInv(State(acts)) && MarkInv(State(acts)) && SnapshotInv(State(acts))
  {
    RunKeepsSysInv(acts);
  }

  lemma AlwaysProven(acts: seq<Action>)
    ensures LogProven(State(acts))
  {
    RunKeepsSysInv(acts);
  }

  lemma AlwaysTold(acts: seq<Action>)
    ensures RequestInv(State(acts)) && PhaseInv(State(acts)) && InFlight(State(acts))
  {
    RunKeepsSysInv(acts);
  }

  lemma {:induction false} RunKeepsExact(acts: seq<Action>)
    requires Atomic(acts)
    ensures ExactInv(State(acts))
  {
    if acts != [] {
      RunKeepsExact(acts[..|acts| - 1]);
      RunKeepsBase(acts[..|acts| - 1]);
      ActKeepsExact(State(acts[..|acts| - 1]), acts[|acts| - 1]);
    }
  }
}
