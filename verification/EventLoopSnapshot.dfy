/** Where the last snapshot came from: which step of the run read the write index for its flush,
    which asked whether Bluetooth is on, and which got the table, with what answers. */
module EventLoopSnapshot {
  import opened Vqmbt
  import opened Channel
  import opened QmState
  import opened EventLoop
  import opened EventLoopHistory

  /** Step f reads the write index for a flush, n events having been emitted. */
  ghost predicate FlushedAt(acts: seq<Action>, f: int, n: int) {
    && 0 <= f < |acts| && acts[f].Thread?
    && State(acts[..f]).phase.Flushing? && State(acts[..f]).core.reader.Loading?
    && |State(acts[..f]).core.emitted| == n
  }

  /** Step i begins a snapshot, n events having been emitted, and learns whether Bluetooth is on. */
  ghost predicate AskedAt(acts: seq<Action>, i: int, n: int, on: bool) {
    && 0 <= i < |acts| && acts[i].Thread?
    && State(acts[..i]).phase.Snapshotting? && |State(acts[..i]).core.emitted| == n
    && acts[i].c.on == on
  }

  /** Step j gets this table. */
  ghost predicate AnsweredAt(acts: seq<Action>, j: int, devices: Snapshot) {
    && 0 <= j < |acts| && acts[j].Thread?
    && State(acts[..j]).phase.Querying? && acts[j].c.table == Some(devices)
  }

  predicate Applies(s: Sys, a: Action) {
    a.Thread? && s.phase.Querying? && a.c.table.Some?
  }

  ghost predicate NoneAppliedAfter(acts: seq<Action>, j: int) {
    forall k :: j < k < |acts| ==> !AppliedAt(acts, k)
  }

  ghost predicate AppliedAt(acts: seq<Action>, k: int) {
    0 <= k < |acts| && Applies(State(acts[..k]), acts[k])
  }

  /** The steps of one snapshot and what they were answered. */
  datatype Taken = Taken(flush: nat, ask: nat, answer: nat, on: bool, devices: Snapshot)

  /** The last snapshot applied, step by step: its flush passed exactly the events emitted when it
      read the write index, nothing older is told to the menu after it, and the bulk update it
      made is what the stack answered. */
  ghost predicate LastReset(acts: seq<Action>, t: Taken) {
    var s := State(acts);
    && t.flush < t.ask < t.answer < |acts|
    && FlushedAt(acts, t.flush, StartOf(s.log, Settled(s.core), s.logBase))
    && AskedAt(acts, t.ask, s.mark, t.on)
    && AnsweredAt(acts, t.answer, t.devices)
    && NoneAppliedAfter(acts, t.answer)
    && 0 < s.base <= |s.requests|
    && s.base == |State(acts[..t.answer]).requests| + 1
    && s.requests[s.base - 1] == BulkUpdate(t.on, |t.devices|, t.devices)
  }

  lemma Longer(rest: seq<Action>, a: Action, k: nat)
    requires k <= |rest|
    ensures (rest + [a])[..k] == rest[..k]
    ensures k < |rest| ==> (rest + [a])[k] == rest[k]
  {
  }

  lemma FlushedLonger(rest: seq<Action>, a: Action, f: int, n: int)
    requires FlushedAt(rest, f, n)
    ensures FlushedAt(rest + [a], f, n)
  {
    Longer(rest, a, f);
  }

  lemma AskedLonger(rest: seq<Action>, a: Action, i: int, n: int, on: bool)
    requires AskedAt(rest, i, n, on)
    ensures AskedAt(rest + [a], i, n, on)
  {
    Longer(rest, a, i);
  }

  lemma AnsweredLonger(rest: seq<Action>, a: Action, j: int, devices: Snapshot)
    requires AnsweredAt(rest, j, devices)
    ensures AnsweredAt(rest + [a], j, devices)
  {
    Longer(rest, a, j);
  }

  lemma OneMoreState(rest: seq<Action>, a: Action)
    ensures State(rest + [a]) == Act(false, State(rest), a)
  {
    assert (rest + [a])[..|rest|] == rest;
  }

  // ----- The flush -----

  /** A reset has read the write index for its flush and not yet got its snapshot. */
  predicate Flushed(s: Sys) {
    || (s.phase.Flushing? && (s.core.reader.Storing? || s.core.reader.Returned?))
    || s.phase.Snapshotting? || s.phase.Querying?
  }

  /** The index the flush passes everything below. */
  function FlushedTo(s: Sys): int {
    if s.phase.Flushing? && s.core.reader.Storing? then s.core.reader.to else s.core.r
  }

  lemma FlushBegins(s: Sys, a: Action)
    requires BaseInv(s) && Flushed(Act(false, s, a))
    ensures var t := Act(false, s, a);
            if Flushed(s) then FlushedTo(t) == FlushedTo(s)
            else a.Thread? && s.phase.Flushing? && s.core.reader.Loading? && FlushedTo(t) == |s.core.emitted|
  {
    if a.Thread? {
      ThreadFlushes(s, a.c);
    } else {
      ProducerActQuiet(s, a);
    }
  }

  lemma ThreadFlushes(s: Sys, c: Choice)
    requires PhaseInv(s) && ReaderInv(s.core) && s.core.w == |s.core.emitted| && Flushed(ThreadStep(false, s, c))
    ensures var t := ThreadStep(false, s, c);
            if Flushed(s) then FlushedTo(t) == FlushedTo(s)
            else s.phase.Flushing? && s.core.reader.Loading? && FlushedTo(t) == |s.core.emitted|
  {
    match s.phase
    case Flushing(_) => if !s.core.reader.Returned? { ReadOnFrame(s, 0, c); }
    case Draining => if s.core.reader.Returned? { DispatchPending(s); }
    case Waiting(_) => AwakenedQuiet(s, c.wake);
    case _ =>
  }

  lemma {:induction false} FlushStory(acts: seq<Action>) returns (f: nat)
    requires Flushed(State(acts))
    ensures FlushedAt(acts, f, FlushedTo(State(acts)))
  {
    var rest, a := acts[..|acts| - 1], acts[|acts| - 1];
    assert rest + [a] == acts;
    RunKeepsBase(rest);
    FlushBegins(State(rest), a);
    if Flushed(State(rest)) {
      f := FlushStory(rest);
      FlushedLonger(rest, a, f, FlushedTo(State(rest)));
    } else {
      f := |rest|;
    }
  }

  // ----- The questions -----

  lemma AskBegins(s: Sys, a: Action)
    requires Act(false, s, a).phase.Querying?
    ensures var t := Act(false, s, a);
            && Flushed(s) && t.core.r == s.core.r
            && (s.phase.Querying? ==> t.phase == s.phase)
            && (!s.phase.Querying? ==>
                  a.Thread? && s.phase.Snapshotting? && t.phase.mark == |s.core.emitted| && t.phase.on == a.c.on)
  {
    if a.Thread? {
      match s.phase
      case Draining => if s.core.reader.Returned? { DispatchPending(s); }
      case Waiting(_) => AwakenedQuiet(s, a.c.wake);
      case _ =>
    } else {
      ProducerActQuiet(s, a);
    }
  }

  lemma {:induction false} AskStory(acts: seq<Action>) returns (f: nat, i: nat)
    requires State(acts).phase.Querying?
    ensures f < i && FlushedAt(acts, f, State(acts).core.r)
    ensures AskedAt(acts, i, State(acts).phase.mark, State(acts).phase.on)
  {
    var rest, a := acts[..|acts| - 1], acts[|acts| - 1];
    assert rest + [a] == acts;
    AskBegins(State(rest), a);
    if State(rest).phase.Querying? {
      f, i := AskStory(rest);
      AskedLonger(rest, a, i, State(rest).phase.mark, State(rest).phase.on);
    } else {
      f := FlushStory(rest);
      i := |rest|;
    }
    FlushedLonger(rest, a, f, State(rest).core.r);
  }

  // ----- The answer -----

  /** A step that applies no snapshot leaves the last one, and where the entries since begin. */
  lemma NotApplied(s: Sys, a: Action)
    requires !Applies(s, a) && Tiles(s.log, Settled(s.core)) && s.logBase <= |s.log| && s.base <= |s.requests|
    requires Tiles(Act(false, s, a).log, Settled(Act(false, s, a).core))
    ensures var t := Act(false, s, a);
            && t.base == s.base && t.mark == s.mark && s.requests <= t.requests
            && StartOf(t.log, Settled(t.core), t.logBase) == StartOf(s.log, Settled(s.core), s.logBase)
  {
    LogGrows(s, a);
    NotAppliedQuiet(s, a);
    var t := Act(false, s, a);
    if s.logBase == |s.log| < |t.log| {
      assert Fits(t.log, |s.log|);
    }
  }

  lemma NotAppliedQuiet(s: Sys, a: Action)
    requires !Applies(s, a)
    ensures var t := Act(false, s, a);
            t.base == s.base && t.mark == s.mark && t.logBase == s.logBase && s.requests <= t.requests && s.log <= t.log
  {
    if !a.Thread? {
      ProducerActQuiet(s, a);
    } else if InSyscall(s) {
      ReadOnFrame(s, if s.phase.Draining? then 1 else 0, a.c);
    } else {
      match s.phase
      case Draining => DispatchPending(s);
      case Waiting(_) => AwakenedQuiet(s, a.c.wake);
      case _ =>
    }
  }

  lemma AppliedNow(rest: seq<Action>, a: Action, f: nat, i: nat) returns (t: Taken)
    requires Applies(State(rest), a) && f < i
    requires FlushedAt(rest, f, State(rest).core.r)
    requires AskedAt(rest, i, State(rest).phase.mark, State(rest).phase.on)
    requires Tiles(State(rest).log, State(rest).core.r) && State(rest).core.reader.Away?
    ensures LastReset(rest + [a], t)
  {
    t := Taken(f, i, |rest|, State(rest).phase.on, a.c.table.value);
    OneMoreState(rest, a);
    FlushedLonger(rest, a, f, State(rest).core.r);
    AskedLonger(rest, a, i, State(rest).phase.mark, State(rest).phase.on);
    Longer(rest, a, |rest|);
  }

  lemma StillLast(rest: seq<Action>, a: Action, t: Taken)
    requires LastReset(rest, t) && !Applies(State(rest), a)
    requires Tiles(State(rest).log, Settled(State(rest).core)) && State(rest).logBase <= |State(rest).log|
    requires Tiles(State(rest + [a]).log, Settled(State(rest + [a]).core))
    ensures LastReset(rest + [a], t)
  {
    OneMoreState(rest, a);
    NotApplied(State(rest), a);
    FlushedLonger(rest, a, t.flush, StartOf(State(rest).log, Settled(State(rest).core), State(rest).logBase));
    AskedLonger(rest, a, t.ask, State(rest).mark, t.on);
    AnsweredLonger(rest, a, t.answer, t.devices);
    Longer(rest, a, t.answer);
    forall k | t.answer < k < |rest + [a]| ensures !AppliedAt(rest + [a], k) {
      Longer(rest, a, k);
      assert k < |rest| ==> !AppliedAt(rest, k);
    }
  }

  /** In every run in which a snapshot was ever applied, the last one is accounted for: the steps
      that flushed, asked and were answered, in that order, and a bulk update that passes on
      exactly those answers. */
  lemma {:induction false} SnapshotIsAnswered(acts: seq<Action>) returns (t: Taken)
    requires State(acts).base > 0
    ensures LastReset(acts, t)
  {
    var rest, a := acts[..|acts| - 1], acts[|acts| - 1];
    assert rest + [a] == acts;
    AlwaysTiles(rest);
    AlwaysTiles(acts);
    AlwaysCovered(rest);
    AlwaysTold(rest);
    if Applies(State(rest), a) {
      var f, i := AskStory(rest);
      t := AppliedNow(rest, a, f, i);
    } else {
      NotApplied(State(rest), a);
      t := SnapshotIsAnswered(rest);
      StillLast(rest, a, t);
    }
  }

  // ----- The calls that failed -----

  /** The step is a call of the thread's that fails: a copy to user space, or a snapshot. */
  predicate Fails(s: Sys, a: Action) {
    a.Thread?
    && ((s.phase.Querying? && a.c.table.None?)
        || (InSyscall(s) && s.core.reader.Exporting? && !a.c.copyOk))
  }

  ghost predicate FailedAt(acts: seq<Action>, k: int) {
    0 <= k < |acts| && Fails(State(acts[..k]), acts[k])
  }

  ghost predicate AppliedLater(acts: seq<Action>, k: int) {
    exists j :: k < j && AppliedAt(acts, j)
  }

  lemma ActFails(s: Sys, a: Action)
    ensures Applies(s, a) ==> Act(false, s, a).failures == []
    ensures !Applies(s, a) && Fails(s, a) ==> Act(false, s, a).failures != []
    ensures !Applies(s, a) && !Fails(s, a) ==> Act(false, s, a).failures == s.failures
  {
    if !a.Thread? {
      ProducerActQuiet(s, a);
    } else if InSyscall(s) {
      ReadOnFrame(s, if s.phase.Draining? then 1 else 0, a.c);
      assert s.failures + [] == s.failures;
    } else {
      match s.phase
      case Draining => DispatchPending(s);
      case Waiting(_) => AwakenedQuiet(s, a.c.wake);
      case _ =>
    }
  }

  lemma LaterLonger(rest: seq<Action>, a: Action, k: nat)
    requires k <= |rest|
    ensures FailedAt(rest + [a], k) <==> if k < |rest| then FailedAt(rest, k) else Fails(State(rest), a)
    ensures AppliedAt(rest + [a], k) <==> if k < |rest| then AppliedAt(rest, k) else Applies(State(rest), a)
  {
    Longer(rest, a, k);
  }

  /** Every failure so far was followed by a snapshot that was applied. */
  ghost predicate FailuresMadeGood(acts: seq<Action>) {
    forall k :: FailedAt(acts, k) ==> AppliedLater(acts, k)
  }

  lemma OneMoreFailure(rest: seq<Action>, a: Action)
    ensures FailuresMadeGood(rest + [a])
            <==> Applies(State(rest), a) || (FailuresMadeGood(rest) && !Fails(State(rest), a))
  {
    var acts, n := rest + [a], |rest|;
    LaterLonger(rest, a, n);
    if Applies(State(rest), a) {
      forall k | FailedAt(acts, k) ensures AppliedLater(acts, k) {
        assert AppliedAt(acts, n);
      }
    } else if FailuresMadeGood(rest) && !Fails(State(rest), a) {
      forall k | FailedAt(acts, k) ensures AppliedLater(acts, k) {
        LaterLonger(rest, a, k);
        var j :| k < j && AppliedAt(rest, j);
        LaterLonger(rest, a, j);
      }
    } else if Fails(State(rest), a) {
      assert FailedAt(acts, n) && !AppliedLater(acts, n);
    } else {
      var k :| FailedAt(rest, k) && !AppliedLater(rest, k);
      LaterLonger(rest, a, k);
      forall j | k < j ensures !AppliedAt(acts, j) {
        if j < n {
          LaterLonger(rest, a, j);
          assert !AppliedAt(rest, j);
        }
      }
    }
  }

  /** In every run, the thread is without a failure on record exactly if every copy or snapshot
      that failed was followed by a snapshot that was applied. */
  lemma {:induction false} FailuresAreRecent(acts: seq<Action>)
    ensures State(acts).failures == [] <==> FailuresMadeGood(acts)
  {
    if acts != [] {
      var rest, a := acts[..|acts| - 1], acts[|acts| - 1];
      assert rest + [a] == acts;
      FailuresAreRecent(rest);
      ActFails(State(rest), a);
      OneMoreFailure(rest, a);
    }
  }
}
