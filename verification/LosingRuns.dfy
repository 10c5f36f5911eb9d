/** Concrete runs of the system that lose an event: a failed copy, a failed snapshot, and a
    report of lost events that is itself torn. They show that the exceptions in
    EventLoopTheorems are real. */
module LosingRuns {
  import opened Vqmbt
  import opened Channel
  import opened BtEvent
  import opened QmState
  import opened EventLoop
  import opened EventLoopHistory
  import opened EventLoopTheorems

  // ----- Runs as lists of states -----

  predicate Leads(s: Sys, a: Action, t: Sys) {
    Act(false, s, a) == t
  }

  lemma RunsOne(s: Sys, a: Action, t: Sys)
    requires Leads(s, a, t)
    ensures RunAll(false, s, [a]) == t
  {
    assert [a][..0] == [];
  }

  lemma {:induction false} RunsJoin(s: Sys, a: seq<Action>, t: Sys, b: seq<Action>, u: Sys)
    requires RunAll(false, s, a) == t && RunAll(false, t, b) == u
    ensures RunAll(false, s, a + b) == u
  {
    if b == [] {
      assert a + b == a;
    } else {
      assert (a + b)[..|a + b| - 1] == a + b[..|b| - 1];
      RunsJoin(s, a, t, b[..|b| - 1], RunAll(false, t, b[..|b| - 1]));
    }
  }

  lemma RunsJoinThree(s: Sys, a: seq<Action>, s1: Sys, b: seq<Action>, s2: Sys, c: seq<Action>, t: Sys)
    requires RunAll(false, s, a) == s1 && RunAll(false, s1, b) == s2 && RunAll(false, s2, c) == t
    ensures RunAll(false, s, a + (b + c)) == t
  {
    RunsJoin(s1, b, s2, c, t);
    RunsJoin(s, a, s1, b + c, t);
  }

  lemma RunsTwo(s: Sys, a: Action, s1: Sys, b: Action, t: Sys)
    requires Leads(s, a, s1) && Leads(s1, b, t)
    ensures RunAll(false, s, [a, b]) == t
  {
    RunsOne(s, a, s1);
    RunsOne(s1, b, t);
    RunsJoin(s, [a], s1, [b], t);
    assert [a] + [b] == [a, b];
  }

  lemma RunsThree(s: Sys, a: Action, s1: Sys, b: Action, s2: Sys, c: Action, t: Sys)
    requires Leads(s, a, s1) && Leads(s1, b, s2) && Leads(s2, c, t)
    ensures RunAll(false, s, [a, b, c]) == t
  {
    RunsTwo(s, a, s1, b, s2);
    RunsOne(s2, c, t);
    RunsJoin(s, [a, b], s2, [c], t);
    assert [a, b] + [c] == [a, b, c];
  }

  // ----- The thread's steps -----

  function Go(word: Field, copyOk: bool): Action {
    Thread(Choice(word, copyOk, Signalled, true, Some([])))
  }

  const NEXT: Action := Go(IdWord, true)

  const SNAPSHOT_FAILS: Action := Thread(Choice(IdWord, true, Signalled, true, None))

  function WithReader(s: Sys, d: Reader): Sys {
    s.(core := s.core.(reader := d))
  }

  /** A step of the syscall that settles nothing. */
  lemma SyscallStep(s: Sys, a: Action, d: Reader)
    requires a.Thread? && InSyscall(s) && !s.core.reader.Storing? && !s.core.reader.Exporting?
    requires ReaderStep(false, s.core, NextMicro(s.core.reader, if s.phase.Draining? then 1 else 0, a.c))
             == s.core.(reader := d)
    ensures Leads(s, a, WithReader(s, d))
  {
    assert s.log + [] == s.log && s.failures + [] == s.failures;
  }

  const BEGINNING: seq<Action> := [NEXT, NEXT]

  /** Entering the syscall, up to copying the event at the read index. */
  lemma Begins(s: Sys) returns (t: Sys)
    requires s.phase == Draining && s.core.reader.Away? && s.core.r < s.core.w <= s.core.r + RING
    ensures t == RunAll(false, s, BEGINNING) == WithReader(s, Copying(s.core.r, ZERO_EVENT, {}))
  {
    var s1 := WithReader(s, Loading(1, s.core.r));
    t := WithReader(s, Copying(s.core.r, ZERO_EVENT, {}));
    SyscallStep(s, NEXT, Loading(1, s.core.r));
    SyscallStep(s1, NEXT, Copying(s.core.r, ZERO_EVENT, {}));
    RunsTwo(s, NEXT, s1, NEXT, t);
  }

  const TAKING: seq<Action> := [Go(IdWord, true), Go(Mac0Word, true), Go(Mac1Word, true)]

  function MoreTaken(c: Ring, d: Reader, f: Field): Reader
    requires d.Copying?
  {
    d.(got := CopyWord(d.got, f, c.slots[d.from % RING]), copied := d.copied + {f})
  }

  lemma TakenAll(c: Ring, d: Reader)
    requires d.Copying? && d.copied == {}
    ensures MoreTaken(c, MoreTaken(c, MoreTaken(c, d, IdWord), Mac0Word), Mac1Word)
            == Copying(d.from, c.slots[d.from % RING], ALL_FIELDS)
  {
    assert MoreTaken(c, MoreTaken(c, MoreTaken(c, d, IdWord), Mac0Word), Mac1Word).copied == ALL_FIELDS;
  }

  /** Copying the three words with nothing in between. */
  lemma TakesWords(s: Sys) returns (t: Sys)
    requires s.phase == Draining && s.core.reader.Copying? && s.core.reader.copied == {}
    ensures t == RunAll(false, s, TAKING)
    ensures t == WithReader(s, Copying(s.core.reader.from, s.core.slots[s.core.reader.from % RING], ALL_FIELDS))
  {
    var d1 := MoreTaken(s.core, s.core.reader, IdWord);
    var d2 := MoreTaken(s.core, d1, Mac0Word);
    var d3 := MoreTaken(s.core, d2, Mac1Word);
    SyscallStep(s, Go(IdWord, true), d1);
    SyscallStep(WithReader(s, d1), Go(Mac0Word, true), d2);
    SyscallStep(WithReader(s, d2), Go(Mac1Word, true), d3);
    t := WithReader(s, d3);
    RunsThree(s, Go(IdWord, true), WithReader(s, d1), Go(Mac0Word, true), WithReader(s, d2), Go(Mac1Word, true), t);
    TakenAll(s.core, s.core.reader);
  }

  const COMMITTING: seq<Action> := [NEXT, NEXT]

  /** The recheck and the commit. */
  lemma Commits(s: Sys) returns (t: Sys)
    requires s.phase == Draining && s.core.reader.Copying? && s.core.reader.copied == ALL_FIELDS
    requires s.core.w - s.core.reader.from <= RING
    ensures t == RunAll(false, s, COMMITTING)
    ensures t == s.(core := s.core.(r := s.core.reader.from + 1,
                                    reader := Exporting(s.core.reader.from, s.core.w, s.core.reader.got)))
  {
    var s1 := WithReader(s, Committing(s.core.reader.from, s.core.w, s.core.reader.got));
    SyscallStep(s, NEXT, s1.core.reader);
    t := s.(core := s.core.(r := s.core.reader.from + 1,
                            reader := Exporting(s.core.reader.from, s.core.w, s.core.reader.got)));
    assert Leads(s1, NEXT, t) by {
      assert s.log + [] == s.log && s.failures + [] == s.failures;
    }
    RunsTwo(s, NEXT, s1, NEXT, t);
  }

  /** Copying the event out to user space, and the next step of fetch_events. */
  function Passing(copyOk: bool): seq<Action> {
    [Go(IdWord, copyOk), NEXT]
  }

  function Passed(s: Sys, copyOk: bool): Sys
    requires s.core.reader.Exporting?
  {
    var d := s.core.reader;
    if copyOk then
      s.(core := s.core.(reader := Returned(Got(d.got))), log := s.log + [Handled(d.from, d.seen, d.got)])
    else
      s.(core := s.core.(reader := Returned(KernelSide)), log := s.log + [CopyLost(d.from)],
         failures := s.failures + [CopyFailed(d.from)])
  }

  lemma PassingEnds(s: Sys, copyOk: bool) returns (t: Sys)
    requires s.phase == Draining && s.core.reader.Exporting?
    ensures t == RunAll(false, s, Passing(copyOk)) == Dispatch(Passed(s, copyOk))
  {
    var s1 := Passed(s, copyOk);
    t := Dispatch(s1);
    assert Leads(s, Go(IdWord, copyOk), s1) by {
      assert s.failures + [] == s.failures;
    }
    assert Leads(s1, NEXT, t);
    RunsTwo(s, Go(IdWord, copyOk), s1, NEXT, t);
  }

  // ----- Opening the menu, and what the stack reports -----

  const OPENING: seq<Action> := [Open, NEXT, NEXT] + [NEXT, NEXT, NEXT]

  function Opened(): Sys {
    SystemBoot().(phase := Waiting(true), requests := [BulkUpdate(true, 0, [])], base := 1)
  }

  lemma Opens()
    ensures State(OPENING) == Opened()
  {
    var s0 := SystemBoot();
    var s1 := s0.(phase := Flushing(ToWait));
    var s2 := WithReader(s1, Loading(0, 0));
    var s3 := WithReader(s1, Returned(Nothing));
    assert Leads(s0, Open, s1);
    SyscallStep(s1, NEXT, Loading(0, 0));
    SyscallStep(s2, NEXT, Returned(Nothing));
    RunsThree(s0, Open, s1, NEXT, s2, NEXT, s3);
    FirstSnapshot(s3);
    RunsJoin(s0, [Open, NEXT, NEXT], s3, [NEXT, NEXT, NEXT], Opened());
  }

  lemma FirstSnapshot(s: Sys)
    requires s == WithReader(SystemBoot().(phase := Flushing(ToWait)), Returned(Nothing))
    ensures RunAll(false, s, [NEXT, NEXT, NEXT]) == Opened()
  {
    var s1 := WithReader(s.(phase := Snapshotting(ToWait)), Away);
    var s2 := s1.(phase := Querying(ToWait, 0, true));
    assert s.requests + [BulkUpdate(true, 0, [])] == [BulkUpdate(true, 0, [])];
    RunsThree(s, NEXT, s1, NEXT, s2, NEXT, Opened());
  }

  function Report(id: int): Upstream {
    Item(SceBtEvent(id, 0, 0x09, 1, 1))
  }

  /** The menu is opened, and n events are emitted without interruption: that of the first
      reading given, then connection results. */
  function FilledBy(first: Upstream, n: nat): seq<Action> {
    if n == 0 then OPENING
    else FilledBy(first, n - 1) + [Whole(if n == 1 then first else Report(CONNECT_RESULT), true)]
  }

  /** The menu is open, the thread still waits, and n events are in the ring. */
  predicate Ready(s: Sys, first: Upstream, n: nat)
    requires Emission(first) != []
  {
    && s.phase == Waiting(true) && s.core.reader.Away? && s.core.prod.Resting?
    && s.core.w == n == |s.core.emitted| > 0 && s.core.r == 0 && s.core.flag
    && s.core.slots[0] == s.core.emitted[0] == Emission(first)[0]
    && s.upstream != [] && s.upstream[0] == first
    && s.log == [] && s.failures == [] && s.mark == 0 && s.logBase == 0 && s.silent == 0
    && s.requests == [BulkUpdate(true, 0, [])] && s.base == 1
  }

  lemma {:induction false} RingFills(first: Upstream, n: nat) returns (s: Sys)
    requires Emission(first) != [] && 1 <= n <= RING
    ensures s == State(FilledBy(first, n)) && Ready(s, first, n)
  {
    if n == 1 {
      s := FirstFills(first);
    } else {
      var was := RingFills(first, n - 1);
      s := NextFills(was, first, n);
    }
  }

  lemma FirstFills(first: Upstream) returns (s: Sys)
    requires Emission(first) != []
    ensures s == State(FilledBy(first, 1)) && Ready(s, first, 1)
  {
    Opens();
    FirstEmit(first);
    s := EmitFollows(first, 1, Opened(), first);
  }

  lemma NextFills(was: Sys, first: Upstream, n: nat) returns (s: Sys)
    requires Emission(first) != [] && 2 <= n <= RING && was == State(FilledBy(first, n - 1)) && Ready(was, first, n - 1)
    ensures s == State(FilledBy(first, n)) && Ready(s, first, n)
  {
    LaterEmit(was, first, n - 1);
    s := EmitFollows(first, n, was, Report(CONNECT_RESULT));
  }

  lemma EmitFollows(first: Upstream, n: nat, was: Sys, u: Upstream) returns (s: Sys)
    requires 1 <= n && State(FilledBy(first, n - 1)) == was
    requires u == if n == 1 then first else Report(CONNECT_RESULT)
    ensures s == State(FilledBy(first, n)) == Act(false, was, Whole(u, true))
  {
    s := Act(false, was, Whole(u, true));
    RunsOne(was, Whole(u, true), s);
    RunsJoin(SystemBoot(), FilledBy(first, n - 1), was, [Whole(u, true)], s);
  }

  lemma FirstEmit(first: Upstream)
    requires Emission(first) != []
    ensures Ready(Act(false, Opened(), Whole(first, true)), first, 1)
  {
  }

  lemma LaterEmit(s: Sys, first: Upstream, n: nat)
    requires Emission(first) != [] && 1 <= n < RING && Ready(s, first, n)
    ensures Ready(Act(false, s, Whole(Report(CONNECT_RESULT), true)), first, n + 1)
  {
  }

  /** The thread wakes and enters the syscall. */
  const STARTING: seq<Action> := [NEXT] + BEGINNING

  lemma Starts(s: Sys, first: Upstream, n: nat) returns (t: Sys)
    requires Emission(first) != [] && 1 <= n <= RING && Ready(s, first, n)
    ensures t == RunAll(false, s, STARTING)
    ensures t == WithReader(StartDrain(s.(core := s.core.(flag := false))), Copying(0, ZERO_EVENT, {}))
  {
    var s1 := StartDrain(s.(core := s.core.(flag := false)));
    assert Leads(s, NEXT, s1);
    RunsOne(s, NEXT, s1);
    t := Begins(s1);
    RunsJoin(s, [NEXT], s1, BEGINNING, t);
  }

  // ----- A failed copy -----

  /** Two events are in the ring, and the first has been taken from it. */
  function TakeFirst(first: Upstream): seq<Action> {
    FilledBy(first, 2) + (STARTING + (TAKING + COMMITTING))
  }

  predicate FirstTaken(s: Sys, first: Upstream)
    requires Emission(first) != []
  {
    && s.phase == Draining && s.core.w == 2 && s.core.r == 1 && s.core.prod.Resting? && !s.core.flag
    && s.core.reader == Exporting(0, 2, Emission(first)[0])
    && s.log == [] && s.mark == 0 && s.silent == 0 && s.failures == []
  }

  lemma FirstIsTaken(first: Upstream) returns (s: Sys)
    requires Emission(first) != []
    ensures s == State(TakeFirst(first)) && FirstTaken(s, first)
  {
    var s1 := RingFills(first, 2);
    var s2 := Starts(s1, first, 2);
    var s3 := TakesWords(s2);
    s := Commits(s3);
    RunsJoinThree(s1, STARTING, s2, TAKING, s3, COMMITTING, s);
    RunsJoin(SystemBoot(), FilledBy(first, 2), s1, STARTING + (TAKING + COMMITTING), s);
  }

  /** One failed copy loses an event for good, and the drain loop's early exit leaves the
      other one in the ring with the flag already cleared: only the wait's timeout finds it.
      Nothing is covered by a snapshot, and no reset is under way. */
  lemma FailedCopyIsSilent()
    ensures var s := State(TakeFirst(Report(CONNECT_RESULT)) + Passing(false));
            && s.phase == Waiting(false)
            && s.log == [CopyLost(0)] && s.failures == [CopyFailed(0)] && s.mark == 0
            && s.core.r == 1 && s.core.w == 2
            && !s.core.flag && s.core.prod.Resting? && s.silent == 0
  {
    var s := FirstIsTaken(Report(CONNECT_RESULT));
    var t := PassingEnds(s, false);
    RunsJoin(SystemBoot(), TakeFirst(Report(CONNECT_RESULT)), s, Passing(false), t);
  }

  // ----- A failed snapshot -----

  const FLUSHING: seq<Action> := [NEXT, NEXT, NEXT]

  lemma FlushEnds(s: Sys) returns (t: Sys)
    requires s.phase == Flushing(ToDrain) && s.core.reader.Away? && s.core.r < s.core.w
    ensures t == RunAll(false, s, FLUSHING)
    ensures t == WithReader(s, Returned(Nothing)).(core := s.core.(r := s.core.w, reader := Returned(Nothing)),
                                                   log := s.log + [Flushed(s.core.r, s.core.w)])
  {
    var s1 := WithReader(s, Loading(0, s.core.r));
    var s2 := WithReader(s, Storing(s.core.w, Nothing));
    SyscallStep(s, NEXT, s1.core.reader);
    SyscallStep(s1, NEXT, s2.core.reader);
    t := s.(core := s.core.(r := s.core.w, reader := Returned(Nothing)), log := s.log + [Flushed(s.core.r, s.core.w)]);
    assert Leads(s2, NEXT, t) by {
      assert s.failures + [] == s.failures;
    }
    RunsThree(s, NEXT, s1, NEXT, s2, NEXT, t);
  }

  /** The snapshot after the flush is begun, and fails. */
  const GIVING_UP: seq<Action> := [NEXT, NEXT, SNAPSHOT_FAILS]

  lemma GivesUp(s: Sys) returns (t: Sys)
    requires s.phase == Flushing(ToDrain) && s.core.reader == Returned(Nothing)
    ensures t == RunAll(false, s, GIVING_UP)
    ensures t == WithReader(s, Away).(phase := Draining, failures := s.failures + [SnapshotFailed(|s.log|)])
  {
    var s1 := WithReader(s, Away).(phase := Snapshotting(ToDrain));
    var s2 := s1.(phase := Querying(ToDrain, |s.core.emitted|, true));
    t := WithReader(s, Away).(phase := Draining, failures := s.failures + [SnapshotFailed(|s.log|)]);
    RunsThree(s, NEXT, s1, NEXT, s2, SNAPSHOT_FAILS, t);
  }

  /** One more read, which finds the ring empty. */
  const ENDING: seq<Action> := [NEXT, NEXT, NEXT]

  lemma DrainEnds(s: Sys) returns (t: Sys)
    requires s.phase == Draining && s.core.reader.Away? && s.core.r == s.core.w
    ensures t == RunAll(false, s, ENDING) == s.(phase := Waiting(true))
  {
    var s1 := WithReader(s, Loading(1, s.core.r));
    var s2 := WithReader(s, Returned(Nothing));
    SyscallStep(s, NEXT, s1.core.reader);
    SyscallStep(s1, NEXT, s2.core.reader);
    t := s.(phase := Waiting(true));
    assert Leads(s2, NEXT, t);
    RunsThree(s, NEXT, s1, NEXT, s2, NEXT, t);
  }

  const FAILED_RESET: seq<Action> := Passing(true) + (FLUSHING + (GIVING_UP + ENDING))

  /** A snapshot that fails after the flush loses what was flushed, and the drain still ends
      on an empty ring as if all were well. */
  lemma FailedSnapshotIsSilent()
    ensures var s := State(TakeFirst(Report(ADD_REMOVE_CONNECTING_DEVICE)) + FAILED_RESET);
            && s.phase == Waiting(true) && s.core.r == s.core.w == 2
            && |s.log| == 2 && s.log[0].Handled? && s.log[1] == Flushed(1, 2)
            && s.failures == [SnapshotFailed(2)] && s.mark == 0
  {
    var s := FirstIsTaken(Report(ADD_REMOVE_CONNECTING_DEVICE));
    var t := ResetFails(s);
    RunsJoin(SystemBoot(), TakeFirst(Report(ADD_REMOVE_CONNECTING_DEVICE)), s, FAILED_RESET, t);
  }

  lemma ResetFails(s: Sys) returns (t: Sys)
    requires FirstTaken(s, Report(ADD_REMOVE_CONNECTING_DEVICE))
    ensures t == RunAll(false, s, FAILED_RESET)
    ensures t.phase == Waiting(true) && t.core.r == t.core.w == 2
    ensures |t.log| == 2 && t.log[0].Handled? && t.log[1] == Flushed(1, 2)
    ensures t.failures == [SnapshotFailed(2)] && t.mark == 0
  {
    var s1 := PassingEnds(s, true);
    var s2 := FlushEnds(s1);
    var s3 := GivesUp(s2);
    t := DrainEnds(s3);
    RunsJoinThree(s1, FLUSHING, s2, GIVING_UP, s3, ENDING, t);
    RunsJoin(s, Passing(true), s1, FLUSHING + (GIVING_UP + ENDING), t);
  }

  // ----- A torn report -----

  /** The producer has begun to overwrite the slot being read. */
  const OVERWRITING: seq<Action> := [Reading(Report(TOGGLE_BLUETOOTH)), Fill(IdWord)]

  const STEALING: seq<Action> := TAKING + (COMMITTING + Passing(true))

  const TEARING: seq<Action> := STARTING + (OVERWRITING + STEALING)

  lemma Overwrites(s: Sys) returns (t: Sys)
    requires s.core.prod.Resting? && s.core.w == RING
    ensures t == RunAll(false, s, OVERWRITING)
    ensures t.core.slots[0] == s.core.slots[0].(id := BluetoothEnabled)
    ensures t == s.(upstream := s.upstream + [Report(TOGGLE_BLUETOOTH)],
                    core := s.core.(slots := t.core.slots, prod := t.core.prod))
  {
    var ev := Event(BluetoothEnabled, 0, 0);
    var s1 := s.(upstream := s.upstream + [Report(TOGGLE_BLUETOOTH)],
                 core := s.core.(prod := Filling(ev, RING, {})));
    t := s1.(core := ProducerStep(false, s1.core, FillWord(IdWord)));
    assert Emission(Report(TOGGLE_BLUETOOTH)) == [ev];
    assert Leads(s, Reading(Report(TOGGLE_BLUETOOTH)), s1);
    RunsTwo(s, Reading(Report(TOGGLE_BLUETOOTH)), s1, Fill(IdWord), t);
  }

  /** The report of a loss, overwritten while it is copied at lag 16, reaches the handler as
      another event: no reset follows, and no snapshot covers what the report stood for. */
  lemma TornReportIsSilent()
    ensures var s := State(FilledBy(Lost, RING) + TEARING);
            && Between(s) && s.failures == [] && s.core.r == 1
            && s.upstream != [] && s.upstream[0] == Lost
            && s.core.emitted != [] && s.core.emitted[0].id == DroppedEvents
            && s.log == [Handled(0, RING, Event(BluetoothEnabled, 0, 0))]
            && s.requests == [BulkUpdate(true, 0, []), BluetoothOn]
            && s.mark == 0
  {
    var s := RingFills(Lost, RING);
    var t := Tears(s);
    RunsJoin(SystemBoot(), FilledBy(Lost, RING), s, TEARING, t);
  }

  lemma Tears(s: Sys) returns (t: Sys)
    requires Ready(s, Lost, RING)
    ensures t == RunAll(false, s, TEARING)
    ensures Between(t) && t.failures == [] && t.core.r == 1 && t.mark == 0
    ensures t.upstream == s.upstream + [Report(TOGGLE_BLUETOOTH)] && t.core.emitted == s.core.emitted
    ensures t.log == [Handled(0, RING, Event(BluetoothEnabled, 0, 0))]
    ensures t.requests == [BulkUpdate(true, 0, []), BluetoothOn]
  {
    var s1 := Starts(s, Lost, RING);
    var s2 := Overwrites(s1);
    t := Steals(s2);
    RunsJoinThree(s, STARTING, s1, OVERWRITING, s2, STEALING, t);
  }

  lemma Steals(s: Sys) returns (t: Sys)
    requires s.phase == Draining && s.core.reader == Copying(0, ZERO_EVENT, {}) && s.core.w == RING
    requires s.core.slots[0] == Event(BluetoothEnabled, 0, 0)
    ensures t == RunAll(false, s, STEALING)
    ensures Between(t) && t.failures == s.failures && t.core.r == 1 && t.mark == s.mark
    ensures t.upstream == s.upstream && t.core.emitted == s.core.emitted
    ensures t.log == s.log + [Handled(0, RING, Event(BluetoothEnabled, 0, 0))]
    ensures t.requests == s.requests + [BluetoothOn]
  {
    var s1 := TakesWords(s);
    var s2 := Commits(s1);
    t := PassingEnds(s2, true);
    RunsJoinThree(s, TAKING, s1, COMMITTING, s2, Passing(true), t);
  }
}
