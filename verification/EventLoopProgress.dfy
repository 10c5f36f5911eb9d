/** The event thread is never stuck: from every state a run can reach, its own steps empty the
    ring and bring it back to waiting, whatever the producer has half done. */
module EventLoopProgress {
  import opened Vqmbt
  import opened Channel
  import opened QmState
  import opened EventLoop
  import opened EventLoopHistory
  import opened EventLoopSnapshot
  import opened EventLoopTheorems

  /** A word not yet copied. */
  function NextWord(d: Reader): Field {
    if !d.Copying? then IdWord
    else if IdWord !in d.copied then IdWord
    else if Mac0Word !in d.copied then Mac0Word
    else Mac1Word
  }

  /** The thread's next step when every call works: waits time out, copies succeed, and the
      snapshot calls answer this. */
  function Onward(s: Sys, on: bool, devices: Snapshot): Action {
    Thread(Choice(NextWord(s.core.reader), true, TimedOut, on, Some(devices)))
  }

  function Word(copied: set<Field>, f: Field): nat {
    if f in copied then 1 else 0
  }

  /** How far the thread is from the end of its turn, given what is left in the ring. */
  function Stage(s: Sys): nat {
    match s.phase
    case Stopped => 0
    case Waiting(_) => if s.core.r == s.core.w then 0 else 22
    case Draining => DrainStage(s.core)
    case Flushing(_) =>
      if s.core.reader.Away? then 30 else if s.core.reader.Loading? then 29
      else if s.core.reader.Storing? then 28 else 27
    case Snapshotting(_) => 26
    case Querying(_, _, _) => 25
  }

  function DrainStage(c: Ring): nat {
    match c.reader
    case Away => 20
    case Loading(_, _) => 19
    case Copying(_, _, copied) => 18 - Word(copied, IdWord) - Word(copied, Mac0Word) - Word(copied, Mac1Word)
    case Storing(_, _) => 14
    case Committing(_, _, _) => 13
    case Exporting(_, _, _) => 35
    case Returned(outcome) => if outcome.Got? || outcome.Overflow? then 34 else if c.r == c.w then 1 else 23
  }

  /** Every event passed pays for the steps its handling may take. */
  function Cost(s: Sys): int {
    40 * (s.core.w - s.core.r) + Stage(s)
  }

  predicate CaughtUp(s: Sys) {
    s.phase.Waiting? && s.core.r == s.core.w
  }

  /** What the measure rests on. */
  ghost predicate Ready(s: Sys) {
    !s.phase.Stopped? && PhaseInv(s) && ReaderInv(s.core) && s.core.w == |s.core.emitted|
  }

  lemma ReadMovesOn(s: Sys, on: bool, devices: Snapshot)
    requires Ready(s) && s.phase.Draining? && !s.core.reader.Returned?
    ensures Cost(Act(false, s, Onward(s, on, devices))) < Cost(s)
  {
    var c := Onward(s, on, devices).c;
    ReadOnFrame(s, 1, c);
    MicroMovesOn(s.core, c);
  }

  lemma MicroMovesOn(c: Ring, ch: Choice)
    requires ReaderInv(c) && !c.reader.Returned? && ch.copyOk && ch.word == NextWord(c.reader)
    requires c.reader.Loading? ==> c.reader.want == 1
    requires c.reader.Storing? ==> c.reader.result == Overflow
    ensures var d := ReaderStep(false, c, NextMicro(c.reader, 1, ch));
            40 * (d.w - d.r) + DrainStage(d) < 40 * (c.w - c.r) + DrainStage(c)
  {
    if c.reader.Copying? && c.reader.copied != ALL_FIELDS {
      WordLeft(c.reader.copied);
    }
  }

  lemma WordLeft(copied: set<Field>)
    requires copied != ALL_FIELDS
    ensures IdWord !in copied || Mac0Word !in copied || Mac1Word !in copied
  {
    if IdWord in copied && Mac0Word in copied && Mac1Word in copied {
      forall f: Field ensures f in copied <==> f in ALL_FIELDS {
        AllFields(f);
      }
    }
  }

  lemma DispatchMovesOn(s: Sys)
    requires Ready(s) && s.phase.Draining? && s.core.reader.Returned?
    ensures Cost(Dispatch(s)) < Cost(s)
  {
    DispatchCore(s);
  }

  lemma FlushMovesOn(s: Sys, on: bool, devices: Snapshot)
    requires Ready(s) && s.phase.Flushing?
    ensures Cost(Act(false, s, Onward(s, on, devices))) < Cost(s)
  {
    if !s.core.reader.Returned? {
      ReadOnFrame(s, 0, Onward(s, on, devices).c);
    }
  }

  lemma MovesOn(s: Sys, on: bool, devices: Snapshot)
    requires Ready(s) && !CaughtUp(s)
    ensures 0 <= Cost(Act(false, s, Onward(s, on, devices))) < Cost(s)
  {
    var a := Onward(s, on, devices);
    match s.phase
    case Draining =>
      if s.core.reader.Returned? {
        DispatchMovesOn(s);
      } else {
        ReadMovesOn(s, on, devices);
      }
    case Flushing(_) => FlushMovesOn(s, on, devices);
    case _ =>
    StaysInRange(s, a);
  }

  lemma StaysInRange(s: Sys, a: Action)
    requires Ready(s) && a.Thread?
    ensures Act(false, s, a).core.r <= Act(false, s, a).core.w
  {
    ThreadKeepsProducer(s, a.c);
    if InSyscall(s) {
      ReaderStaysInRange(s.core, NextMicro(s.core.reader, if s.phase.Draining? then 1 else 0, a.c));
    } else {
      ElsewhereQuiet(s, a.c);
    }
  }

  lemma ReaderStaysInRange(c: Ring, m: Micro)
    requires ReaderInv(c) && c.w == |c.emitted|
    ensures ReaderStep(false, c, m).r <= ReaderStep(false, c, m).w
  {
  }

  /** What is kept along the way: nothing new fails, nothing new is emitted, and the thread runs. */
  lemma OnwardKeeps(s: Sys, on: bool, devices: Snapshot)
    requires !s.phase.Stopped?
    ensures var t := Act(false, s, Onward(s, on, devices));
            && !t.phase.Stopped? && t.core.emitted == s.core.emitted
            && (t.failures == s.failures || t.failures == [])
  {
    var c := Onward(s, on, devices).c;
    ThreadKeepsProducer(s, c);
    if InSyscall(s) {
      ReadOnFrame(s, if s.phase.Draining? then 1 else 0, c);
      assert s.failures + [] == s.failures;
    } else {
      match s.phase
      case Draining => DispatchPending(s);
      case Waiting(_) => AwakenedQuiet(s, c.wake);
      case _ =>
    }
  }

  ghost predicate ThreadOnly(more: seq<Action>) {
    forall k :: 0 <= k < |more| ==> more[k].Thread?
  }

  /** From every state a run can reach with the thread running, whatever the producer has half
      done, there are steps of the thread alone, with every call working, after which it waits on
      an empty ring; nothing fails on the way. */
  lemma {:induction false} ThreadCatchesUp(acts: seq<Action>, on: bool, devices: Snapshot) returns (more: seq<Action>)
    requires !State(acts).phase.Stopped?
    ensures ThreadOnly(more) && CaughtUp(State(acts + more))
    ensures State(acts + more).core.emitted == State(acts).core.emitted
    ensures State(acts + more).failures == State(acts).failures || State(acts + more).failures == []
    decreases Cost(State(acts))
  {
    if CaughtUp(State(acts)) {
      more := [];
      assert acts + more == acts;
    } else {
      var a := StepOnward(acts, on, devices);
      var rest := ThreadCatchesUp(acts + [a], on, devices);
      more := [a] + rest;
      Regroup(acts, a, rest);
    }
  }

  lemma StepOnward(acts: seq<Action>, on: bool, devices: Snapshot) returns (a: Action)
    requires !State(acts).phase.Stopped? && !CaughtUp(State(acts))
    ensures a.Thread? && !State(acts + [a]).phase.Stopped?
    ensures 0 <= Cost(State(acts)) && Cost(State(acts + [a])) < Cost(State(acts))
    ensures State(acts + [a]).core.emitted == State(acts).core.emitted
    ensures State(acts + [a]).failures == State(acts).failures || State(acts + [a]).failures == []
  {
    a := Onward(State(acts), on, devices);
    RunKeepsBase(acts);
    MovesOn(State(acts), on, devices);
    OnwardKeeps(State(acts), on, devices);
    OneMoreState(acts, a);
  }

  lemma Regroup(acts: seq<Action>, a: Action, rest: seq<Action>)
    ensures acts + [a] + rest == acts + ([a] + rest)
    ensures a.Thread? && ThreadOnly(rest) ==> ThreadOnly([a] + rest)
  {
  }
}
