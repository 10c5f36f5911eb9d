/** The whole system with 32-bit counters. */
module EventLoopWrap {
  import opened Vqmbt
  import opened Channel
  import opened ChannelTheorems
  import opened BtEvent
  import opened QmState
  import opened EventLoop
  import opened EventLoopHistory

  function WrapEntry(e: Entry): Entry {
    match e
    case Handled(at, seen, ev) => Handled(at % WORD_LIMIT, seen % WORD_LIMIT, ev)
    case Overrun(lo, hi) => Overrun(lo % WORD_LIMIT, hi % WORD_LIMIT)
    case Flushed(lo, hi) => Flushed(lo % WORD_LIMIT, hi % WORD_LIMIT)
    case CopyLost(at) => CopyLost(at % WORD_LIMIT)
  }

  function WrapLog(log: seq<Entry>): seq<Entry> {
    seq(|log|, i requires 0 <= i < |log| => WrapEntry(log[i]))
  }

  function WrapFailures(failures: seq<Failure>): seq<Failure> {
    seq(|failures|, i requires 0 <= i < |failures| =>
      if failures[i].CopyFailed? then CopyFailed(failures[i].at % WORD_LIMIT) else failures[i])
  }

  /** The same moment in the system whose ring counters are 32-bit words. */
  function WrapSys(s: Sys): Sys {
    s.(core := Wrapped(s.core), log := WrapLog(s.log), failures := WrapFailures(s.failures),
       drainFrom := s.drainFrom % WORD_LIMIT)
  }

  lemma WrapLogAppend(log: seq<Entry>, more: seq<Entry>)
    ensures WrapLog(log + more) == WrapLog(log) + WrapLog(more)
  {
  }

  lemma WrapFailuresAppend(failures: seq<Failure>, more: seq<Failure>)
    ensures WrapFailures(failures + more) == WrapFailures(failures) + WrapFailures(more)
  {
  }

  lemma WrapNoted(c: Ring, ch: Choice)
    ensures Noted(Wrapped(c), ch) == WrapLog(Noted(c, ch))
  {
  }

  lemma WrapFailing(c: Ring, ch: Choice)
    ensures Failing(Wrapped(c), ch) == WrapFailures(Failing(c, ch))
  {
  }

  lemma WrapReadOn(s: Sys, want: int, ch: Choice)
    requires Inv(s.core) && Lag(s.core) < WORD_LIMIT
    ensures ReadOn(true, WrapSys(s), want, ch) == WrapSys(ReadOn(false, s, want, ch))
  {
    var m := NextMicro(s.core.reader, want, ch);
    assert NextMicro(Wrapped(s.core).reader, want, ch) == m;
    WrapReaderStep(s.core, m);
    WrapNoted(s.core, ch);
    WrapLogAppend(s.log, Noted(s.core, ch));
    WrapFailing(s.core, ch);
    WrapFailuresAppend(s.failures, Failing(s.core, ch));
  }

  lemma WrapDispatch(s: Sys)
    requires s.core.reader.Returned?
    ensures Dispatch(WrapSys(s)) == WrapSys(Dispatch(s))
  {
    var c := s.core;
    assert Wrapped(c.(reader := Away)) == Wrapped(c).(reader := Away);
  }

  lemma WrapWaiting(s: Sys, ch: Choice)
    requires s.phase.Waiting?
    ensures ThreadStep(true, WrapSys(s), ch) == WrapSys(ThreadStep(false, s, ch))
  {
    assert Wrapped(s.core.(flag := false)) == Wrapped(s.core).(flag := false);
  }

  lemma WrapFlushed(s: Sys, ch: Choice)
    requires s.phase.Flushing? && s.core.reader.Returned?
    ensures ThreadStep(true, WrapSys(s), ch) == WrapSys(ThreadStep(false, s, ch))
  {
    assert Wrapped(s.core.(reader := Away)) == Wrapped(s.core).(reader := Away);
  }

  lemma WrapConcluded(s: Sys, table: Option<Snapshot>)
    requires s.phase.Querying?
    ensures Concluded(WrapSys(s), table) == WrapSys(Concluded(s, table))
  {
    WrapFailuresAppend(s.failures, [SnapshotFailed(|s.log|)]);
  }

  lemma WrapThread(s: Sys, ch: Choice)
    requires Inv(s.core) && Lag(s.core) < WORD_LIMIT
    ensures ThreadStep(true, WrapSys(s), ch) == WrapSys(ThreadStep(false, s, ch))
  {
    var t := WrapSys(s);
    assert t.phase == s.phase && (t.core.reader.Returned? <==> s.core.reader.Returned?);
    match s.phase
    case Stopped =>
    case Waiting(_) => WrapWaiting(s, ch);
    case Draining =>
      if s.core.reader.Returned? {
        WrapDispatch(s);
      } else {
        WrapReadOn(s, 1, ch);
      }
    case Flushing(_) =>
      if s.core.reader.Returned? {
        WrapFlushed(s, ch);
      } else {
        WrapReadOn(s, 0, ch);
      }
    case Snapshotting(_) =>
    case Querying(_, _, _) => WrapConcluded(s, ch.table);
  }

  lemma WrapEmit(c: Ring, ev: Event, ok: bool)
    requires Inv(c)
    ensures EmitEffect(true, Wrapped(c), ev, ok) == Wrapped(EmitEffect(false, c, ev, ok))
  {
    SlotOfWrapped(c.w);
    WrappedSuccessor(c.w);
  }

  lemma WrapProducer(s: Sys, m: Micro)
    requires Inv(s.core)
    ensures WrapSys(s.(core := ProducerStep(false, s.core, m)))
            == WrapSys(s).(core := ProducerStep(true, WrapSys(s).core, m))
  {
    WrapProducerStep(s.core, m);
  }

  lemma WrapWhole(s: Sys, u: Upstream, ok: bool)
    requires Inv(s.core)
    ensures Act(true, WrapSys(s), Whole(u, ok)) == WrapSys(Act(false, s, Whole(u, ok)))
  {
    if Emission(u) != [] {
      WrapEmit(s.core, Emission(u)[0], ok);
    }
  }

  lemma WrapReading(s: Sys, u: Upstream)
    requires Inv(s.core)
    ensures Act(true, WrapSys(s), Reading(u)) == WrapSys(Act(false, s, Reading(u)))
  {
    if Emission(u) != [] {
      WrapProducer(s, EmitBegin(Emission(u)[0]));
    }
  }

  lemma WrapAct(s: Sys, a: Action)
    requires Inv(s.core) && Lag(s.core) < WORD_LIMIT
    ensures Act(true, WrapSys(s), a) == WrapSys(Act(false, s, a))
  {
    match a
    case Thread(ch) => WrapThread(s, ch);
    case Reading(u) => WrapReading(s, u);
    case Whole(u, ok) => WrapWhole(s, u, ok);
    case Fill(f) => WrapProducer(s, FillWord(f));
    case Published => WrapProducer(s, Publish);
    case Signal(ok) => WrapProducer(s, Notify(ok));
    case _ =>
  }

  /** On every schedule that never lets the thread fall 2^32 events behind, the system with
      32-bit counters makes the same moves: same phases, requests, snapshots, faults and
      history, with every index reduced modulo 2^32. */
  lemma {:induction false} WrapRefinesSystem(acts: seq<Action>)
    requires forall k :: 0 <= k <= |acts| ==> Lag(State(acts[..k]).core) < WORD_LIMIT
    ensures RunAll(true, SystemBoot(), acts) == WrapSys(State(acts))
  {
    if acts == [] {
      assert WrapLog([]) == [] && WrapFailures([]) == [];
    } else {
      var rest := acts[..|acts| - 1];
      forall k | 0 <= k <= |rest| ensures Lag(State(rest[..k]).core) < WORD_LIMIT {
        assert rest[..k] == acts[..k];
      }
      WrapRefinesSystem(rest);
      RunKeepsBase(rest);
      assert acts[..|rest|] == rest;
      WrapAct(State(rest), acts[|acts| - 1]);
    }
  }
}
