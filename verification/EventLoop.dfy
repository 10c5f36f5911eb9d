/** The whole system: the Bluetooth callback filling the ring, and the event thread of
    kmod_event.c and quickmenu.c waiting, draining, handling, flushing and taking snapshots.
    As in Channel, a schedule fixes one interleaving, down to single words copied, together
    with what every outside call answers. */
module EventLoop {
  import opened Vqmbt
  import opened Channel
  import opened ChannelTheorems
  import opened BtEvent
  import opened QmState

  /** Where the event thread goes when a reset ends: on to waiting if it was the reset at
      thread start, back to the drain loop otherwise. */
  datatype Resume = ToWait | ToDrain

  /** Where the event thread is. `clean` says that the last drain, if any, ended on an empty
      ring; `mark` is the number of events emitted when the snapshot began. */
  datatype Phase =
    | Stopped
    | Waiting(clean: bool)
    | Draining
    | Flushing(next: Resume)
    | Snapshotting(next: Resume)
    | Querying(next: Resume, mark: nat, on: bool)

  /** What became of a stretch of event indices, in the order the read index passed them. */
  datatype Entry =
    | Handled(at: int, seen: int, ev: Event)
    | Overrun(lo: int, hi: int)
    | Flushed(lo: int, hi: int)
    | CopyLost(at: int)

  function Lo(e: Entry): int {
    match e
    case Handled(at, _, _) => at
    case Overrun(lo, _) => lo
    case Flushed(lo, _) => lo
    case CopyLost(at) => at
  }

  function Hi(e: Entry): int {
    match e
    case Handled(at, _, _) => at + 1
    case Overrun(_, hi) => hi
    case Flushed(_, hi) => hi
    case CopyLost(at) => at + 1
  }

  /** A failed call: the copy of event `at` to user space, or a snapshot begun when `noted`
      entries had been noted. */
  datatype Failure = CopyFailed(at: int) | SnapshotFailed(noted: nat)

  datatype Wake = Signalled | TimedOut | WaitFailed | StopRequested

  type Snapshot = ds: seq<Device> | |ds| <= MAX_DEVICES

  /** The answers the thread's next step may need: which word is copied next, whether the
      copy to user space works, how the wait ends, what the snapshot calls return. */
  datatype Choice = Choice(word: Field, copyOk: bool, wake: Wake, on: bool, table: Option<Snapshot>)

  /** `Reading` to `Signal` are the producer's single steps; `Whole` is one uninterrupted
      reading of the stack's queue with its emit. */
  datatype Action =
    | Reading(u: Upstream)
    | Fill(f: Field)
    | Published
    | Signal(ok: bool)
    | Whole(u: Upstream, ok: bool)
    | Thread(c: Choice)
    | Press(req: Req)
    | Open

  /** The machine and its history: upstream readings, fates of event indices, requests to
      the menu, the position in each of the last snapshot applied, the calls that failed since
      then, the failed flag calls, and the current drain. */
  datatype Sys = Sys(
    core: Ring, phase: Phase,
    upstream: seq<Upstream>, log: seq<Entry>, requests: seq<Req>,
    mark: nat, base: nat, logBase: nat,
    failures: seq<Failure>, silent: nat,
    drainFrom: int, drainW: nat, iters: nat)

  function SystemBoot(): Sys {
    Sys(Boot(), Stopped, [], [], [], 0, 0, 0, [], 0, 0, 0, 0)
  }

  /** The events whose handler resets: it flushes the ring and reads the world again. */
  predicate Resets(id: EventId) {
    id == DroppedEvents || id == DeviceAddedRemovedConnecting
  }

  /** handle_event: the request each of the other events makes. */
  function RequestOf(ev: Event): seq<Req> {
    match ev.id
    case BluetoothEnabled => [BluetoothOn]
    case BluetoothDisabled => [BluetoothOff]
    case DeviceConnectSuccess => [SawConnected(ev.mac0, ev.mac1)]
    case DeviceDisconnected => [SawDisconnected(ev.mac0, ev.mac1)]
    case DeviceConnectFailed => [SawDisconnected(ev.mac0, ev.mac1)]
    case DeviceConnectAborted => [SawDisconnected(ev.mac0, ev.mac1)]
    case DeviceConnectCancelled => [SawDisconnected(ev.mac0, ev.mac1)]
    case _ => []
  }

  /** The next step of kvqmbt_read_event(&event, 1) or, to flush, kvqmbt_read_event(NULL, 0). */
  function NextMicro(d: Reader, want: int, c: Choice): Micro {
    match d
    case Away => ReadBegin(want, want < 1)
    case Loading(_, _) => LoadWrite
    case Storing(_, _) => StoreRead
    case Copying(_, _, copied) => if copied == ALL_FIELDS then Reload else TakeWord(c.word)
    case Committing(_, _, _) => Commit
    case Exporting(_, _, _) => Export(c.copyOk)
    case Returned(_) => Leave
  }

  function Noted(core: Ring, c: Choice): seq<Entry> {
    match core.reader
    case Storing(to, res) => [if res == Overflow then Overrun(core.r, to) else Flushed(core.r, to)]
    case Exporting(from, seen, got) => [if c.copyOk then Handled(from, seen, got) else CopyLost(from)]
    case _ => []
  }

  function Failing(core: Ring, c: Choice): seq<Failure> {
    if core.reader.Exporting? && !c.copyOk then [CopyFailed(core.reader.from)] else []
  }

  function ReadOn(wraps: bool, s: Sys, want: int, c: Choice): Sys {
    s.(core := ReaderStep(wraps, s.core, NextMicro(s.core.reader, want, c)),
       log := s.log + Noted(s.core, c),
       failures := s.failures + Failing(s.core, c))
  }

  lemma ReadOnFrame(s: Sys, want: int, c: Choice)
    ensures var t := ReadOn(false, s, want, c);
            && t == s.(core := t.core, log := s.log + Noted(s.core, c), failures := s.failures + Failing(s.core, c))
            && t.core == s.core.(r := t.core.r, reader := t.core.reader)
  {
    ReaderQuiet(false, s.core, NextMicro(s.core.reader, want, c));
  }

  /** fetch_events once kvqmbt_read_event has returned. */
  function Dispatch(s: Sys): Sys
    requires s.core.reader.Returned?
  {
    var t := s.(core := s.core.(reader := Away));
    match s.core.reader.outcome
    case Overflow => t.(phase := Flushing(ToDrain), iters := s.iters + 1)
    case Nothing => t.(phase := Waiting(true))
    case Got(ev) =>
      if Resets(ev.id) then t.(phase := Flushing(ToDrain), iters := s.iters + 1)
      else t.(requests := s.requests + RequestOf(ev), iters := s.iters + 1)
    case _ => t.(phase := Waiting(false))
  }

  function Resumed(next: Resume): Phase {
    if next.ToWait? then Waiting(true) else Draining
  }

  function StartDrain(s: Sys): Sys {
    s.(phase := Draining, drainFrom := s.core.r, drainW := |s.core.emitted|, iters := 0)
  }

  function Awakened(s: Sys, wake: Wake): Sys {
    match wake
    case Signalled => if s.core.flag then StartDrain(s.(core := s.core.(flag := false))) else s
    case TimedOut => StartDrain(s)
    case _ => s.(phase := Stopped)
  }

  /** The end of reset: the snapshot call has answered. */
  function Concluded(s: Sys, table: Option<Snapshot>): Sys
    requires s.phase.Querying?
  {
    match table
    case None => s.(phase := Resumed(s.phase.next), failures := s.failures + [SnapshotFailed(|s.log|)])
    case Some(devices) =>
      s.(phase := Resumed(s.phase.next), mark := s.phase.mark,
         requests := s.requests + [BulkUpdate(s.phase.on, |devices|, devices)],
         base := |s.requests| + 1, logBase := |s.log|, failures := [])
  }

  /** One step of the event thread. */
  function ThreadStep(wraps: bool, s: Sys, c: Choice): Sys {
    match s.phase
    case Stopped => s
    case Waiting(_) => Awakened(s, c.wake)
    case Draining => if s.core.reader.Returned? then Dispatch(s) else ReadOn(wraps, s, 1, c)
    case Flushing(next) =>
      if s.core.reader.Returned? then s.(core := s.core.(reader := Away), phase := Snapshotting(next))
      else ReadOn(wraps, s, 0, c)
    case Snapshotting(next) => s.(phase := Querying(next, |s.core.emitted|, c.on))
    case Querying(_, _, _) => Concluded(s, c.table)
  }

  /** One action of anybody. */
  function Act(wraps: bool, s: Sys, a: Action): Sys {
    match a
    case Reading(u) =>
      if !s.core.prod.Resting? then s
      else s.(upstream := s.upstream + [u],
              core := if Emission(u) == [] then s.core else ProducerStep(wraps, s.core, EmitBegin(Emission(u)[0])))
    case Fill(f) => s.(core := ProducerStep(wraps, s.core, FillWord(f)))
    case Published => s.(core := ProducerStep(wraps, s.core, Publish))
    case Signal(ok) =>
      s.(core := ProducerStep(wraps, s.core, Notify(ok)),
         silent := s.silent + if s.core.prod.Notifying? && !ok then 1 else 0)
    case Whole(u, ok) =>
      if !s.core.prod.Resting? then s
      else s.(upstream := s.upstream + [u],
              core := if Emission(u) == [] then s.core else EmitEffect(wraps, s.core, Emission(u)[0], ok),
              silent := s.silent + if Emission(u) != [] && !ok then 1 else 0)
    case Thread(c) => ThreadStep(wraps, s, c)
    case Press(req) => if req.ButtonPressed? then s.(requests := s.requests + [req]) else s
    case Open => if s.phase.Stopped? then s.(phase := Flushing(ToWait)) else s
  }

  function RunAll(wraps: bool, s: Sys, acts: seq<Action>): Sys {
    if acts == [] then s else Act(wraps, RunAll(wraps, s, acts[..|acts| - 1]), acts[|acts| - 1])
  }

  /** The state a schedule leads to from boot, with counters that never wrap. */
  function State(acts: seq<Action>): Sys {
    RunAll(false, SystemBoot(), acts)
  }

  // ----- The ring underneath -----

  /** What the thread's phase says about the call it is in. */
  ghost predicate PhaseInv(s: Sys) {
    match s.phase
    case Draining =>
      && (s.core.reader.Loading? ==> s.core.reader.want == 1)
      && (s.core.reader.Storing? ==> s.core.reader.result == Overflow)
    case Flushing(_) =>
      match s.core.reader {
        case Away => true
        case Loading(want, _) => want == 0
        case Storing(_, result) => result == Nothing
        case Returned(res) => res == Nothing
        case _ => false
      }
    case _ => s.core.reader.Away?
  }

  ghost predicate InFlight(s: Sys) {
    Emissions(s.upstream) == if s.core.prod.Filling? then s.core.emitted + [s.core.prod.ev] else s.core.emitted
  }

  ghost predicate BaseInv(s: Sys) {
    Inv(s.core) && PhaseInv(s) && InFlight(s)
  }

  lemma WholeKeepsInv(c: Ring, ev: Event, ok: bool)
    requires Inv(c) && c.prod.Resting? && ev.id != NoEvent
    ensures Inv(EmitEffect(false, c, ev, ok))
  {
    EmitCallEffect(false, c, ev, ok);
    RunKeepsInv(c, EmitCall(ev, ok));
  }

  lemma WaitKeepsInv(c: Ring)
    requires Inv(c)
    ensures Inv(c.(flag := false))
  {
    var d: Ring := c.(flag := false);
    forall i, f | 0 <= i < |d.emitted| && |d.emitted| - RING <= i ensures SlotWord(d, i, f) {
      assert SlotWord(c, i, f);
    }
    assert d.reader == c.reader;
    SameReaderInv(c, d);
  }

  lemma SameReaderInv(c: Ring, d: Ring)
    requires ReaderInv(c) && d == c.(flag := d.flag)
    ensures ReaderInv(d)
  {
    match c.reader
    case Copying(from, got, copied) =>
      forall f | f in copied ensures Copied(d, from, got, f) {
        assert Copied(c, from, got, f);
      }
    case Committing(from, seen, got) =>
      SameProvenance(c, d, from, seen, got);
    case Exporting(from, seen, got) =>
      SameProvenance(c, d, from, seen, got);
    case _ =>
  }

  lemma EmissionsGrow(us: seq<Upstream>, u: Upstream)
    ensures Emissions(us + [u]) == Emissions(us) + Emission(u)
  {
    assert (us + [u])[..|us|] == us;
  }

  /** The thread touches the shared memory only by the read syscall's steps and by
      clearing the flag. */
  ghost predicate ReaderMoves(c: Ring, d: Ring, ch: Choice) {
    || d == c
    || d == c.(flag := false)
    || d == ReaderStep(false, c, Leave)
    || d == ReaderStep(false, c, NextMicro(c.reader, 1, ch))
    || d == ReaderStep(false, c, NextMicro(c.reader, 0, ch))
  }

  lemma ThreadCore(s: Sys, c: Choice)
    ensures ReaderMoves(s.core, ThreadStep(false, s, c).core, c)
  {
    match s.phase
    case Draining => if s.core.reader.Returned? { DispatchCore(s); }
    case _ =>
  }

  lemma DispatchCore(s: Sys)
    requires s.core.reader.Returned?
    ensures Dispatch(s).core == s.core.(reader := Away)
  {
  }

  /** The thread is inside the read syscall. */
  predicate InSyscall(s: Sys) {
    (s.phase.Draining? || s.phase.Flushing?) && !s.core.reader.Returned?
  }

  /** Outside the syscall the thread settles nothing. */
  lemma ElsewhereQuiet(s: Sys, c: Choice)
    requires !InSyscall(s)
    ensures var t := ThreadStep(false, s, c);
            && t.log == s.log
            && (t.core == s.core.(flag := t.core.flag) || (s.core.reader.Returned? && t.core == s.core.(reader := Away)))
  {
    match s.phase
    case Draining => DispatchCore(s);
    case _ =>
  }

  lemma ThreadKeepsInv(s: Sys, c: Choice)
    requires Inv(s.core)
    ensures Inv(ThreadStep(false, s, c).core)
  {
    ThreadCore(s, c);
    WaitKeepsInv(s.core);
    ReaderKeepsInv(s.core, Leave);
    ReaderKeepsInv(s.core, NextMicro(s.core.reader, 1, c));
    ReaderKeepsInv(s.core, NextMicro(s.core.reader, 0, c));
  }

  lemma ThreadKeepsPhase(s: Sys, c: Choice)
    requires PhaseInv(s)
    ensures PhaseInv(ThreadStep(false, s, c))
  {
  }

  lemma ThreadKeepsProducer(s: Sys, c: Choice)
    ensures var t := ThreadStep(false, s, c);
            t.upstream == s.upstream && t.core.prod == s.core.prod && t.core.emitted == s.core.emitted
  {
    match s.phase
    case Draining =>
      if s.core.reader.Returned? {
        DispatchCore(s);
      } else {
        ReaderQuiet(false, s.core, NextMicro(s.core.reader, 1, c));
      }
    case Flushing(_) => ReaderQuiet(false, s.core, NextMicro(s.core.reader, 0, c));
    case _ =>
  }

  lemma ProducerActKeepsInv(s: Sys, a: Action)
    requires Inv(s.core) && !a.Thread?
    ensures Inv(Act(false, s, a).core)
  {
    match a
    case Reading(u) =>
      if Emission(u) != [] {
        ProducerKeepsInv(s.core, EmitBegin(Emission(u)[0]));
      }
    case Whole(u, ok) =>
      if s.core.prod.Resting? && Emission(u) != [] {
        WholeKeepsInv(s.core, Emission(u)[0], ok);
      }
    case Fill(f) => ProducerKeepsInv(s.core, FillWord(f));
    case Published => ProducerKeepsInv(s.core, Publish);
    case Signal(ok) => ProducerKeepsInv(s.core, Notify(ok));
    case _ =>
  }

  lemma ProducerActKeepsPhase(s: Sys, a: Action)
    requires PhaseInv(s) && !a.Thread?
    ensures PhaseInv(Act(false, s, a))
    ensures a.Open? || Act(false, s, a).phase == s.phase
    ensures Act(false, s, a).core.reader == s.core.reader && Act(false, s, a).core.r == s.core.r
  {
  }

  lemma UpstreamKeepsInFlight(s: Sys, u: Upstream, a: Action)
    requires InFlight(s) && (a == Reading(u) || exists ok :: a == Whole(u, ok))
    ensures InFlight(Act(false, s, a))
  {
    var es := Emission(u);
    EmissionsGrow(s.upstream, u);
    if s.core.prod.Resting? {
      if es == [] {
        assert s.core.emitted + es == s.core.emitted;
      } else {
        assert es == [es[0]];
      }
    }
  }

  lemma ProducerActKeepsInFlight(s: Sys, a: Action)
    requires InFlight(s) && !a.Thread?
    ensures InFlight(Act(false, s, a))
  {
    if a.Reading? || a.Whole? {
      UpstreamKeepsInFlight(s, a.u, a);
    }
  }

  lemma ActKeepsBase(s: Sys, a: Action)
    requires BaseInv(s)
    ensures BaseInv(Act(false, s, a))
  {
    if a.Thread? {
      ThreadKeepsInv(s, a.c);
      ThreadKeepsPhase(s, a.c);
      ThreadKeepsProducer(s, a.c);
    } else {
      ProducerActKeepsInv(s, a);
      ProducerActKeepsPhase(s, a);
      ProducerActKeepsInFlight(s, a);
    }
  }

  lemma {:induction false} RunKeepsBase(acts: seq<Action>)
    ensures BaseInv(State(acts))
  {
    if acts == [] {
      BootInv();
    } else {
      RunKeepsBase(acts[..|acts| - 1]);
      ActKeepsBase(State(acts[..|acts| - 1]), acts[|acts| - 1]);
    }
  }
}
