/** The system's guarantees over every schedule. */
module EventLoopTheorems {
  import opened Vqmbt
  import opened Channel
  import opened ChannelTheorems
  import opened BtEvent
  import opened QmState
  import opened EventLoop
  import opened EventLoopHistory
  import opened EventLoopSnapshot
  import opened MenuRuns

  // ----- Conservation and order -----

  /** In every reachable state the emitted indices are cut, in order and without gap or
      overlap, into handled, overrun, flushed and copy-lost stretches, at most one event in
      the thread's hands, and the pending ones from the read index to the write index. */
  lemma Conservation(acts: seq<Action>, i: int) returns (k: nat)
    requires 0 <= i < Settled(State(acts).core)
    ensures var s := State(acts);
            && Tiles(s.log, Settled(s.core))
            && Settled(s.core) <= s.core.r <= s.core.w == |s.core.emitted|
            && k < |s.log| && Lo(s.log[k]) <= i < Hi(s.log[k])
            && (forall j :: 0 <= j < |s.log| && Lo(s.log[j]) <= i < Hi(s.log[j]) ==> j == k)
            && (s.log[k].Overrun? ==> Hi(s.log[k]) - Lo(s.log[k]) >= 17)
  {
    var s := State(acts);
    AlwaysTiles(acts);
    k := EntryOf(s.log, Settled(s.core), i);
    assert Fits(s.log, k);
  }

  /** Events are handled in order, each at most once, and between two handled events that
      are not neighbours something was recorded as overrun, flushed or lost in copying. */
  lemma HandledInOrder(acts: seq<Action>, j: nat, k: nat)
    requires var s := State(acts); j < k < |s.log| && s.log[j].Handled? && s.log[k].Handled?
    ensures var s := State(acts);
            && s.log[j].at < s.log[k].at
            && ((forall m :: j < m < k ==> !s.log[m].Handled?) ==> (s.log[k].at == s.log[j].at + 1 <==> k == j + 1))
  {
    var s := State(acts);
    AlwaysTiles(acts);
    EntriesOrdered(s.log, Settled(s.core), j, k);
    assert Fits(s.log, j + 1) && Fits(s.log, k);
    if j + 1 < k {
      EntriesOrdered(s.log, Settled(s.core), j + 1, k);
    }
  }

  /** Under any interleaving, down to single words, a handled event is the one emitted if
      its recheck saw a lag below 16; at lag 16 each word is its own or that of the event 16
      later, and its id is always a real one. */
  lemma HandledProvenance(acts: seq<Action>, k: nat)
    requires k < |State(acts).log| && State(acts).log[k].Handled?
    ensures var s := State(acts);
            Provenance(s.core, s.log[k].at, s.log[k].seen, s.log[k].ev)
  {
    RunKeepsSysInv(acts);
  }

  // ----- No silent loss -----

  /** The thread is about to read the next event, or waits. */
  predicate Between(s: Sys) {
    s.core.reader.Away? && (s.phase.Waiting? || s.phase.Draining?)
  }

  predicate HandledIn(s: Sys, k: int, i: int) {
    0 <= k < |s.log| && s.log[k].Handled? && s.log[k].at == i
  }

  ghost predicate HandledAt(s: Sys, i: int) {
    exists k :: HandledIn(s, k, i)
  }

  /** Event i was passed to the handler, with no word that is not its own or that of the
      event 16 later. */
  ghost predicate PassedOn(s: Sys, i: int) {
    exists k :: HandledIn(s, k, i) && Provenance(s.core, i, s.log[k].seen, s.log[k].ev)
  }

  /** Event i was passed to the handler exactly as emitted. */
  ghost predicate HandledExactly(s: Sys, i: int)
    requires 0 <= i < |s.core.emitted|
  {
    exists k :: HandledIn(s, k, i) && s.log[k].ev == s.core.emitted[i]
  }

  /** Entry k handled its event exactly as emitted. */
  predicate EntryAsEmitted(log: seq<Entry>, emitted: seq<Event>, k: int)
    requires 0 <= k < |log|
  {
    log[k].Handled? && 0 <= log[k].at < |emitted| && log[k].ev == emitted[log[k].at]
  }

  ghost predicate HandledAsEmitted(s: Sys, k: int)
    requires 0 <= k < |s.log|
  {
    EntryAsEmitted(s.log, s.core.emitted, k)
  }

  /** Entry k was read at a lag below 16. */
  predicate ReadBelowRing(s: Sys, k: int) {
    0 <= k < |s.log| && s.log[k].Handled? ==> s.log[k].seen - s.log[k].at < RING
  }

  /** Every emit is one step, or the read of event i saw a lag below 16. */
  ghost predicate ReadClear(acts: seq<Action>, i: int) {
    Atomic(acts) || forall k :: HandledIn(State(acts), k, i) ==> ReadBelowRing(State(acts), k)
  }

  /** Every emit is one step, or every read since the last snapshot saw a lag below 16. */
  ghost predicate ClearSinceSnapshot(acts: seq<Action>) {
    Atomic(acts) || forall k :: State(acts).logBase <= k < |State(acts).log| ==> ReadBelowRing(State(acts), k)
  }

  lemma ClearIsExact(acts: seq<Action>, k: nat)
    requires k < |State(acts).log| && State(acts).log[k].Handled?
    requires Atomic(acts) || ReadBelowRing(State(acts), k)
    ensures HandledAsEmitted(State(acts), k)
  {
    if Atomic(acts) {
      RunKeepsExact(acts);
    } else {
      AlwaysProven(acts);
      BelowRingIsExact(State(acts), k);
    }
  }

  lemma BelowRingIsExact(s: Sys, k: nat)
    requires LogProven(s) && k < |s.log| && s.log[k].Handled? && ReadBelowRing(s, k)
    ensures HandledAsEmitted(s, k)
  {
    assert Provenance(s.core, s.log[k].at, s.log[k].seen, s.log[k].ev);
  }

  lemma BeforeSnapshot(s: Sys, k: nat)
    requires Tiles(s.log, Settled(s.core)) && MarkInv(s) && k < s.logBase
    ensures Hi(s.log[k]) <= s.mark
  {
    if k < s.logBase - 1 {
      EntriesOrdered(s.log, Settled(s.core), k, s.logBase - 1);
      assert Fits(s.log, s.logBase - 1);
    }
  }

  /** With no failed call since the last snapshot, what only a snapshot can make good ended
      before that snapshot began. */
  lemma NothingOwed(s: Sys, k: nat)
    requires Tiles(s.log, Settled(s.core)) && CoverInv(s) && MarkInv(s)
    requires s.failures == [] && !Pending(s) && k < |s.log| && NeedsSnapshot(s.log[k])
    ensures k < s.logBase && Hi(s.log[k]) <= s.mark
  {
    assert s.logBase <= k ==> Explained(s, k);
    BeforeSnapshot(s, k);
  }

  /** In every interleaving: if no copy or snapshot has failed since the last snapshot was
      applied, every event below the read index was passed to the handler or was emitted
      before that snapshot began, whatever failed earlier. If its read saw a lag below 16, or
      each emit is one step, what was passed is exactly what was emitted. */
  lemma NoSilentLoss(acts: seq<Action>, i: int)
    requires State(acts).failures == [] && Between(State(acts)) && 0 <= i < State(acts).core.r
    ensures i < |State(acts).core.emitted|
    ensures PassedOn(State(acts), i) || i < State(acts).mark
    ensures ReadClear(acts, i) ==> HandledExactly(State(acts), i) || i < State(acts).mark
  {
    AlwaysTiles(acts);
    AlwaysCovered(acts);
    AlwaysProven(acts);
    var k := PassedOrCovered(State(acts), i);
    if State(acts).mark <= i && ReadClear(acts, i) {
      ClearIsExact(acts, k);
      assert HandledIn(State(acts), k, i) && State(acts).log[k].ev == State(acts).core.emitted[i];
    }
  }

  lemma PassedOrCovered(s: Sys, i: int) returns (k: nat)
    requires s.failures == [] && Between(s) && 0 <= i < s.core.r
    requires Tiles(s.log, Settled(s.core)) && CoverInv(s) && MarkInv(s) && LogProven(s)
    ensures k < |s.log| && Lo(s.log[k]) <= i < Hi(s.log[k])
    ensures i < s.mark || (HandledIn(s, k, i) && !NeedsSnapshot(s.log[k]))
    ensures PassedOn(s, i) || i < s.mark
  {
    k := EntryOf(s.log, Settled(s.core), i);
    if NeedsSnapshot(s.log[k]) {
      NothingOwed(s, k);
    } else {
      assert Provenance(s.core, i, s.log[k].seen, s.log[k].ev);
      assert HandledIn(s, k, i);
    }
  }

  // ----- What is lost silently, exactly -----

  predicate DiscardedIn(log: seq<Entry>, k: int, i: int) {
    0 <= k < |log| && (log[k].Overrun? || log[k].Flushed?) && Lo(log[k]) <= i < Hi(log[k])
  }

  /** The failed call is to blame for event i: it was the copy of i, or the snapshot that
      should have made good the stretch i was discarded in. */
  ghost predicate Loses(s: Sys, f: Failure, i: int) {
    match f
    case CopyFailed(at) => at == i
    case SnapshotFailed(noted) => exists k :: k < noted && DiscardedIn(s.log, k, i)
  }

  /** In every interleaving, whenever no reset is under way, an event the read index has
      passed and that was emitted since the last snapshot applied began is not handled
      exactly when a call that failed since then lost it. */
  lemma SilentLossAt(acts: seq<Action>, i: int)
    requires !Pending(State(acts)) && 0 <= i < Settled(State(acts).core) && State(acts).mark <= i
    ensures !HandledAt(State(acts), i) <==> exists f :: f in State(acts).failures && Loses(State(acts), f, i)
  {
    AlwaysTiles(acts);
    AlwaysCovered(acts);
    LossAt(State(acts), i);
  }

  lemma LossAt(s: Sys, i: int)
    requires Tiles(s.log, Settled(s.core)) && CoverInv(s) && MarkInv(s)
    requires !Pending(s) && 0 <= i < Settled(s.core) && s.mark <= i
    ensures !HandledAt(s, i) <==> exists f :: f in s.failures && Loses(s, f, i)
  {
    var k := EntryOf(s.log, Settled(s.core), i);
    if s.log[k].Handled? {
      assert HandledIn(s, k, i);
      forall f | f in s.failures ensures !Loses(s, f, i) {
        NotLost(s, f, k, i);
      }
    } else {
      if k < s.logBase {
        BeforeSnapshot(s, k);
      }
      assert Explained(s, k);
      var f := Culprit(s, k, i);
    }
  }

  lemma NotLost(s: Sys, f: Failure, k: nat, i: int)
    requires Recorded(s.log, f) && HandledIn(s, k, i)
    requires forall j :: 0 <= j < |s.log| && Lo(s.log[j]) <= i < Hi(s.log[j]) ==> j == k
    ensures !Loses(s, f, i)
  {
    if f.CopyFailed? {
      var j :| 0 <= j < |s.log| && s.log[j] == CopyLost(f.at);
    }
  }

  lemma Culprit(s: Sys, k: nat, i: int) returns (f: Failure)
    requires k < |s.log| && !s.log[k].Handled? && Lo(s.log[k]) <= i < Hi(s.log[k])
    requires Blamed(s.failures, s.log[k], k)
    ensures f in s.failures && Loses(s, f, i)
  {
    if s.log[k].CopyLost? {
      f := CopyFailed(i);
    } else {
      var noted: nat :| k < noted && SnapshotFailed(noted) in s.failures;
      f := SnapshotFailed(noted);
      assert DiscardedIn(s.log, k, i);
    }
  }

  /** The failed call costs something: it was the copy of an event the last snapshot applied
      does not cover, or a snapshot after an overrun or flush of such an event. */
  ghost predicate Costs(s: Sys, f: Failure) {
    match f
    case CopyFailed(at) => s.mark <= at
    case SnapshotFailed(noted) => exists k :: k < noted && DiscardedPast(s, k)
  }

  predicate DiscardedPast(s: Sys, k: int) {
    0 <= k < |s.log| && (s.log[k].Overrun? || s.log[k].Flushed?) && s.mark < Hi(s.log[k])
  }

  /** In every interleaving, and with any calls failing: whenever no reset is under way,
      nothing is lost silently if and only if no call that failed since the last snapshot was
      applied was the copy of an event as late as that snapshot's beginning, or a snapshot
      after such an event was overrun or flushed. */
  lemma SilentLossExactly(acts: seq<Action>)
    requires !Pending(State(acts))
    ensures (forall i :: 0 <= i < Settled(State(acts).core) ==> HandledAt(State(acts), i) || i < State(acts).mark)
            <==> (forall f :: f in State(acts).failures ==> !Costs(State(acts), f))
  {
    AlwaysTiles(acts);
    AlwaysCovered(acts);
    LossExactly(State(acts));
  }

  ghost predicate NothingLost(s: Sys) {
    forall i :: 0 <= i < Settled(s.core) ==> HandledAt(s, i) || i < s.mark
  }

  lemma LossExactly(s: Sys)
    requires Tiles(s.log, Settled(s.core)) && CoverInv(s) && MarkInv(s) && !Pending(s)
    ensures NothingLost(s) <==> forall f :: f in s.failures ==> !Costs(s, f)
  {
    if f :| f in s.failures && Costs(s, f) {
      var i := LostTo(s, f);
      LossAt(s, i);
    } else {
      forall i | 0 <= i < Settled(s.core) ensures HandledAt(s, i) || i < s.mark {
        if s.mark <= i {
          LossAt(s, i);
          if f :| f in s.failures && Loses(s, f, i) {
            LosingCosts(s, f, i);
          }
        }
      }
    }
  }

  lemma LosingCosts(s: Sys, f: Failure, i: int)
    requires Loses(s, f, i) && s.mark <= i
    ensures Costs(s, f)
  {
    if f.SnapshotFailed? {
      var k :| k < f.noted && DiscardedIn(s.log, k, i);
      assert DiscardedPast(s, k);
    }
  }

  /** An event that a costly failure lost. */
  lemma LostTo(s: Sys, f: Failure) returns (i: int)
    requires Tiles(s.log, Settled(s.core)) && Recorded(s.log, f) && Costs(s, f)
    ensures s.mark <= i && 0 <= i < Settled(s.core) && Loses(s, f, i)
  {
    match f
    case CopyFailed(at) =>
      i := at;
      var k :| 0 <= k < |s.log| && s.log[k] == CopyLost(at);
      EntriesEnd(s.log, Settled(s.core), k);
      StartsAtZero(s.log, Settled(s.core), k);
    case SnapshotFailed(noted) =>
      var k :| k < noted && DiscardedPast(s, k);
      i := Hi(s.log[k]) - 1;
      EntriesEnd(s.log, Settled(s.core), k);
      StartsAtZero(s.log, Settled(s.core), k);
      assert Fits(s.log, k);
      assert DiscardedIn(s.log, k, i);
  }

  /** In every interleaving, whenever no reset is under way: an event that was handled by a
      reset is covered by the last snapshot applied, or the snapshot of a reset after it failed. */
  lemma ResetIsFollowed(acts: seq<Action>, k: nat)
    requires !Pending(State(acts)) && k < |State(acts).log|
    requires State(acts).log[k].Handled? && Resets(State(acts).log[k].ev.id)
    ensures State(acts).log[k].at < State(acts).mark || SnapshotFailedAfter(State(acts).failures, k)
  {
    AlwaysTiles(acts);
    AlwaysCovered(acts);
    FollowedOrBlamed(State(acts), k);
  }

  lemma FollowedOrBlamed(s: Sys, k: nat)
    requires Tiles(s.log, Settled(s.core)) && CoverInv(s) && MarkInv(s) && !Pending(s)
    requires k < |s.log| && NeedsSnapshot(s.log[k])
    ensures Hi(s.log[k]) <= s.mark || Blamed(s.failures, s.log[k], k)
  {
    if k < s.logBase {
      BeforeSnapshot(s, k);
    } else {
      assert Explained(s, k);
    }
  }

  lemma StartsAtZero(log: seq<Entry>, n: int, k: nat)
    requires Tiles(log, n) && k < |log|
    ensures 0 <= Lo(log[k])
  {
    assert Fits(log, 0);
    if k > 0 {
      EntriesOrdered(log, n, 0, k);
    }
  }

  // ----- What the stack reported -----

  /** Event i was handled at lag 16, with the id of the event 16 later, and not as a reset. */
  ghost predicate TornAway(s: Sys, i: int) {
    exists k :: HandledIn(s, k, i) && s.log[k].seen == i + RING
                && WordOf(s.core, i + RING, s.log[k].ev, IdWord) && !Resets(s.log[k].ev.id)
  }

  /** In every interleaving, with no failed call since the last snapshot applied: the event of
      upstream reading j was passed to the handler or is covered by that snapshot, and a loss
      the stack reported is covered by a snapshot begun after the report was emitted, unless
      the report itself was torn at lag 16. Below lag 16, or with each emit one step, there
      is no exception. */
  lemma UpstreamIsCovered(acts: seq<Action>, j: nat)
    requires State(acts).failures == [] && Between(State(acts))
    requires j < |State(acts).upstream| && Emission(State(acts).upstream[j]) != []
    requires |Emissions(State(acts).upstream[..j])| < State(acts).core.r
    ensures var s := State(acts);
            var i := |Emissions(s.upstream[..j])|;
            && i < |s.core.emitted| && s.core.emitted[i] == Emission(s.upstream[j])[0]
            && (PassedOn(s, i) || i < s.mark)
            && (ReadClear(acts, i) ==> HandledExactly(s, i) || i < s.mark)
            && (s.upstream[j].Lost? ==> i < s.mark || TornAway(s, i))
            && (s.upstream[j].Lost? && ReadClear(acts, i) ==> i < s.mark)
  {
    var i := |Emissions(State(acts).upstream[..j])|;
    AlwaysTiles(acts);
    AlwaysTold(acts);
    ReadingIsEmitted(State(acts), j);
    NoSilentLoss(acts, i);
    if State(acts).upstream[j].Lost? {
      ResetEventIsCovered(acts, i);
    }
  }

  lemma ReadingIsEmitted(s: Sys, j: nat)
    requires InFlight(s) && j < |s.upstream| && Emission(s.upstream[j]) != []
    requires |Emissions(s.upstream[..j])| < |s.core.emitted|
    ensures s.core.emitted[|Emissions(s.upstream[..j])|] == Emission(s.upstream[j])[0]
  {
    var i, n := |Emissions(s.upstream[..j])|, |Emission(s.upstream[j])|;
    EmissionAt(s.upstream, j);
    assert Emissions(s.upstream)[i] == Emissions(s.upstream)[i..i + n][0];
  }

  /** An event whose handling is a reset is older than the last snapshot, or was torn. */
  lemma ResetEventIsCovered(acts: seq<Action>, i: int)
    requires State(acts).failures == [] && Between(State(acts)) && 0 <= i < State(acts).core.r
    requires i < |State(acts).core.emitted| && Resets(State(acts).core.emitted[i].id)
    ensures i < State(acts).mark || TornAway(State(acts), i)
    ensures ReadClear(acts, i) ==> i < State(acts).mark
  {
    AlwaysTiles(acts);
    AlwaysCovered(acts);
    AlwaysProven(acts);
    var k := PassedOrCovered(State(acts), i);
    if State(acts).mark <= i {
      NotAReset(State(acts), k, i);
      if ReadClear(acts, i) {
        ClearIsExact(acts, k);
      }
    }
  }

  lemma NotAReset(s: Sys, k: nat, i: int)
    requires LogProven(s) && HandledIn(s, k, i) && !NeedsSnapshot(s.log[k])
    requires 0 <= i < |s.core.emitted| && Resets(s.core.emitted[i].id)
    ensures TornAway(s, i)
  {
    assert Provenance(s.core, i, s.log[k].seen, s.log[k].ev);
    assert WordOf(s.core, i, s.log[k].ev, IdWord) || WordOf(s.core, i + RING, s.log[k].ev, IdWord);
  }

  // ----- No lost wakeup -----

  /** While the thread waits after a drain that ended on an empty ring, a non-empty ring means
      that the flag is set or the producer is just about to set it (flag calls succeeding). */
  lemma NoLostWakeup(acts: seq<Action>)
    requires State(acts).silent == 0 && State(acts).phase == Waiting(true)
    ensures State(acts).core.w != State(acts).core.r ==> State(acts).core.flag || State(acts).core.prod.Notifying?
  {
    RunKeepsSysInv(acts);
  }

  // ----- Termination of the drain -----

  /** During one run of fetch_events, the iterations that went round the loop number at most
      the events emitted by now less the read index when it began; the read index
      never falls and never passes the write index. */
  lemma DrainBound(acts: seq<Action>, a: Action)
    requires InDrain(State(acts).phase)
    ensures var s := State(acts);
            && s.iters <= |s.core.emitted| - s.drainFrom
            && s.drainFrom <= s.drainW <= |s.core.emitted|
            && s.core.r <= Act(false, s, a).core.r <= Act(false, s, a).core.w
  {
    var s := State(acts);
    RunKeepsSysInv(acts);
    ActKeepsBase(s, a);
    if a.Thread? {
      ReadIndexRises(s, a.c);
    } else {
      ProducerActQuiet(s, a);
    }
  }

  // ----- What the menu is told -----

  /** The presses among some requests, in order. */
  function Presses(reqs: seq<Req>): seq<Req> {
    if reqs == [] then []
    else
      var last := reqs[|reqs| - 1];
      Presses(reqs[..|reqs| - 1]) + if last.ButtonPressed? then [last] else []
  }

  /** The presses the user made in a run, in order. */
  function PressesMade(acts: seq<Action>): seq<Req> {
    if acts == [] then []
    else
      var last := acts[|acts| - 1];
      PressesMade(acts[..|acts| - 1]) + if last.Press? && last.req.ButtonPressed? then [last.req] else []
  }

  lemma PressesAppend(reqs: seq<Req>, more: seq<Req>)
    requires |more| <= 1
    ensures Presses(reqs + more) == Presses(reqs) + if |more| == 1 && more[0].ButtonPressed? then more else []
  {
    if |more| == 1 {
      assert (reqs + more)[..|reqs|] == reqs;
    } else {
      assert reqs + more == reqs;
    }
  }

  /** What one action of anybody asks of the menu. */
  lemma ActAsks(s: Sys, a: Action) returns (more: seq<Req>)
    ensures Act(false, s, a).requests == s.requests + more && |more| <= 1
    ensures |more| == 1 && more[0].ButtonPressed? <==> a.Press? && a.req.ButtonPressed?
    ensures a.Press? && a.req.ButtonPressed? ==> more == [a.req]
  {
    more := [];
    match a
    case Press(req) => if req.ButtonPressed? { more := [req]; }
    case Thread(c) => more := ThreadAsks(s, c);
    case _ => ProducerActQuiet(s, a);
  }

  lemma ThreadAsks(s: Sys, c: Choice) returns (more: seq<Req>)
    ensures ThreadStep(false, s, c).requests == s.requests + more && |more| <= 1
    ensures |more| == 1 ==> !more[0].ButtonPressed?
  {
    more := [];
    if InSyscall(s) {
      ReadOnFrame(s, if s.phase.Draining? then 1 else 0, c);
    } else if s.phase.Draining? {
      if s.core.reader.outcome.Got? && !Resets(s.core.reader.outcome.ev.id) {
        more := RequestOf(s.core.reader.outcome.ev);
      }
    } else if s.phase.Querying? && c.table.Some? {
      more := [BulkUpdate(s.phase.on, |c.table.value|, c.table.value)];
    } else if s.phase.Waiting? {
      AwakenedQuiet(s, c.wake);
    }
  }

  /** In every run, each press the user makes reaches the menu, once and in order. */
  lemma {:induction false} PressesReachMenu(acts: seq<Action>)
    ensures Presses(State(acts).requests) == PressesMade(acts)
  {
    if acts != [] {
      var rest := acts[..|acts| - 1];
      PressesReachMenu(rest);
      var more := ActAsks(State(rest), acts[|acts| - 1]);
      PressesAppend(State(rest).requests, more);
    }
  }

  /** The requests a stretch of events asks for, one after another. */
  function RequestsFor(es: seq<Event>): seq<Req> {
    if es == [] then [] else RequestsFor(es[..|es| - 1]) + RequestOf(es[|es| - 1])
  }

  /** Entries that handled these events ask for these events' requests. */
  lemma {:induction false} SameEventsSameRequests(entries: seq<Entry>, es: seq<Event>)
    requires |entries| == |es| && forall k :: 0 <= k < |es| ==> entries[k].Handled? && entries[k].ev == es[k]
    ensures HandledRequests(entries) == RequestsFor(es)
  {
    if es != [] {
      SameEventsSameRequests(entries[..|es| - 1], es[..|es| - 1]);
    }
  }

  /** Consecutive handled entries handled consecutive events. */
  lemma {:induction false} HandledIndices(log: seq<Entry>, n: int, from: nat, k: nat)
    requires Tiles(log, n) && from <= k <= |log| && forall j :: from <= j < k ==> log[j].Handled?
    ensures StartOf(log, n, k) == StartOf(log, n, from) + (k - from)
    decreases k
  {
    if from < k {
      HandledIndices(log, n, from, k - 1);
      StretchEnd(log, n, k);
    }
  }

  /** A stretch of entries up to the end that all handled their event as emitted asks the menu
      for exactly the requests of those events. */
  lemma HandledStretch(log: seq<Entry>, emitted: seq<Event>, n: int, from: nat)
    requires Tiles(log, n) && 0 <= n <= |emitted| && from <= |log|
    requires forall k :: from <= k < |log| ==> EntryAsEmitted(log, emitted, k)
    ensures 0 <= StartOf(log, n, from) <= n
    ensures HandledRequests(log[from..|log|]) == RequestsFor(emitted[StartOf(log, n, from)..n])
  {
    var lo := StartOf(log, n, from);
    StartInRange(log, n, from);
    assert forall j :: from <= j < |log| ==> EntryAsEmitted(log, emitted, j) ==> log[j].Handled?;
    HandledIndices(log, n, from, |log|);
    var entries, es := log[from..|log|], emitted[lo..n];
    forall k | 0 <= k < |es| ensures entries[k].Handled? && entries[k].ev == es[k] {
      assert EntryAsEmitted(log, emitted, from + k);
      HandledIndices(log, n, from, from + k);
    }
    SameEventsSameRequests(entries, es);
  }

  lemma StartInRange(log: seq<Entry>, n: int, k: nat)
    requires Tiles(log, n) && 0 <= n && k <= |log|
    ensures 0 <= StartOf(log, n, k) <= n
  {
    if k < |log| {
      StartsAtZero(log, n, k);
      EntriesEnd(log, n, k);
      assert Fits(log, k);
    }
  }

  lemma StretchEnd(log: seq<Entry>, n: int, upto: nat)
    requires Tiles(log, n) && 0 < upto <= |log|
    ensures StartOf(log, n, upto) == Hi(log[upto - 1])
  {
    if upto < |log| {
      assert Fits(log, upto);
    }
  }

  /** The composition, in every interleaving: when no call has failed since the last snapshot
      was applied, the menu's requests are some past, then the bulk update of what that snapshot
      was answered, then (presses aside) exactly the requests of every event from the one the
      snapshot's flush came up to, up to the read index, in order. Nothing before the snapshot is
      missing from it, nothing after it is missing from the requests, and nothing its flush passed
      is told again. */
  lemma SinceSnapshot(acts: seq<Action>) returns (lo: nat, taken: Taken)
    requires State(acts).failures == [] && Between(State(acts)) && ClearSinceSnapshot(acts)
    ensures LastReset(acts, taken)
    ensures var s := State(acts);
            && 0 < s.base <= |s.requests|
            && s.requests[s.base - 1] == BulkUpdate(taken.on, |taken.devices|, taken.devices)
            && lo == |State(acts[..taken.flush]).core.emitted|
            && lo <= s.core.r <= |s.core.emitted| && lo <= s.mark
            && NotPresses(s.requests[s.base..]) == RequestsFor(s.core.emitted[lo..s.core.r])
  {
    AtRest(acts);
    taken := SnapshotIsAnswered(acts);
    var s := State(acts);
    HandledStretch(s.log, s.core.emitted, s.core.r, s.logBase);
    lo := StartOf(s.log, s.core.r, s.logBase);
  }

  /** The facts about the thread between two reads that the composition rests on. */
  lemma AtRest(acts: seq<Action>)
    requires State(acts).failures == [] && Between(State(acts)) && ClearSinceSnapshot(acts)
    ensures RestFacts(State(acts))
  {
    AlwaysTiles(acts);
    AlwaysCovered(acts);
    AlwaysTold(acts);
    forall k | State(acts).logBase <= k < |State(acts).log|
      ensures EntryAsEmitted(State(acts).log, State(acts).core.emitted, k)
    {
      if NeedsSnapshot(State(acts).log[k]) {
        NothingOwed(State(acts), k);
      }
      assert !Atomic(acts) ==> ReadBelowRing(State(acts), k);
      ClearIsExact(acts, k);
    }
    InvAtRest(State(acts));
  }

  ghost predicate RestFacts(s: Sys) {
    && Tiles(s.log, s.core.r) && 0 <= s.core.r <= |s.core.emitted| && s.logBase <= |s.log|
    && 0 < s.base <= |s.requests| && s.requests[s.base - 1].BulkUpdate?
    && (forall k :: s.logBase <= k < |s.log| ==> EntryAsEmitted(s.log, s.core.emitted, k))
    && NotPresses(s.requests[s.base..]) == HandledRequests(s.log[s.logBase..|s.log|])
    && StartOf(s.log, s.core.r, s.logBase) <= s.mark
  }

  lemma InvAtRest(s: Sys)
    requires s.failures == [] && Between(s)
    requires Tiles(s.log, Settled(s.core)) && 0 <= s.core.r <= |s.core.emitted|
    requires forall k :: s.logBase <= k < |s.log| ==> EntryAsEmitted(s.log, s.core.emitted, k)
    requires MarkInv(s) && SnapshotInv(s) && RequestInv(s)
    ensures RestFacts(s)
  {
    assert TailMatches(s.requests, s.base, s.log, s.logBase, |s.log|);
    StartBeforeMark(s);
  }

  lemma StartBeforeMark(s: Sys)
    requires Tiles(s.log, s.core.r) && MarkInv(s) && (s.log == [] ==> s.core.r == 0)
    ensures StartOf(s.log, s.core.r, s.logBase) <= s.mark
  {
    if s.logBase > 0 {
      StretchEnd(s.log, s.core.r, s.logBase);
    } else if s.log != [] {
      assert Fits(s.log, 0);
    }
  }

  /** End to end, in every interleaving: the addresses and button states on the menu are those
      of a menu that saw only the last snapshot and every event since, whatever was lost or
      failed before that snapshot, as long as Bluetooth has not been turned on again since, or
      no cached device state was out of date when the snapshot was applied. */
  lemma MenuIsCurrent(acts: seq<Action>) returns (lo: nat, taken: Taken, tail: seq<Req>)
    requires State(acts).failures == [] && Between(State(acts)) && ClearSinceSnapshot(acts)
    requires SnapshotTrusted(State(acts))
    ensures LastReset(acts, taken)
    ensures var s := State(acts);
            && lo == |State(acts[..taken.flush]).core.emitted|
            && lo <= s.mark && lo <= s.core.r <= |s.core.emitted|
            && s.base <= |s.requests| && tail == s.requests[s.base..]
            && NotPresses(tail) == RequestsFor(s.core.emitted[lo..s.core.r])
            && Alike(After(s.requests), After([BulkUpdate(taken.on, |taken.devices|, taken.devices)] + tail))
  {
    lo, taken := SinceSnapshot(acts);
    tail := State(acts).requests[State(acts).base..];
    TrustedForgets(State(acts).requests, State(acts).base);
  }

  lemma TrustedForgets(requests: seq<Req>, base: nat)
    requires 0 < base <= |requests| && requests[base - 1].BulkUpdate? && TrustedAt(requests, base)
    ensures Alike(After(requests), After([requests[base - 1]] + requests[base..]))
  {
    var past, bulk, tail := requests[..base - 1], requests[base - 1], requests[base..];
    assert requests == past + [bulk] + tail;
    if NoTurnOn(tail) {
      SnapshotForgetsPast(past, bulk, tail);
    } else {
      assert past + [bulk] == requests[..base];
      CurrentForgetsPast(past, bulk, tail);
      assert StaysAlike(past + [bulk], [bulk], tail);
    }
  }

  /** The bulk update before position `base` lists real addresses, and either Bluetooth was
      not turned on after it or the cached states it met were current. */
  predicate TrustedAt(requests: seq<Req>, base: nat)
    requires 0 < base <= |requests| && requests[base - 1].BulkUpdate?
  {
    && Real(requests[base - 1])
    && (NoTurnOn(requests[base..]) || CacheCurrent(After(requests[..base]), requests[base - 1]))
  }

  ghost predicate SnapshotTrusted(s: Sys) {
    0 < s.base <= |s.requests| && s.requests[s.base - 1].BulkUpdate? ==> TrustedAt(s.requests, s.base)
  }
}
