/** What the interleavings of Channel add up to: exactness of the mid-read recheck, its
    exact limit, and the refinement of the unbounded ring by the 32-bit one. */
module ChannelTheorems {
  import opened Vqmbt
  import opened Channel

  lemma {:induction false} RunAppend(wraps: bool, c: Ring, a: seq<Micro>, b: seq<Micro>)
    ensures Run(wraps, c, a + b) == Run(wraps, Run(wraps, c, a), b)
  {
    if b == [] {
      assert a + b == a;
    } else {
      var b' := b[..|b| - 1];
      assert (a + b)[..|a + b| - 1] == a + b';
      RunAppend(wraps, c, a, b');
    }
  }

  lemma RunJoin(wraps: bool, c: Ring, a: seq<Micro>, d: Ring, b: seq<Micro>, e: Ring)
    requires Run(wraps, c, a) == d && Run(wraps, d, b) == e
    ensures Run(wraps, c, a + b) == e
  {
    RunAppend(wraps, c, a, b);
  }

  // ----- Uninterrupted calls -----

  function EmitCall(ev: Event, ok: bool): seq<Micro> {
    [EmitBegin(ev), FillWord(IdWord), FillWord(Mac0Word), FillWord(Mac1Word), Publish, Notify(ok)]
  }

  const TAKE_ALL: seq<Micro> := [TakeWord(IdWord), TakeWord(Mac0Word), TakeWord(Mac1Word)]

  /** Every path through kvqmbt_read_event, up to its return; steps not on the path taken
      are not enabled and do nothing. */
  function ReadCall(want: int, nullEvent: bool, ok: bool): seq<Micro> {
    [ReadBegin(want, nullEvent), LoadWrite, StoreRead] + (TAKE_ALL + [Reload, Commit, Export(ok)])
  }

  /** A run given as its list of states. */
  lemma {:induction false} RunPath(wraps: bool, path: seq<Ring>, sched: seq<Micro>)
    requires |path| == |sched| + 1
    requires forall i :: 0 <= i < |sched| ==> Goes(wraps, path[i], sched[i], path[i + 1])
    ensures Run(wraps, path[0], sched) == path[|sched|]
  {
    if sched != [] {
      var n := |sched| - 1;
      RunPath(wraps, path[..n + 1], sched[..n]);
      assert Goes(wraps, path[n], sched[n], path[n + 1]);
    }
  }

  predicate Goes(wraps: bool, c: Ring, m: Micro, d: Ring) {
    Step(wraps, c, m) == d
  }

  /** What an uninterrupted umod_cb_emit_event leaves behind. */
  function EmitEffect(wraps: bool, c: Ring, ev: Event, ok: bool): Ring {
    c.(slots := c.slots[c.w % RING := ev], w := Counter(wraps, c.w + 1), flag := c.flag || ok,
       emitted := c.emitted + [ev])
  }

  lemma RunTwo(wraps: bool, c: Ring, m: Micro, c1: Ring, m1: Micro, d: Ring)
    requires Goes(wraps, c, m, c1) && Goes(wraps, c1, m1, d)
    ensures Run(wraps, c, [m, m1]) == d
  {
    RunPath(wraps, [c, c1, d], [m, m1]);
  }

  lemma RunThree(wraps: bool, c: Ring, m: Micro, c1: Ring, m1: Micro, c2: Ring, m2: Micro, d: Ring)
    requires Goes(wraps, c, m, c1) && Goes(wraps, c1, m1, c2) && Goes(wraps, c2, m2, d)
    ensures Run(wraps, c, [m, m1, m2]) == d
  {
    RunPath(wraps, [c, c1, c2, d], [m, m1, m2]);
  }

  lemma RunOne(wraps: bool, c: Ring, m: Micro, d: Ring)
    requires Goes(wraps, c, m, d)
    ensures Run(wraps, c, [m]) == d
  {
    assert [m][..0] == [];
  }

  predicate ProducerMicro(m: Micro) {
    m.EmitBegin? || m.FillWord? || m.Publish? || m.Notify?
  }

  lemma OneSideMoves(wraps: bool, c: Ring, m: Micro)
    ensures ProducerMicro(m) ==> Goes(wraps, c, m, ProducerStep(wraps, c, m))
    ensures !ProducerMicro(m) ==> Goes(wraps, c, m, ReaderStep(wraps, c, m))
  {
  }

  const FILL_ALL: seq<Micro> := [FillWord(IdWord), FillWord(Mac0Word), FillWord(Mac1Word)]

  lemma EmitCallEffect(wraps: bool, c: Ring, ev: Event, ok: bool)
    requires c.prod.Resting? && ev.id != NoEvent
    ensures Run(wraps, c, EmitCall(ev, ok)) == EmitEffect(wraps, c, ev, ok)
  {
    var c1: Ring := c.(prod := Filling(ev, c.w, {}));
    OneSideMoves(wraps, c, EmitBegin(ev));
    RunOne(wraps, c, EmitBegin(ev), c1);
    var c4 := FillAll(wraps, c1);
    var d := PublishAndNotify(wraps, c4, ok);
    EmitCallParts(ev, ok);
    RunJoin(wraps, c1, FILL_ALL, c4, [Publish, Notify(ok)], d);
    RunJoin(wraps, c, [EmitBegin(ev)], c1, FILL_ALL + [Publish, Notify(ok)], d);
  }

  lemma EmitCallParts(ev: Event, ok: bool)
    ensures EmitCall(ev, ok) == [EmitBegin(ev)] + (FILL_ALL + [Publish, Notify(ok)])
  {
  }

  lemma PublishAndNotify(wraps: bool, c: Ring, ok: bool) returns (d: Ring)
    requires c.prod.Filling? && c.prod.filled == ALL_FIELDS
    ensures d == Run(wraps, c, [Publish, Notify(ok)])
    ensures d == c.(w := Counter(wraps, c.prod.at + 1), flag := c.flag || ok, prod := Resting,
                    emitted := c.emitted + [c.prod.ev])
  {
    var c1: Ring := c.(w := Counter(wraps, c.prod.at + 1), prod := Notifying, emitted := c.emitted + [c.prod.ev]);
    OneSideMoves(wraps, c, Publish);
    d := c1.(flag := c1.flag || ok, prod := Resting);
    OneSideMoves(wraps, c1, Notify(ok));
    RunTwo(wraps, c, Publish, c1, Notify(ok), d);
  }

  /** The slot and the set of words stored, after one more word. */
  function Filled(c: Ring, f: Field): Ring
    requires c.prod.Filling?
  {
    var k := c.prod.at % RING;
    c.(slots := c.slots[k := CopyWord(c.slots[k], f, c.prod.ev)], prod := c.prod.(filled := c.prod.filled + {f}))
  }

  lemma FillAll(wraps: bool, c: Ring) returns (d: Ring)
    requires c.prod.Filling? && c.prod.filled == {}
    ensures d == Run(wraps, c, FILL_ALL)
    ensures d == c.(slots := c.slots[c.prod.at % RING := c.prod.ev], prod := c.prod.(filled := ALL_FIELDS))
  {
    var c1 := Filled(c, IdWord);
    var c2 := Filled(c1, Mac0Word);
    d := Filled(c2, Mac1Word);
    OneSideMoves(wraps, c, FillWord(IdWord));
    OneSideMoves(wraps, c1, FillWord(Mac0Word));
    OneSideMoves(wraps, c2, FillWord(Mac1Word));
    RunThree(wraps, c, FillWord(IdWord), c1, FillWord(Mac0Word), c2, FillWord(Mac1Word), d);
    FilledAll(c);
  }

  lemma FilledAll(c: Ring)
    requires c.prod.Filling? && c.prod.filled == {}
    ensures Filled(Filled(Filled(c, IdWord), Mac0Word), Mac1Word)
            == c.(slots := c.slots[c.prod.at % RING := c.prod.ev], prod := c.prod.(filled := ALL_FIELDS))
  {
    var d := Filled(Filled(Filled(c, IdWord), Mac0Word), Mac1Word);
    assert d.prod.filled == ALL_FIELDS;
    assert d.slots == c.slots[c.prod.at % RING := c.prod.ev];
  }

  /** The reader's copy after one more word. */
  function Taken(c: Ring, f: Field): Ring
    requires c.reader.Copying?
  {
    c.(reader := c.reader.(got := CopyWord(c.reader.got, f, c.slots[c.reader.from % RING]),
                           copied := c.reader.copied + {f}))
  }

  /** The reader's three word copies with nothing in between. */
  lemma TakeAll(wraps: bool, c: Ring) returns (d: Ring)
    requires c.reader.Copying? && c.reader.copied == {}
    ensures d == Run(wraps, c, TAKE_ALL)
    ensures d == c.(reader := Copying(c.reader.from, c.slots[c.reader.from % RING], ALL_FIELDS))
  {
    var c1 := Taken(c, IdWord);
    var c2 := Taken(c1, Mac0Word);
    d := Taken(c2, Mac1Word);
    OneSideMoves(wraps, c, TakeWord(IdWord));
    OneSideMoves(wraps, c1, TakeWord(Mac0Word));
    OneSideMoves(wraps, c2, TakeWord(Mac1Word));
    RunThree(wraps, c, TakeWord(IdWord), c1, TakeWord(Mac0Word), c2, TakeWord(Mac1Word), d);
    TakenAll(c);
  }

  lemma TakenAll(c: Ring)
    requires c.reader.Copying? && c.reader.copied == {}
    ensures Taken(Taken(Taken(c, IdWord), Mac0Word), Mac1Word)
            == c.(reader := Copying(c.reader.from, c.slots[c.reader.from % RING], ALL_FIELDS))
  {
    var d := Taken(Taken(Taken(c, IdWord), Mac0Word), Mac1Word);
    assert d.reader.copied == ALL_FIELDS;
  }

  // ----- Exactness of the recheck -----

  /** In every interleaving, a read about to return an event has an event with a real id;
      it is exactly the event at the read index when the recheck saw a lag below 16, and at
      lag 16 each of its words belongs to that event or to the one 16 later. */
  lemma ReadIsExact(sched: seq<Micro>)
    requires Run(false, Boot(), sched).reader.Exporting?
    ensures ExactOrTorn(Run(false, Boot(), sched))
  {
    BootInv();
    RunKeepsInv(Boot(), sched);
    ExportingIsExact(Run(false, Boot(), sched));
  }

  ghost predicate ExactOrTorn(c: Ring)
    requires c.reader.Exporting?
  {
    var from, got := c.reader.from, c.reader.got;
    && 0 <= from < |c.emitted|
    && 1 <= c.reader.seen - from <= RING
    && got.id != NoEvent
    && (c.reader.seen - from < RING ==> got == c.emitted[from])
    && forall f :: WordOf(c, from, got, f) || WordOf(c, from + RING, got, f)
  }

  lemma ExportingIsExact(c: Ring)
    requires Inv(c) && c.reader.Exporting?
    ensures ExactOrTorn(c)
  {
  }

  lemma BootInv()
    ensures Inv(Boot())
  {
  }

  /** If a read is about to return and saw this lag at its recheck, it returns the event at
      its read index. */
  ghost predicate ExactIfLag(c: Ring, lag: int) {
    c.reader.Exporting? && c.reader.seen - c.reader.from == lag ==>
      0 <= c.reader.from < |c.emitted| && c.reader.got == c.emitted[c.reader.from]
  }

  ghost predicate ExactRun(sched: seq<Micro>, lag: int) {
    ExactIfLag(Run(false, Boot(), sched), lag)
  }

  ghost predicate AlwaysExactAt(lag: int) {
    forall sched: seq<Micro> :: ExactRun(sched, lag)
  }

  function EmitMany(ev: Event, n: nat): seq<Micro> {
    if n == 0 then [] else EmitMany(ev, n - 1) + EmitCall(ev, true)
  }

  /** The ring after n emits of the same event. */
  function EmittedMany(ev: Event, n: nat): Ring
    requires n <= RING
  {
    Boot().(slots := seq(RING, i => if i < n then ev else ZERO_EVENT), w := n, flag := n > 0, emitted := seq(n, _ => ev))
  }

  lemma EmitOneMore(ev: Event, n: nat)
    requires n < RING
    ensures EmitEffect(false, EmittedMany(ev, n), ev, true) == EmittedMany(ev, n + 1)
  {
    var c, d := EmittedMany(ev, n), EmittedMany(ev, n + 1);
    assert c.slots[n := ev] == d.slots;
    assert c.emitted + [ev] == d.emitted;
  }

  lemma EmittedNone(ev: Event)
    ensures EmittedMany(ev, 0) == Boot()
  {
    assert EmittedMany(ev, 0).slots == Boot().slots;
  }

  lemma {:induction false} EmitManyEffect(ev: Event, n: nat)
    requires ev.id != NoEvent && n <= RING
    ensures Run(false, Boot(), EmitMany(ev, n)) == EmittedMany(ev, n)
  {
    if n == 0 {
      EmittedNone(ev);
    } else {
      EmitManyEffect(ev, n - 1);
      EmitManyMore(ev, n - 1);
    }
  }

  lemma EmitManyMore(ev: Event, n: nat)
    requires ev.id != NoEvent && n < RING && Run(false, Boot(), EmitMany(ev, n)) == EmittedMany(ev, n)
    ensures Run(false, Boot(), EmitMany(ev, n + 1)) == EmittedMany(ev, n + 1)
  {
    EmitCallEffect(false, EmittedMany(ev, n), ev, true);
    EmitOneMore(ev, n);
    RunJoin(false, Boot(), EmitMany(ev, n), EmittedMany(ev, n), EmitCall(ev, true), EmittedMany(ev, n + 1));
  }

  function TornStart(next: Event): seq<Micro> {
    [ReadBegin(1, false), LoadWrite, EmitBegin(next), FillWord(IdWord)]
  }

  /** A full ring, with the next event's first word stored while the oldest is being read. */
  function TornSchedule(prev: Event, next: Event): seq<Micro> {
    EmitMany(prev, RING) + (TornStart(next) + (TAKE_ALL + [Reload, Commit]))
  }

  lemma TornHead(c: Ring, next: Event) returns (d: Ring)
    requires c.prod.Resting? && c.reader.Away? && c.w == RING && c.r == 0 && next.id != NoEvent
    ensures d == Run(false, c, TornStart(next))
    ensures d.reader == Copying(0, ZERO_EVENT, {}) && d.slots[0] == c.slots[0].(id := next.id)
    ensures d.w == RING && d.emitted == c.emitted
  {
    var c2 := BeginRead(c);
    d := BeginFill(c2, next);
    assert TornStart(next) == [ReadBegin(1, false), LoadWrite] + [EmitBegin(next), FillWord(IdWord)];
    RunAppend(false, c, [ReadBegin(1, false), LoadWrite], [EmitBegin(next), FillWord(IdWord)]);
  }

  lemma BeginRead(c: Ring) returns (d: Ring)
    requires c.reader.Away? && c.r < c.w <= c.r + RING
    ensures d == Run(false, c, [ReadBegin(1, false), LoadWrite])
    ensures d == c.(reader := Copying(c.r, ZERO_EVENT, {}))
  {
    var c1: Ring := c.(reader := Loading(1, c.r));
    d := c.(reader := Copying(c.r, ZERO_EVENT, {}));
    OneSideMoves(false, c, ReadBegin(1, false));
    OneSideMoves(false, c1, LoadWrite);
    RunTwo(false, c, ReadBegin(1, false), c1, LoadWrite, d);
  }

  lemma BeginFill(c: Ring, next: Event) returns (d: Ring)
    requires c.prod.Resting? && next.id != NoEvent
    ensures d == Run(false, c, [EmitBegin(next), FillWord(IdWord)])
    ensures d == Filled(c.(prod := Filling(next, c.w, {})), IdWord)
  {
    var c1: Ring := c.(prod := Filling(next, c.w, {}));
    d := Filled(c1, IdWord);
    OneSideMoves(false, c, EmitBegin(next));
    OneSideMoves(false, c1, FillWord(IdWord));
    RunTwo(false, c, EmitBegin(next), c1, FillWord(IdWord), d);
  }

  lemma TornTail(c: Ring) returns (d: Ring)
    requires c.reader == Copying(0, ZERO_EVENT, {}) && c.w == RING
    ensures d == Run(false, c, TAKE_ALL + [Reload, Commit])
    ensures d.reader == Exporting(0, RING, c.slots[0]) && d.emitted == c.emitted
  {
    var c1 := TakeAll(false, c);
    var c2: Ring := c1.(reader := Committing(0, RING, c.slots[0]));
    d := c2.(r := 1, reader := Exporting(0, RING, c.slots[0]));
    OneSideMoves(false, c1, Reload);
    OneSideMoves(false, c2, Commit);
    RunTwo(false, c1, Reload, c2, Commit, d);
    RunJoin(false, c, TAKE_ALL, c1, [Reload, Commit], d);
  }

  /** The concrete run in which the recheck passes and the event returned is neither one. */
  lemma TornRead(prev: Event, next: Event)
    requires prev.id != NoEvent && next.id != NoEvent
    ensures var c := Run(false, Boot(), TornSchedule(prev, next));
            && c.reader == Exporting(0, RING, Event(next.id, prev.mac0, prev.mac1))
            && |c.emitted| == RING && c.emitted[0] == prev
  {
    EmitManyEffect(prev, RING);
    var c := EmittedMany(prev, RING);
    var d := TornHead(c, next);
    var e := TornTail(d);
    RunJoin(false, c, TornStart(next), d, TAKE_ALL + [Reload, Commit], e);
    RunJoin(false, Boot(), EmitMany(prev, RING), c, TornStart(next) + (TAKE_ALL + [Reload, Commit]), e);
  }

  /** The recheck admits every lag up to 16, but only a lag below 16 guarantees the event. */
  lemma ExactExactlyBelowRing(lag: int)
    requires 1 <= lag <= RING
    ensures AlwaysExactAt(lag) <==> lag < RING
  {
    if lag < RING {
      forall sched: seq<Micro> ensures ExactRun(sched, lag) {
        if Run(false, Boot(), sched).reader.Exporting? {
          ReadIsExact(sched);
        }
      }
    } else {
      var sched := InexactAtRing();
    }
  }

  lemma InexactAtRing() returns (sched: seq<Micro>)
    ensures !ExactRun(sched, RING)
  {
    var prev, next := Event(DeviceConnectSuccess, 1, 1), Event(DeviceDisconnected, 2, 2);
    TornRead(prev, next);
    sched := TornSchedule(prev, next);
    TornIsInexact(Run(false, Boot(), sched), prev, next);
  }

  lemma TornIsInexact(c: Ring, prev: Event, next: Event)
    requires c.reader == Exporting(0, RING, Event(next.id, prev.mac0, prev.mac1)) && next.id != prev.id
    requires |c.emitted| == RING && c.emitted[0] == prev
    ensures !ExactIfLag(c, RING)
  {
  }

  // ----- The 32-bit ring refines the unbounded one -----

  function WrapReader(d: Reader): Reader {
    match d
    case Loading(want, from) => Loading(want, from % WORD_LIMIT)
    case Storing(to, result) => Storing(to % WORD_LIMIT, result)
    case Copying(from, got, copied) => Copying(from % WORD_LIMIT, got, copied)
    case Committing(from, seen, got) => Committing(from % WORD_LIMIT, seen % WORD_LIMIT, got)
    case Exporting(from, seen, got) => Exporting(from % WORD_LIMIT, seen % WORD_LIMIT, got)
    case _ => d
  }

  /** The same moment in the machine whose indices are 32-bit words: same slots, flag,
      program counters, copied words and results; every index reduced modulo 2^32. */
  function Wrapped(c: Ring): Ring {
    c.(w := c.w % WORD_LIMIT, r := c.r % WORD_LIMIT,
       prod := if c.prod.Filling? then c.prod.(at := c.prod.at % WORD_LIMIT) else c.prod,
       reader := WrapReader(c.reader))
  }

  lemma DividesUniquely(n: int, y: int, q: int, m: int)
    requires n == WORD_LIMIT || n == RING
    requires y == n * q + m && 0 <= m < n
    ensures y % n == m
  {
    var p := y / n;
    assert p > q ==> n * p >= n * q + n;
    assert p < q ==> n * p <= n * q - n;
  }

  lemma AddWords(x: int, k: int)
    ensures (x + WORD_LIMIT * k) % WORD_LIMIT == x % WORD_LIMIT
    ensures (x + WORD_LIMIT * k) % RING == x % RING
  {
    DividesUniquely(WORD_LIMIT, x + WORD_LIMIT * k, x / WORD_LIMIT + k, x % WORD_LIMIT);
    DividesUniquely(RING, x + WORD_LIMIT * k, x / RING + 0x1000_0000 * k, x % RING);
  }

  lemma WrappedDifference(r: int, w: int)
    ensures (w % WORD_LIMIT - r % WORD_LIMIT) % WORD_LIMIT == (w - r) % WORD_LIMIT
  {
    var k := r / WORD_LIMIT - w / WORD_LIMIT;
    assert w % WORD_LIMIT - r % WORD_LIMIT == (w - r) + WORD_LIMIT * k;
    AddWords(w - r, k);
  }

  lemma SameWhenZero(a: int, b: int)
    requires 0 <= a < WORD_LIMIT && 0 <= b < WORD_LIMIT
    ensures a == b <==> (b - a) % WORD_LIMIT == 0
  {
  }

  lemma SlotOfWrapped(x: int)
    ensures x % WORD_LIMIT % RING == x % RING
  {
  }

  lemma WrappedSuccessor(x: int)
    ensures (x % WORD_LIMIT + 1) % WORD_LIMIT == (x + 1) % WORD_LIMIT
  {
  }

  lemma WrappedLag(r: int, w: int)
    requires 0 <= w - r < WORD_LIMIT
    ensures (w % WORD_LIMIT - r % WORD_LIMIT) % WORD_LIMIT == w - r
    ensures r % WORD_LIMIT == w % WORD_LIMIT <==> r == w
  {
    WrappedDifference(r, w);
    DividesUniquely(WORD_LIMIT, w - r, 0, w - r);
    SameWhenZero(r % WORD_LIMIT, w % WORD_LIMIT);
  }

  lemma WrapStep(c: Ring, m: Micro)
    requires Inv(c) && c.w - c.r < WORD_LIMIT
    ensures Step(true, Wrapped(c), m) == Wrapped(Step(false, c, m))
  {
    WrapProducerStep(c, m);
    var d := ProducerStep(false, c, m);
    ProducerKeepsInv(c, m);
    if m.EmitBegin? || m.FillWord? || m.Publish? || m.Notify? {
    } else {
      assert d == c;
      WrapReaderStep(d, m);
    }
  }

  lemma WrapProducerStep(c: Ring, m: Micro)
    requires Inv(c)
    ensures ProducerStep(true, Wrapped(c), m) == Wrapped(ProducerStep(false, c, m))
  {
    SlotOfWrapped(c.w);
    WrappedSuccessor(c.w);
  }

  lemma WrapLoad(c: Ring)
    requires ReaderInv(c) && c.w - c.r < WORD_LIMIT && c.reader.Loading?
    ensures ReaderStep(true, Wrapped(c), LoadWrite) == Wrapped(ReaderStep(false, c, LoadWrite))
  {
    WrappedLag(c.r, c.w);
  }

  lemma WrapTake(c: Ring, f: Field)
    requires ReaderInv(c) && c.reader.Copying?
    ensures ReaderStep(true, Wrapped(c), TakeWord(f)) == Wrapped(ReaderStep(false, c, TakeWord(f)))
  {
    SlotOfWrapped(c.r);
  }

  lemma WrapReload(c: Ring)
    requires ReaderInv(c) && c.w - c.r < WORD_LIMIT && c.reader.Copying?
    ensures ReaderStep(true, Wrapped(c), Reload) == Wrapped(ReaderStep(false, c, Reload))
  {
    WrappedLag(c.r, c.w);
  }

  lemma WrapCommit(c: Ring)
    requires c.reader.Committing?
    ensures ReaderStep(true, Wrapped(c), Commit) == Wrapped(ReaderStep(false, c, Commit))
  {
    WrappedSuccessor(c.reader.from);
  }

  lemma WrapReturn(c: Ring, m: Micro)
    requires m.ReadBegin? || m.StoreRead? || m.Export? || m.Leave?
    ensures ReaderStep(true, Wrapped(c), m) == Wrapped(ReaderStep(false, c, m))
  {
  }

  lemma WrapReaderStep(c: Ring, m: Micro)
    requires Inv(c) && c.w - c.r < WORD_LIMIT
    ensures ReaderStep(true, Wrapped(c), m) == Wrapped(ReaderStep(false, c, m))
  {
    match m
    case LoadWrite => if c.reader.Loading? { WrapLoad(c); }
    case TakeWord(f) => if c.reader.Copying? { WrapTake(c, f); }
    case Reload => if c.reader.Copying? { WrapReload(c); }
    case Commit => if c.reader.Committing? { WrapCommit(c); }
    case _ => if !ProducerMicro(m) { WrapReturn(c, m); }
  }

  function Lag(c: Ring): int { c.w - c.r }

  /** In every interleaving in which the reader never falls 2^32 events behind, the ring
      with 32-bit counters takes the same decisions, touches the same slots and returns the
      same results as the ring whose counters never wrap. */
  lemma {:induction false} WrapRefines(sched: seq<Micro>)
    requires forall k :: 0 <= k <= |sched| ==> Lag(Run(false, Boot(), sched[..k])) < WORD_LIMIT
    ensures Run(true, Boot(), sched) == Wrapped(Run(false, Boot(), sched))
  {
    if sched != [] {
      var rest := sched[..|sched| - 1];
      forall k | 0 <= k <= |rest| ensures Lag(Run(false, Boot(), rest[..k])) < WORD_LIMIT {
        assert rest[..k] == sched[..k];
      }
      WrapRefines(rest);
      BootInv();
      RunKeepsInv(Boot(), rest);
      assert sched[..|rest|] == rest;
      WrapStep(Run(false, Boot(), rest), sched[|sched| - 1]);
    }
  }

  datatype Decision = ReportEmpty | ReportOverrun | TakeEvent

  /** The two tests kvqmbt_read_event makes on a pair of counters. */
  function Decide(wraps: bool, r: int, w: int): Decision {
    if r == w then ReportEmpty else if Counter(wraps, w - r) > RING then ReportOverrun else TakeEvent
  }

  /** Exactly how far the reader may fall behind before 32 bits mislead it: any lag below
      2^32 is judged correctly, and a larger one only if it still looks overrun. */
  lemma WrapDecidesAlike(r: int, w: int)
    requires r <= w
    ensures Decide(true, r % WORD_LIMIT, w % WORD_LIMIT) == Decide(false, r, w)
            <==> w - r < WORD_LIMIT || (w - r) % WORD_LIMIT > RING
  {
    WrappedDifference(r, w);
    SameWhenZero(r % WORD_LIMIT, w % WORD_LIMIT);
    DecidesByLag(r % WORD_LIMIT, w % WORD_LIMIT, (w - r) % WORD_LIMIT);
    if w - r < WORD_LIMIT {
      DividesUniquely(WORD_LIMIT, w - r, 0, w - r);
    }
  }

  /** On 32-bit counters the tests depend only on the lag they show. */
  lemma DecidesByLag(r: int, w: int, lag: int)
    requires (w - r) % WORD_LIMIT == lag && (r == w <==> lag == 0)
    ensures Decide(true, r, w) == if lag == 0 then ReportEmpty else if lag > RING then ReportOverrun else TakeEvent
  {
  }
}
