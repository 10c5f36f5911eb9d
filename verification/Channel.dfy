/** The event ring of umod_callback.c as a state machine whose steps are single loads,
    stores and word copies. A schedule (a sequence of micro steps) fixes one interleaving
    of the producer and the reader; a step that is not enabled leaves the state alone, so
    quantifying over schedules quantifies over every interleaving. */
module Channel {
  import opened Vqmbt

  /** RING_BUFFER_SIZE. */
  const RING: int := 16

  datatype Field = IdWord | Mac0Word | Mac1Word

  const ALL_FIELDS: set<Field> := {IdWord, Mac0Word, Mac1Word}

  function CopyWord(to: Event, f: Field, from: Event): Event {
    match f
    case IdWord => to.(id := from.id)
    case Mac0Word => to.(mac0 := from.mac0)
    case Mac1Word => to.(mac1 := from.mac1)
  }

  predicate SameWord(a: Event, b: Event, f: Field) {
    match f
    case IdWord => a.id == b.id
    case Mac0Word => a.mac0 == b.mac0
    case Mac1Word => a.mac1 == b.mac1
  }

  /** umod_cb_emit_event between two of its steps. `at` is its local write_idx. */
  datatype Producer =
    | Resting
    | Filling(ev: Event, at: int, filled: set<Field>)
    | Notifying

  /** What kvqmbt_read_event returns: 0, 1 with an event, or an error code. */
  datatype ReadResult = Nothing | Got(ev: Event) | Overflow | KernelSide | InvalidArgument

  /** kvqmbt_read_event between two of its steps. `from` is its local read_idx, `seen`
      its local write_idx after the reload, `to` the index it is about to store. */
  datatype Reader =
    | Away
    | Loading(want: int, from: int)
    | Storing(to: int, result: ReadResult)
    | Copying(from: int, got: Event, copied: set<Field>)
    | Committing(from: int, seen: int, got: Event)
    | Exporting(from: int, seen: int, got: Event)
    | Returned(outcome: ReadResult)

  /** The shared memory, both program counters with their locals, and the history
      `emitted` of every event published so far (event i is `emitted[i]`). */
  datatype Core = Core(slots: seq<Event>, w: int, r: int, flag: bool,
                       prod: Producer, reader: Reader, emitted: seq<Event>)

  type Ring = c: Core | |c.slots| == RING witness Core(seq(16, _ => ZERO_EVENT), 0, 0, false, Resting, Away, [])

  function Boot(): Ring {
    Core(seq(RING, _ => ZERO_EVENT), 0, 0, false, Resting, Away, [])
  }

  datatype Micro =
    | EmitBegin(ev: Event)
    | FillWord(f: Field)
    | Publish
    | Notify(ok: bool)
    | ReadBegin(want: int, nullEvent: bool)
    | LoadWrite
    | TakeWord(f: Field)
    | Reload
    | StoreRead
    | Commit
    | Export(ok: bool)
    | Leave

  /** The value an index variable holds: reduced modulo 2^32 in the real machine
      (`wraps`), exact in the reference machine. */
  function Counter(wraps: bool, x: int): int {
    if wraps then x % WORD_LIMIT else x
  }

  function ProducerStep(wraps: bool, c: Ring, m: Micro): Ring {
    match m
    case EmitBegin(ev) =>
      if c.prod.Resting? && ev.id != NoEvent then c.(prod := Filling(ev, c.w, {})) else c
    case FillWord(f) =>
      if c.prod.Filling? && f !in c.prod.filled then
        var k := c.prod.at % RING;
        c.(slots := c.slots[k := CopyWord(c.slots[k], f, c.prod.ev)], prod := c.prod.(filled := c.prod.filled + {f}))
      else c
    case Publish =>
      if c.prod.Filling? && c.prod.filled == ALL_FIELDS then
        c.(w := Counter(wraps, c.prod.at + 1), prod := Notifying, emitted := c.emitted + [c.prod.ev])
      else c
    case Notify(ok) =>
      if c.prod.Notifying? then c.(flag := c.flag || ok, prod := Resting) else c
    case _ => c
  }

  function ReaderStep(wraps: bool, c: Ring, m: Micro): Ring {
    match m
    case ReadBegin(want, nullEvent) =>
      if !c.reader.Away? then c
      else if want > 1 || (want > 0 && nullEvent) then c.(reader := Returned(InvalidArgument))
      else c.(reader := Loading(want, c.r))
    case LoadWrite =>
      if !c.reader.Loading? then c
      else if c.reader.from == c.w then c.(reader := Returned(Nothing))
      else if c.reader.want < 1 then c.(reader := Storing(c.w, Nothing))
      else if Counter(wraps, c.w - c.reader.from) > RING then c.(reader := Storing(c.w, Overflow))
      else c.(reader := Copying(c.reader.from, ZERO_EVENT, {}))
    case TakeWord(f) =>
      if c.reader.Copying? && f !in c.reader.copied then
        c.(reader := c.reader.(got := CopyWord(c.reader.got, f, c.slots[c.reader.from % RING]),
                               copied := c.reader.copied + {f}))
      else c
    case Reload =>
      if !(c.reader.Copying? && c.reader.copied == ALL_FIELDS) then c
      else if Counter(wraps, c.w - c.reader.from) > RING then c.(reader := Storing(c.w, Overflow))
      else c.(reader := Committing(c.reader.from, c.w, c.reader.got))
    case StoreRead =>
      if c.reader.Storing? then c.(r := c.reader.to, reader := Returned(c.reader.result)) else c
    case Commit =>
      if c.reader.Committing? then
        c.(r := Counter(wraps, c.reader.from + 1), reader := Exporting(c.reader.from, c.reader.seen, c.reader.got))
      else c
    case Export(ok) =>
      if c.reader.Exporting? then c.(reader := Returned(if ok then Got(c.reader.got) else KernelSide)) else c
    case Leave =>
      if c.reader.Returned? then c.(reader := Away) else c
    case _ => c
  }

  function Step(wraps: bool, c: Ring, m: Micro): Ring {
    ReaderStep(wraps, ProducerStep(wraps, c, m), m)
  }

  function Run(wraps: bool, c: Ring, sched: seq<Micro>): Ring {
    if sched == [] then c else Step(wraps, Run(wraps, c, sched[..|sched| - 1]), sched[|sched| - 1])
  }

  // ----- What every step keeps -----

  /** Word f of the slot of event i is still event i's, unless the producer has already
      overwritten it with the event being filled. */
  ghost predicate SlotWord(c: Ring, i: int, f: Field)
    requires 0 <= i < |c.emitted|
  {
    (c.prod.Filling? && i + RING == |c.emitted| && f in c.prod.filled) || SameWord(c.slots[i % RING], c.emitted[i], f)
  }

  ghost predicate SlotsHold(c: Ring) {
    forall i, f :: 0 <= i < |c.emitted| && |c.emitted| - RING <= i ==> SlotWord(c, i, f)
  }

  ghost predicate ProducerInv(c: Ring) {
    && c.w == |c.emitted|
    && (forall i :: 0 <= i < |c.emitted| ==> c.emitted[i].id != NoEvent)
    && (c.prod.Filling? ==>
          && c.prod.at == c.w
          && c.prod.ev.id != NoEvent
          && forall f :: f in c.prod.filled ==> SameWord(c.slots[c.w % RING], c.prod.ev, f))
  }

  /** Word f of `got` belongs to event n, published or in flight. */
  ghost predicate WordOf(c: Ring, n: int, got: Event, f: Field) {
    if 0 <= n < |c.emitted| then SameWord(got, c.emitted[n], f)
    else n == |c.emitted| && c.prod.Filling? && SameWord(got, c.prod.ev, f)
  }

  /** A word copied for event `from` is that event's, or belongs to event from + 16, or
      the ring has since overrun `from`. */
  ghost predicate Copied(c: Ring, from: int, got: Event, f: Field) {
    WordOf(c, from, got, f) || WordOf(c, from + RING, got, f) || |c.emitted| > from + RING
  }

  ghost predicate AllCopied(c: Ring, from: int, got: Event, copied: set<Field>) {
    forall f :: f in copied ==> Copied(c, from, got, f)
  }

  /** What is known of an event read at index `from` whose recheck saw write index `seen`. */
  ghost predicate Provenance(c: Ring, from: int, seen: int, got: Event) {
    && 0 <= from < seen <= |c.emitted|
    && seen - from <= RING
    && got.id != NoEvent
    && (seen - from < RING ==> got == c.emitted[from])
    && forall f :: WordOf(c, from, got, f) || WordOf(c, from + RING, got, f)
  }

  ghost predicate ReaderInv(c: Ring) {
    0 <= c.r <= c.w && ReaderPcInv(c, c.reader)
  }

  ghost predicate ReaderPcInv(c: Ring, d: Reader) {
    match d
    case Loading(_, from) => from == c.r
    case Storing(to, result) =>
      c.r < to <= c.w && (result == Overflow || result == Nothing) && (result == Overflow ==> to - c.r > RING)
    case Copying(from, got, copied) => from == c.r < c.w && AllCopied(c, from, got, copied)
    case Committing(from, seen, got) => from == c.r && Provenance(c, from, seen, got)
    case Exporting(from, seen, got) => from + 1 == c.r && Provenance(c, from, seen, got)
    case Returned(outcome) => outcome.Got? ==> outcome.ev.id != NoEvent
    case Away => true
  }

  ghost predicate Inv(c: Ring) {
    ProducerInv(c) && SlotsHold(c) && ReaderInv(c)
  }

  lemma SameWordsSameEvent(a: Event, b: Event)
    requires forall f :: SameWord(a, b, f)
    ensures a == b
  {
    assert SameWord(a, b, IdWord) && SameWord(a, b, Mac0Word) && SameWord(a, b, Mac1Word);
  }

  lemma AllFields(f: Field)
    ensures f in ALL_FIELDS
  {
  }

  lemma FillKeepsSlots(c: Ring, f: Field)
    requires Inv(c) && c.prod.Filling?
    ensures SlotsHold(ProducerStep(false, c, FillWord(f))) && ProducerInv(ProducerStep(false, c, FillWord(f)))
  {
    var d := ProducerStep(false, c, FillWord(f));
    forall i, g | 0 <= i < |d.emitted| && |d.emitted| - RING <= i ensures SlotWord(d, i, g) {
      assert SlotWord(c, i, g);
      assert i % RING == c.w % RING ==> i + RING == c.w;
    }
  }

  lemma PublishKeepsSlots(c: Ring)
    requires Inv(c)
    ensures SlotsHold(ProducerStep(false, c, Publish)) && ProducerInv(ProducerStep(false, c, Publish))
  {
    var d := ProducerStep(false, c, Publish);
    if d != c {
      forall i, g | 0 <= i < |d.emitted| && |d.emitted| - RING <= i ensures SlotWord(d, i, g) {
        AllFields(g);
        assert i < |c.emitted| ==> SlotWord(c, i, g);
      }
    }
  }

  /** The event in flight becomes the event published, so provenance survives. */
  lemma ProducerKeepsWord(c: Ring, m: Micro, n: int, got: Event, f: Field)
    requires ProducerInv(c) && WordOf(c, n, got, f)
    ensures WordOf(ProducerStep(false, c, m), n, got, f)
  {
  }

  lemma ProducerKeepsProvenance(c: Ring, m: Micro, from: int, seen: int, got: Event)
    requires ProducerInv(c) && Provenance(c, from, seen, got)
    ensures Provenance(ProducerStep(false, c, m), from, seen, got)
  {
    var d := ProducerStep(false, c, m);
    forall f ensures WordOf(d, from, got, f) || WordOf(d, from + RING, got, f) {
      if WordOf(c, from, got, f) {
        ProducerKeepsWord(c, m, from, got, f);
      } else {
        assert WordOf(c, from + RING, got, f);
        ProducerKeepsWord(c, m, from + RING, got, f);
      }
    }
  }

  lemma ProducerKeepsCopied(c: Ring, m: Micro, from: int, got: Event, f: Field)
    requires ProducerInv(c) && Copied(c, from, got, f)
    ensures Copied(ProducerStep(false, c, m), from, got, f)
  {
    ProducerGrows(c, m);
    if WordOf(c, from, got, f) {
      ProducerKeepsWord(c, m, from, got, f);
    } else if WordOf(c, from + RING, got, f) {
      ProducerKeepsWord(c, m, from + RING, got, f);
    }
  }

  lemma ProducerGrows(c: Ring, m: Micro)
    requires ProducerInv(c)
    ensures var d := ProducerStep(false, c, m);
            c.emitted <= d.emitted && c.w <= d.w && d.r == c.r && d.reader == c.reader
  {
  }

  lemma ProducerKeepsReader(c: Ring, m: Micro)
    requires ProducerInv(c) && ReaderInv(c)
    ensures ReaderInv(ProducerStep(false, c, m))
  {
    var d := ProducerStep(false, c, m);
    ProducerGrows(c, m);
    match c.reader
    case Copying(from, got, copied) =>
      forall f | f in copied ensures Copied(d, from, got, f) {
        ProducerKeepsCopied(c, m, from, got, f);
      }
    case Committing(from, seen, got) =>
      ProducerKeepsProvenance(c, m, from, seen, got);
    case Exporting(from, seen, got) =>
      ProducerKeepsProvenance(c, m, from, seen, got);
    case _ =>
  }

  lemma ProducerKeepsInv(c: Ring, m: Micro)
    requires Inv(c)
    ensures Inv(ProducerStep(false, c, m))
  {
    var d := ProducerStep(false, c, m);
    ProducerKeepsReader(c, m);
    if m.FillWord? && c.prod.Filling? {
      FillKeepsSlots(c, m.f);
    } else if m.Publish? {
      PublishKeepsSlots(c);
    } else {
      forall i, f | 0 <= i < |d.emitted| && |d.emitted| - RING <= i ensures SlotWord(d, i, f) {
        assert SlotWord(c, i, f);
      }
    }
  }

  lemma SharedKept(c: Ring, d: Ring)
    requires ProducerInv(c) && SlotsHold(c)
    requires d == c.(r := d.r, flag := d.flag, reader := d.reader)
    ensures ProducerInv(d) && SlotsHold(d)
  {
    forall i, f | 0 <= i < |d.emitted| && |d.emitted| - RING <= i ensures SlotWord(d, i, f) {
      assert SlotWord(c, i, f);
    }
  }

  lemma TakeKeepsInv(c: Ring, f: Field)
    requires Inv(c) && c.reader.Copying? && f !in c.reader.copied
    ensures Inv(ReaderStep(false, c, TakeWord(f)))
  {
    var d := ReaderStep(false, c, TakeWord(f));
    SharedKept(c, d);
    forall g | g in d.reader.copied ensures Copied(d, c.reader.from, d.reader.got, g) {
      TakeCopies(c, f, g);
    }
  }

  lemma TakeCopies(c: Ring, f: Field, g: Field)
    requires ProducerInv(c) && SlotsHold(c) && c.reader.Copying? && 0 <= c.reader.from < |c.emitted|
    requires g == f || Copied(c, c.reader.from, c.reader.got, g)
    ensures var got := CopyWord(c.reader.got, f, c.slots[c.reader.from % RING]);
            Copied(c, c.reader.from, got, g)
  {
    var from := c.reader.from;
    if g == f && |c.emitted| <= from + RING {
      assert SlotWord(c, from, f);
    }
  }

  /** The recheck at the heart of the protocol: passing it pins down every word read. */
  lemma ReloadKeepsInv(c: Ring)
    requires Inv(c)
    ensures Inv(ReaderStep(false, c, Reload))
  {
    var d := ReaderStep(false, c, Reload);
    ReaderQuiet(false, c, Reload);
    SharedKept(c, d);
    if c.reader.Copying? && c.reader.copied == ALL_FIELDS && c.w - c.reader.from <= RING {
      ReloadProves(c);
      SameProvenance(c, d, c.reader.from, c.w, c.reader.got);
    }
  }

  lemma ReloadProves(c: Ring)
    requires ProducerInv(c) && ReaderInv(c)
    requires c.reader.Copying? && c.reader.copied == ALL_FIELDS && c.w - c.reader.from <= RING
    ensures Provenance(c, c.reader.from, c.w, c.reader.got)
  {
    var from, got := c.reader.from, c.reader.got;
    forall f ensures WordOf(c, from, got, f) || WordOf(c, from + RING, got, f) {
      AllFields(f);
      assert Copied(c, from, got, f);
    }
    assert WordOf(c, from, got, IdWord) || WordOf(c, from + RING, got, IdWord);
    if c.w - from < RING {
      forall f ensures SameWord(got, c.emitted[from], f) {
        assert WordOf(c, from, got, f) || WordOf(c, from + RING, got, f);
      }
      SameWordsSameEvent(got, c.emitted[from]);
    }
  }

  lemma SameProvenance(c: Ring, d: Ring, from: int, seen: int, got: Event)
    requires Provenance(c, from, seen, got) && d.emitted == c.emitted && d.prod == c.prod
    ensures Provenance(d, from, seen, got)
  {
    forall f ensures WordOf(d, from, got, f) || WordOf(d, from + RING, got, f) {
      assert WordOf(c, from, got, f) || WordOf(c, from + RING, got, f);
    }
  }

  lemma CommitKeepsReader(c: Ring)
    requires ReaderInv(c) && c.w == |c.emitted| && c.reader.Committing?
    ensures ReaderInv(ReaderStep(false, c, Commit))
  {
    SameProvenance(c, ReaderStep(false, c, Commit), c.reader.from, c.reader.seen, c.reader.got);
  }

  lemma OthersKeepReader(c: Ring, m: Micro)
    requires ReaderInv(c) && c.w == |c.emitted|
    requires m.ReadBegin? || m.LoadWrite? || m.StoreRead? || m.Export? || m.Leave?
    ensures ReaderInv(ReaderStep(false, c, m))
  {
    if ReaderStep(false, c, m) != c {
      match m
      case LoadWrite => LoadKeepsReader(c);
      case _ =>
    }
  }

  lemma LoadKeepsReader(c: Ring)
    requires ReaderInv(c) && c.w == |c.emitted| && c.reader.Loading?
    ensures ReaderInv(ReaderStep(false, c, LoadWrite))
  {
  }

  /** A reader's step leaves everything but the read index and its own state alone. */
  lemma ReaderQuiet(wraps: bool, c: Ring, m: Micro)
    ensures var d := ReaderStep(wraps, c, m); d == c.(r := d.r, reader := d.reader)
  {
  }

  lemma ReaderKeepsInv(c: Ring, m: Micro)
    requires Inv(c)
    ensures Inv(ReaderStep(false, c, m))
  {
    match m
    case TakeWord(f) =>
      if c.reader.Copying? && f !in c.reader.copied {
        TakeKeepsInv(c, f);
      }
    case Reload => ReloadKeepsInv(c);
    case Commit =>
      if c.reader.Committing? {
        ReaderQuiet(false, c, m);
        SharedKept(c, ReaderStep(false, c, m));
        CommitKeepsReader(c);
      }
    case _ =>
      if m.ReadBegin? || m.LoadWrite? || m.StoreRead? || m.Export? || m.Leave? {
        ReaderQuiet(false, c, m);
        SharedKept(c, ReaderStep(false, c, m));
        OthersKeepReader(c, m);
      }
  }

  lemma StepKeepsInv(c: Ring, m: Micro)
    requires Inv(c)
    ensures Inv(Step(false, c, m))
  {
    ProducerKeepsInv(c, m);
    ReaderKeepsInv(ProducerStep(false, c, m), m);
  }

  lemma {:induction false} RunKeepsInv(c: Ring, sched: seq<Micro>)
    requires Inv(c)
    ensures Inv(Run(false, c, sched))
  {
    if sched != [] {
      RunKeepsInv(c, sched[..|sched| - 1]);
      StepKeepsInv(Run(false, c, sched[..|sched| - 1]), sched[|sched| - 1]);
    }
  }
}
