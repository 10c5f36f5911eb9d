/** What a read at lag 16 returns in a given run: exactly which of its words come from the
    event that was overwriting the slot, and so exactly when the event is the one emitted. */
module ChannelRefill {
  import opened Vqmbt
  import opened Channel
  import opened ChannelTheorems

  /** The step copies a word that the event 16 later has already been stored over. */
  predicate TakesRefilled(c: Ring, m: Micro) {
    && m.TakeWord? && c.reader.Copying? && m.f !in c.reader.copied
    && c.prod.Filling? && c.prod.at == c.reader.from + RING && m.f in c.prod.filled
  }

  function RefilledAfter(c: Ring, m: Micro, refilled: set<Field>): set<Field> {
    if m.LoadWrite? && c.reader.Loading? then {}
    else if TakesRefilled(c, m) then refilled + {m.f}
    else refilled
  }

  /** The words of the schedule's last read that had been refilled before they were copied. */
  function Refilled(sched: seq<Micro>): set<Field> {
    if sched == [] then {}
    else
      var rest := sched[..|sched| - 1];
      RefilledAfter(Run(false, Boot(), rest), sched[|sched| - 1], Refilled(rest))
  }

  /** The word copied is that of the event read, or of the one 16 later if it was refilled. */
  ghost predicate Sourced(c: Ring, from: int, got: Event, f: Field, refilled: set<Field>) {
    WordOf(c, if f in refilled then from + RING else from, got, f)
  }

  ghost predicate SourceInv(c: Ring, refilled: set<Field>) {
    match c.reader
    case Copying(from, got, copied) =>
      && refilled <= copied
      && (refilled != {} ==> |c.emitted| >= from + RING)
      && (forall f :: f in copied ==> Sourced(c, from, got, f, refilled) || |c.emitted| > from + RING)
    case Committing(from, seen, got) => Settles(c, from, seen, got, refilled)
    case Exporting(from, seen, got) => Settles(c, from, seen, got, refilled)
    case _ => true
  }

  ghost predicate Settles(c: Ring, from: int, seen: int, got: Event, refilled: set<Field>) {
    (refilled != {} ==> seen == from + RING) && forall f :: Sourced(c, from, got, f, refilled)
  }

  lemma ProducerKeepsSource(c: Ring, m: Micro, refilled: set<Field>)
    requires ProducerInv(c) && SourceInv(c, refilled)
    ensures SourceInv(ProducerStep(false, c, m), refilled)
  {
    var d := ProducerStep(false, c, m);
    ProducerGrows(c, m);
    match c.reader
    case Copying(from, got, copied) =>
      forall f | f in copied ensures Sourced(d, from, got, f, refilled) || |d.emitted| > from + RING {
        if Sourced(c, from, got, f, refilled) {
          ProducerKeepsWord(c, m, if f in refilled then from + RING else from, got, f);
        }
      }
    case Committing(from, seen, got) => ProducerKeepsSettles(c, m, from, seen, got, refilled);
    case Exporting(from, seen, got) => ProducerKeepsSettles(c, m, from, seen, got, refilled);
    case _ =>
  }

  lemma ProducerKeepsSettles(c: Ring, m: Micro, from: int, seen: int, got: Event, refilled: set<Field>)
    requires ProducerInv(c) && Settles(c, from, seen, got, refilled)
    ensures Settles(ProducerStep(false, c, m), from, seen, got, refilled)
  {
    var d := ProducerStep(false, c, m);
    forall f ensures Sourced(d, from, got, f, refilled) {
      assert Sourced(c, from, got, f, refilled);
      ProducerKeepsWord(c, m, if f in refilled then from + RING else from, got, f);
    }
  }

  lemma TakeKeepsSource(c: Ring, f: Field, refilled: set<Field>)
    requires Inv(c) && SourceInv(c, refilled) && c.reader.Copying? && f !in c.reader.copied
    ensures SourceInv(ReaderStep(false, c, TakeWord(f)), RefilledAfter(c, TakeWord(f), refilled))
  {
    var d := ReaderStep(false, c, TakeWord(f));
    var after := RefilledAfter(c, TakeWord(f), refilled);
    var from := c.reader.from;
    forall g | g in d.reader.copied ensures Sourced(d, from, d.reader.got, g, after) || |d.emitted| > from + RING {
      if g == f {
        TakenWord(c, f, refilled);
      } else {
        assert Sourced(c, from, c.reader.got, g, refilled) || |c.emitted| > from + RING;
      }
    }
  }

  lemma TakenWord(c: Ring, f: Field, refilled: set<Field>)
    requires ProducerInv(c) && SlotsHold(c) && c.reader.Copying? && 0 <= c.reader.from < |c.emitted|
    requires f !in c.reader.copied && refilled <= c.reader.copied
    ensures var got := CopyWord(c.reader.got, f, c.slots[c.reader.from % RING]);
            Sourced(c, c.reader.from, got, f, RefilledAfter(c, TakeWord(f), refilled)) || |c.emitted| > c.reader.from + RING
  {
    if |c.emitted| <= c.reader.from + RING {
      assert SlotWord(c, c.reader.from, f);
    }
  }

  lemma ReaderKeepsSource(c: Ring, m: Micro, refilled: set<Field>)
    requires Inv(c) && SourceInv(c, refilled)
    ensures SourceInv(ReaderStep(false, c, m), RefilledAfter(c, m, refilled))
  {
    var d := ReaderStep(false, c, m);
    match m
    case TakeWord(f) =>
      if c.reader.Copying? && f !in c.reader.copied {
        TakeKeepsSource(c, f, refilled);
      }
    case Reload =>
      if d != c && d.reader.Committing? {
        ReloadSettles(c, refilled);
      }
    case Commit =>
      if c.reader.Committing? {
        SettlesSame(c, d, c.reader.from, c.reader.seen, c.reader.got, refilled);
      }
    case _ =>
  }

  lemma ReloadSettles(c: Ring, refilled: set<Field>)
    requires Inv(c) && SourceInv(c, refilled)
    requires c.reader.Copying? && ReaderStep(false, c, Reload).reader.Committing?
    ensures SourceInv(ReaderStep(false, c, Reload), refilled)
  {
    var d := ReaderStep(false, c, Reload);
    var from, got := c.reader.from, c.reader.got;
    forall f ensures Sourced(d, from, got, f, refilled) {
      AllFields(f);
      assert Sourced(c, from, got, f, refilled) || |c.emitted| > from + RING;
    }
  }

  lemma SettlesSame(c: Ring, d: Ring, from: int, seen: int, got: Event, refilled: set<Field>)
    requires Settles(c, from, seen, got, refilled) && d.emitted == c.emitted && d.prod == c.prod
    ensures Settles(d, from, seen, got, refilled)
  {
    forall f ensures Sourced(d, from, got, f, refilled) {
      assert Sourced(c, from, got, f, refilled);
    }
  }

  lemma StepKeepsSource(c: Ring, m: Micro, refilled: set<Field>)
    requires Inv(c) && SourceInv(c, refilled)
    ensures SourceInv(Step(false, c, m), RefilledAfter(c, m, refilled))
  {
    OneSideMoves(false, c, m);
    if ProducerMicro(m) {
      ProducerKeepsSource(c, m, refilled);
    } else {
      ReaderKeepsSource(c, m, refilled);
    }
  }

  lemma {:induction false} RunKeepsSource(sched: seq<Micro>)
    ensures Inv(Run(false, Boot(), sched)) && SourceInv(Run(false, Boot(), sched), Refilled(sched))
  {
    if sched == [] {
      BootInv();
    } else {
      var rest := sched[..|sched| - 1];
      RunKeepsSource(rest);
      StepKeepsInv(Run(false, Boot(), rest), sched[|sched| - 1]);
      StepKeepsSource(Run(false, Boot(), rest), sched[|sched| - 1], Refilled(rest));
    }
  }

  /** Event n, published or in flight. */
  function EventNo(c: Ring, n: int): Event {
    if 0 <= n < |c.emitted| then c.emitted[n] else if c.prod.Filling? then c.prod.ev else ZERO_EVENT
  }

  /** The read about to return has the words of the event 16 later where they were refilled
      before being copied, which happens at lag 16 only, and its own event's elsewhere. */
  ghost predicate ReadSources(c: Ring, refilled: set<Field>)
    requires c.reader.Exporting?
  {
    var from, got := c.reader.from, c.reader.got;
    && 0 <= from < |c.emitted|
    && (refilled != {} ==> c.reader.seen == from + RING)
    && (forall f :: SameWord(got, EventNo(c, if f in refilled then from + RING else from), f))
    && (got == c.emitted[from] <==> forall f :: f in refilled ==> SameWord(EventNo(c, from + RING), c.emitted[from], f))
  }

  /** In every interleaving, the words a read returns are known exactly, and it returns the
      event at its read index if and only if every word refilled before it was copied happens
      to be the same in the event 16 later. */
  lemma ReadIsExactUnlessRefilled(sched: seq<Micro>)
    requires Run(false, Boot(), sched).reader.Exporting?
    ensures ReadSources(Run(false, Boot(), sched), Refilled(sched))
  {
    RunKeepsSource(sched);
    SourcesAtExport(Run(false, Boot(), sched), Refilled(sched));
  }

  lemma SourcesAtExport(c: Ring, refilled: set<Field>)
    requires Inv(c) && SourceInv(c, refilled) && c.reader.Exporting?
    ensures ReadSources(c, refilled)
  {
    var from, got, own := c.reader.from, c.reader.got, c.emitted[c.reader.from];
    forall f ensures SameWord(got, EventNo(c, if f in refilled then from + RING else from), f) {
      assert Sourced(c, from, got, f, refilled);
    }
    if forall f :: f in refilled ==> SameWord(EventNo(c, from + RING), own, f) {
      forall f ensures SameWord(got, own, f) {
        assert SameWord(got, EventNo(c, if f in refilled then from + RING else from), f);
      }
      SameWordsSameEvent(got, own);
    } else {
      var f :| f in refilled && !SameWord(EventNo(c, from + RING), own, f);
      assert SameWord(got, EventNo(c, from + RING), f);
      assert !SameWord(got, own, f);
    }
  }
}
