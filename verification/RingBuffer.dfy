/** umod_callback.c in place: one array, two 32-bit counters and an event flag. Each
    method is one call with nothing interleaved; its effect is proved to be the run of the
    same call's steps in Channel, and is described by the events themselves. */
module RingBuffer {
  import opened Vqmbt
  import opened Channel
  import opened ChannelTheorems

  type Word = x: int | 0 <= x < WORD_LIMIT

  function Code(res: ReadResult): int {
    match res
    case Nothing => 0
    case Got(_) => 1
    case Overflow => ERROR_OVERFLOW
    case KernelSide => ERROR_KERNEL_SIDE
    case InvalidArgument => ERROR_INVALID_ARGUMENT
  }

  /** What an uninterrupted kvqmbt_read_event leaves behind, path by path. */
  function ReadEffect(wraps: bool, c: Ring, want: int, nullEvent: bool, ok: bool): Ring {
    if want > 1 || (want > 0 && nullEvent) then c.(reader := Returned(InvalidArgument))
    else if c.r == c.w then c.(reader := Returned(Nothing))
    else if want < 1 then c.(r := c.w, reader := Returned(Nothing))
    else if Counter(wraps, c.w - c.r) > RING then c.(r := c.w, reader := Returned(Overflow))
    else c.(r := Counter(wraps, c.r + 1),
            reader := Returned(if ok then Got(c.slots[c.r % RING]) else KernelSide))
  }

  lemma ReadCallEffect(wraps: bool, c: Ring, want: int, nullEvent: bool, ok: bool)
    requires c.reader.Away?
    ensures Run(wraps, c, ReadCall(want, nullEvent, ok)) == ReadEffect(wraps, c, want, nullEvent, ok)
  {
    var head := [ReadBegin(want, nullEvent), LoadWrite, StoreRead];
    var d := ReadHead(wraps, c, want, nullEvent);
    ReadEffectParts(wraps, c, want, nullEvent, ok);
    var e := ReadTail(wraps, d, ok);
    RunJoin(wraps, c, head, d, TAKE_ALL + [Reload, Commit, Export(ok)], e);
  }

  lemma ReadEffectParts(wraps: bool, c: Ring, want: int, nullEvent: bool, ok: bool)
    ensures !Copies(wraps, c, want, nullEvent) ==>
              ReadEffect(wraps, c, want, nullEvent, ok) == ReadEffect(wraps, c, want, nullEvent, true)
              && ReadEffect(wraps, c, want, nullEvent, ok).reader.Returned?
    ensures Copies(wraps, c, want, nullEvent) ==>
              ReadEffect(wraps, c, want, nullEvent, ok)
              == c.(r := Counter(wraps, c.r + 1), reader := Returned(if ok then Got(c.slots[c.r % RING]) else KernelSide))
  {
  }

  /** Where the copying of a slot begins, if the call gets that far. */
  predicate Copies(wraps: bool, c: Ring, want: int, nullEvent: bool) {
    want == 1 && !nullEvent && c.r != c.w && Counter(wraps, c.w - c.r) <= RING
  }

  lemma ReadHead(wraps: bool, c: Ring, want: int, nullEvent: bool) returns (d: Ring)
    requires c.reader.Away?
    ensures d == Run(wraps, c, [ReadBegin(want, nullEvent), LoadWrite, StoreRead])
    ensures d == if Copies(wraps, c, want, nullEvent) then c.(reader := Copying(c.r, ZERO_EVENT, {}))
                 else ReadEffect(wraps, c, want, nullEvent, true)
  {
    OneSideMoves(wraps, c, ReadBegin(want, nullEvent));
    var c1 := ReaderStep(wraps, c, ReadBegin(want, nullEvent));
    OneSideMoves(wraps, c1, LoadWrite);
    var c2 := ReaderStep(wraps, c1, LoadWrite);
    OneSideMoves(wraps, c2, StoreRead);
    d := ReaderStep(wraps, c2, StoreRead);
    RunThree(wraps, c, ReadBegin(want, nullEvent), c1, LoadWrite, c2, StoreRead, d);
  }

  /** The rest of the call does nothing after a return, and otherwise takes the event. */
  lemma ReadTail(wraps: bool, c: Ring, ok: bool) returns (d: Ring)
    requires c.reader.Returned?
             || (c.reader.Copying? && c.reader.copied == {} && Counter(wraps, c.w - c.reader.from) <= RING)
    ensures d == Run(wraps, c, TAKE_ALL + [Reload, Commit, Export(ok)])
    ensures d == if c.reader.Returned? then c
                 else c.(r := Counter(wraps, c.reader.from + 1),
                         reader := Returned(if ok then Got(c.slots[c.reader.from % RING]) else KernelSide))
  {
    var c1 := c;
    if c.reader.Returned? {
      ReturnedStays(wraps, c, ok);
      d := c;
    } else {
      c1 := TakeAll(wraps, c);
      d := FinishRead(wraps, c1, ok);
    }
    RunJoin(wraps, c, TAKE_ALL, c1, [Reload, Commit, Export(ok)], d);
  }

  lemma ReturnedStays(wraps: bool, c: Ring, ok: bool)
    requires c.reader.Returned?
    ensures Run(wraps, c, TAKE_ALL) == c && Run(wraps, c, [Reload, Commit, Export(ok)]) == c
  {
    NotEnabled(wraps, c, TakeWord(IdWord));
    NotEnabled(wraps, c, TakeWord(Mac0Word));
    NotEnabled(wraps, c, TakeWord(Mac1Word));
    NotEnabled(wraps, c, Reload);
    NotEnabled(wraps, c, Commit);
    NotEnabled(wraps, c, Export(ok));
    RunThree(wraps, c, TakeWord(IdWord), c, TakeWord(Mac0Word), c, TakeWord(Mac1Word), c);
    RunThree(wraps, c, Reload, c, Commit, c, Export(ok), c);
  }

  lemma NotEnabled(wraps: bool, c: Ring, m: Micro)
    requires c.reader.Returned? && (m.TakeWord? || m.Reload? || m.Commit? || m.Export?)
    ensures Goes(wraps, c, m, c)
  {
  }

  lemma FinishRead(wraps: bool, c: Ring, ok: bool) returns (d: Ring)
    requires c.reader.Copying? && c.reader.copied == ALL_FIELDS && Counter(wraps, c.w - c.reader.from) <= RING
    ensures d == Run(wraps, c, [Reload, Commit, Export(ok)])
    ensures d == c.(r := Counter(wraps, c.reader.from + 1),
                    reader := Returned(if ok then Got(c.reader.got) else KernelSide))
  {
    var c1: Ring := c.(reader := Committing(c.reader.from, c.w, c.reader.got));
    var c2: Ring := c.(r := Counter(wraps, c.reader.from + 1), reader := Exporting(c.reader.from, c.w, c.reader.got));
    d := c2.(reader := Returned(if ok then Got(c.reader.got) else KernelSide));
    ReloadGoes(wraps, c, c1);
    CommitGoes(wraps, c1, c2);
    ExportGoes(wraps, c2, ok, d);
    RunThree(wraps, c, Reload, c1, Commit, c2, Export(ok), d);
  }

  lemma ReloadGoes(wraps: bool, c: Ring, d: Ring)
    requires c.reader.Copying? && c.reader.copied == ALL_FIELDS && Counter(wraps, c.w - c.reader.from) <= RING
    requires d == c.(reader := Committing(c.reader.from, c.w, c.reader.got))
    ensures Goes(wraps, c, Reload, d)
  {
  }

  lemma CommitGoes(wraps: bool, c: Ring, d: Ring)
    requires c.reader.Committing?
    requires d == c.(r := Counter(wraps, c.reader.from + 1), reader := Exporting(c.reader.from, c.reader.seen, c.reader.got))
    ensures Goes(wraps, c, Commit, d)
  {
  }

  lemma ExportGoes(wraps: bool, c: Ring, ok: bool, d: Ring)
    requires c.reader.Exporting? && d == c.(reader := Returned(if ok then Got(c.reader.got) else KernelSide))
    ensures Goes(wraps, c, Export(ok), d)
  {
  }

  /** The lag the counters show is the real one modulo 2^32, and the reader's slot is the one
      that many events back from the writer's. */
  lemma LagIsWrapped(r: nat, w: nat)
    requires r <= w
    ensures (w % WORD_LIMIT - r % WORD_LIMIT) % WORD_LIMIT == (w - r) % WORD_LIMIT
    ensures r % WORD_LIMIT == w % WORD_LIMIT <==> (w - r) % WORD_LIMIT == 0
    ensures (w - (w - r) % WORD_LIMIT) % RING == r % RING
    ensures (w - r) % WORD_LIMIT <= w - r
  {
    WrappedDifference(r, w);
    var d, k := (w - r) % WORD_LIMIT, (w - r) / WORD_LIMIT;
    assert w - d == r + WORD_LIMIT * k;
    AddWords(r, k);
    SameWhenZero(r % WORD_LIMIT, w % WORD_LIMIT);
  }

  /** The last 16 events, or as many as there are, are in their slots. */
  ghost predicate Window(slots: seq<Event>, emitted: seq<Event>)
    requires |slots| == RING
  {
    forall i :: 0 <= i < |emitted| && |emitted| - RING <= i ==> slots[i % RING] == emitted[i]
  }

  lemma WindowMoves(slots: seq<Event>, emitted: seq<Event>, ev: Event)
    requires |slots| == RING && Window(slots, emitted)
    ensures Window(slots[|emitted| % RING := ev], emitted + [ev])
  {
  }

  /** While the lag shown is 1 to 16, the reader's slot holds the event that many back. */
  lemma SlotOfReader(slots: seq<Event>, emitted: seq<Event>, passed: nat)
    requires |slots| == RING && Window(slots, emitted) && passed <= |emitted|
    requires 1 <= (|emitted| - passed) % WORD_LIMIT <= RING
    ensures slots[passed % WORD_LIMIT % RING] == emitted[|emitted| - (|emitted| - passed) % WORD_LIMIT]
  {
    LagIsWrapped(passed, |emitted|);
    SlotOfWrapped(passed);
  }

  lemma PrefixGrows(start: seq<Event>, events: seq<Event>, k: nat)
    requires k < |events|
    ensures start + events[..k] + [events[k]] == start + events[..k + 1]
  {
  }

  /** The lag two counters show, for a reader that has passed `r` of `w` events. */
  function Shown(r: nat, w: nat): (lag: nat)
    requires r <= w
    ensures lag <= w - r
  {
    (w - r) % WORD_LIMIT
  }

  /** What the call leaves behind and returns is what the step machine's call does. */
  predicate Reports(c: Ring, now: Ring, ret: int, event: Event) {
    && c.reader.Returned?
    && now == c.(reader := Away)
    && ret == Code(c.reader.outcome)
    && (ret == 1 ==> event == c.reader.outcome.ev)
  }

  /** The unsigned subtraction of two counters. */
  method Difference(write_idx: Word, read_idx: Word, ghost passed: nat, ghost written: nat) returns (lag: nat)
    requires passed <= written && write_idx == written % WORD_LIMIT && read_idx == passed % WORD_LIMIT
    ensures lag == Shown(passed, written) == Counter(true, write_idx - read_idx)
    ensures lag == 0 <==> write_idx == read_idx
  {
    LagIsWrapped(passed, written);
    lag := (write_idx - read_idx) % WORD_LIMIT;
  }

  class RingBuffer {
    const ringBuffer: array<Event>
    var writeIdx: Word
    var readIdx: Word
    var eventFlagUid: int
    var eventFlag: bool
    /** Every event written so far, and how many of them the reader has moved past. */
    ghost var emitted: seq<Event>
    ghost var passed: nat

    /** The slots hold what was last emitted. */
    ghost predicate Stored()
      reads this`emitted, ringBuffer
    {
      && ringBuffer.Length == RING
      && (forall i :: 0 <= i < |emitted| ==> emitted[i].id != NoEvent)
      && Window(ringBuffer[..], emitted)
    }

    ghost predicate Valid()
      reads this, ringBuffer
    {
      && Stored()
      && passed <= |emitted|
      && writeIdx == |emitted| % WORD_LIMIT
      && readIdx == passed % WORD_LIMIT
    }

    /** The same moment in the step machine with 32-bit counters. */
    ghost function View(): Ring
      requires ringBuffer.Length == RING
      reads this, ringBuffer
    {
      Core(ringBuffer[..], writeIdx, readIdx, eventFlag, Resting, Away, emitted)
    }

    /** The lag the code computes: the real one modulo 2^32. */
    ghost function LagSeen(): nat
      requires passed <= |emitted|
      reads this
    {
      Shown(passed, |emitted|)
    }

    constructor (uid: int)
      ensures Valid() && fresh(ringBuffer)
      ensures View() == Boot() && passed == 0 && eventFlagUid == uid
    {
      ringBuffer := new Event[RING](_ => ZERO_EVENT);
      writeIdx, readIdx, eventFlagUid, eventFlag := 0, 0, uid, false;
      emitted, passed := [], 0;
    }

    /** umod_cb_emit_event; `setOk` is what the event-flag call answers. */
    method Emit(event: Option<Event>, setOk: bool) returns (ret: int)
      requires Valid()
      modifies this, ringBuffer
      ensures Valid() && passed == old(passed) && eventFlagUid == old(eventFlagUid)
      ensures var accepted := event.Some? && event.value.id != NoEvent;
              && ret == (if accepted then 0 else ERROR_INVALID_ARGUMENT)
              && emitted == (if accepted then old(emitted) + [event.value] else old(emitted))
              && View() == (if accepted
                            then EmitEffect(true, old(View()), event.value, eventFlagUid >= 0 && setOk)
                            else old(View()))
    {
      if event.None? || event.value.id == NoEvent {
        return ERROR_INVALID_ARGUMENT;
      }
      ghost var before := View();
      var slotNo := writeIdx % RING;
      ringBuffer[slotNo] := event.value;
      writeIdx := (writeIdx + 1) % WORD_LIMIT;
      emitted := emitted + [event.value];
      SlotOfWrapped(|old(emitted)|);
      WrappedSuccessor(|old(emitted)|);
      if eventFlagUid >= 0 && setOk {
        eventFlag := true;
      }
      assert ringBuffer[..] == before.slots[slotNo := event.value];
      WindowMoves(before.slots, before.emitted, event.value);
      return 0;
    }

    /** The producer's calls while the reader is between two of its own steps. */
    method Preempt(events: seq<Event>)
      requires Valid() && forall ev :: ev in events ==> ev.id != NoEvent
      modifies this, ringBuffer
      ensures Valid() && passed == old(passed) && eventFlagUid == old(eventFlagUid)
      ensures readIdx == old(readIdx)
      ensures emitted == old(emitted) + events
      ensures events == [] ==> View() == old(View())
    {
      for k := 0 to |events|
        invariant Valid() && passed == old(passed) && eventFlagUid == old(eventFlagUid)
        invariant readIdx == old(readIdx)
        invariant emitted == old(emitted) + events[..k]
        invariant k == 0 ==> View() == old(View())
      {
        PrefixGrows(old(emitted), events, k);
        var _ := Emit(Some(events[k]), true);
      }
      assert events[..|events|] == events;
    }

    /** The copy of the reader's slot. */
    method CopySlot() returns (event: Event)
      requires Valid() && 1 <= LagSeen() <= RING
      ensures event == View().slots[readIdx % RING] == emitted[|emitted| - LagSeen()]
    {
      SlotOfReader(ringBuffer[..], emitted, passed);
      event := ringBuffer[readIdx % RING];
    }

    /** The store that commits to the event read. */
    method CommitRead(read_idx: Word)
      requires Valid() && passed < |emitted| && read_idx == readIdx
      modifies this`readIdx, this`passed
      ensures Valid() && passed == old(passed) + 1
      ensures readIdx == (read_idx + 1) % WORD_LIMIT
    {
      WrappedSuccessor(passed);
      readIdx := (read_idx + 1) % WORD_LIMIT;
      passed := passed + 1;
    }

    /** The second half of kvqmbt_read_event, once the lag is known to be 1 to 16: copy the
        slot, look at the write index again, commit, and copy out. */
    method TakeEvent(preempt: seq<Event>, copyOk: bool) returns (ret: int, event: Event)
      requires Valid() && (forall ev :: ev in preempt ==> ev.id != NoEvent) && 1 <= LagSeen() <= RING
      modifies this, ringBuffer
      ensures Valid() && eventFlagUid == old(eventFlagUid) && emitted == old(emitted) + preempt
      ensures if Shown(old(passed), |emitted|) > RING then ret == ERROR_OVERFLOW && passed == |emitted|
              else
                && passed == old(passed) + 1
                && ret == (if copyOk then 1 else ERROR_KERNEL_SIDE)
                && (copyOk ==> event == old(emitted)[|old(emitted)| - old(LagSeen())])
      ensures preempt == [] ==>
                && View() == old(View()).(r := (old(readIdx) + 1) % WORD_LIMIT)
                && (copyOk ==> event == old(View()).slots[old(readIdx) % RING])
    {
      event := ZERO_EVENT;
      var read_idx := readIdx;
      var eventFromBuffer := CopySlot();
      Preempt(preempt);
      var write_idx := writeIdx;
      var lag := Difference(write_idx, read_idx, passed, |emitted|);
      if lag > RING {
        readIdx := write_idx;
        passed := |emitted|;
        return ERROR_OVERFLOW, event;
      }
      CommitRead(read_idx);
      if !copyOk {
        return ERROR_KERNEL_SIDE, event;
      }
      return 1, eventFromBuffer;
    }

    /** kvqmbt_read_event once there is something to read: flush, overrun, or take an event. */
    method ReadPending(numEvents: int, preempt: seq<Event>, copyOk: bool) returns (ret: int, event: Event)
      requires Valid() && LagSeen() > 0 && numEvents <= 1 && forall ev :: ev in preempt ==> ev.id != NoEvent
      modifies this, ringBuffer
      ensures Valid() && eventFlagUid == old(eventFlagUid)
      ensures if numEvents < 1 then ret == 0 && passed == |emitted| && emitted == old(emitted)
              else if old(LagSeen()) > RING then ret == ERROR_OVERFLOW && passed == |emitted| && emitted == old(emitted)
              else
                && emitted == old(emitted) + preempt
                && if Shown(old(passed), |emitted|) > RING then ret == ERROR_OVERFLOW && passed == |emitted|
                   else
                     && passed == old(passed) + 1
                     && ret == (if copyOk then 1 else ERROR_KERNEL_SIDE)
                     && (copyOk ==> event == old(emitted)[|old(emitted)| - old(LagSeen())])
      ensures preempt == [] ==> Reports(ReadEffect(true, old(View()), numEvents, false, copyOk), View(), ret, event)
    {
      event := ZERO_EVENT;
      var read_idx, write_idx := readIdx, writeIdx;
      var lag := Difference(write_idx, read_idx, passed, |emitted|);
      if numEvents < 1 {
        readIdx := write_idx;
        passed := |emitted|;
        return 0, event;
      }
      if lag > RING {
        readIdx := write_idx;
        passed := |emitted|;
        return ERROR_OVERFLOW, event;
      }
      ret, event := TakeEvent(preempt, copyOk);
    }

    /** kvqmbt_read_event with the caller's pointer and count; `copyOk` is what the copy to
        user space answers, and `preempt` the events the producer emits while the slot is
        being copied. The event returned is number `passed` as long as the reader is less
        than 2^32 events behind. */
    method ReadEvent(nullEvent: bool, numEvents: int, preempt: seq<Event>, copyOk: bool) returns (ret: int, event: Event)
      requires Valid() && forall ev :: ev in preempt ==> ev.id != NoEvent
      modifies this, ringBuffer
      ensures Valid() && eventFlagUid == old(eventFlagUid)
      ensures var lag := old(LagSeen());
              if numEvents > 1 || (numEvents == 1 && nullEvent) then
                ret == ERROR_INVALID_ARGUMENT && passed == old(passed) && emitted == old(emitted)
              else if lag == 0 then ret == 0 && passed == old(passed) && emitted == old(emitted)
              else if numEvents < 1 then ret == 0 && passed == |emitted| && emitted == old(emitted)
              else if lag > RING then ret == ERROR_OVERFLOW && passed == |emitted| && emitted == old(emitted)
              else
                && emitted == old(emitted) + preempt
                && if Shown(old(passed), |emitted|) > RING then
                     ret == ERROR_OVERFLOW && passed == |emitted|
                   else
                     && passed == old(passed) + 1
                     && ret == (if copyOk then 1 else ERROR_KERNEL_SIDE)
                     && (copyOk ==> event == old(emitted)[|old(emitted)| - lag])
      ensures preempt == [] ==> Reports(ReadEffect(true, old(View()), numEvents, nullEvent, copyOk), View(), ret, event)
    {
      event := ZERO_EVENT;
      if numEvents > 1 {
        return ERROR_INVALID_ARGUMENT, event;
      }
      if numEvents > 0 && nullEvent {
        return ERROR_INVALID_ARGUMENT, event;
      }
      var read_idx, write_idx := readIdx, writeIdx;
      var lag := Difference(write_idx, read_idx, passed, |emitted|);
      if read_idx == write_idx {
        return 0, event;
      }
      ret, event := ReadPending(numEvents, preempt, copyOk);
    }
  }
}
