/** kmod_event.c and quickmenu.c in place: the drain loop, its handlers and the reset, on the
    ring, the snapshot call and the menu themselves. Here the producer emits whole events,
    between system calls and between a read's copy of the slot and its recheck; EventLoop
    covers every interleaving. */
module EventThread {
  import opened Vqmbt
  import BtEvent
  import Channel
  import opened RingBuffer
  import opened Bluetooth
  import opened QmState
  import opened QuickMenuState
  import opened EventLoop
  import EventLaws
  import opened EventLoopHistory
  import opened EventLoopTheorems
  import opened MenuRuns

  /** What the Bluetooth stack answers one snapshot. */
  datatype World = World(on: bool, table: Option<seq<Registered>>, stateOf: (bv32, bv32) -> int, copyOk: nat -> bool)

  predicate Answers(w: World) {
    w.table.Some? ==> |w.table.value| <= MAX_DEVICES
  }

  /** No call of the snapshot fails. */
  ghost predicate Complete(w: World) {
    w.table.Some? && forall k: nat :: k < |w.table.value| ==> w.copyOk(k)
  }

  /** The bulk update passes on what the stack answered: whether Bluetooth is on, how many devices
      there are, and of each its address, name and state. */
  ghost predicate SnapshotOf(req: Req, w: World) {
    && req.BulkUpdate? && w.table.Some?
    && req.bluetoothOn == w.on
    && req.numDevices == |w.table.value| <= |req.devices|
    && forall k :: 0 <= k < req.numDevices ==> IsRecordOf(req.devices[k], w.table.value[k], w.stateOf)
  }

  /** What a reset does to the requests and to the count of failures since the last one that
      worked: if the snapshot works, one bulk update of it is made and the count starts again. */
  ghost predicate ResetDid(w: World, was: seq<Req>, now: seq<Req>, failedBefore: nat, failed: nat) {
    if Complete(w) then failed == 0 && |now| == |was| + 1 && was <= now && SnapshotOf(now[|was|], w)
    else failed == failedBefore + 1 && now == was
  }

  /** Every handled event is the one emitted. */
  ghost predicate AsEmitted(log: seq<Entry>, emitted: seq<Event>) {
    forall k :: 0 <= k < |log| && log[k].Handled? ==> EntryAsEmitted(log, emitted, k)
  }

  /** The entries before the last snapshot applied ended before it began. */
  predicate Anchored(log: seq<Entry>, logBase: nat, mark: nat) {
    logBase <= |log| && (logBase > 0 ==> Hi(log[logBase - 1]) <= mark)
  }

  /** Since the last snapshot applied, entries up to `upto` all handled an event that is not a
      reset, and the requests made are exactly those events'. */
  ghost predicate ToldSince(log: seq<Entry>, logBase: nat, upto: int, requests: seq<Req>, base: nat) {
    && logBase <= upto <= |log| && base <= |requests|
    && (forall k :: logBase <= k < upto ==> log[k].Handled? && !Resets(log[k].ev.id))
    && requests[base..] == HandledRequests(log[logBase..upto])
  }

  lemma ToldNothing(log: seq<Entry>, requests: seq<Req>)
    ensures ToldSince(log, |log|, |log|, requests, |requests|)
  {
    assert log[|log|..|log|] == [];
  }

  lemma ToldMore(log: seq<Entry>, logBase: nat, requests: seq<Req>, base: nat)
    requires log != [] && ToldSince(log, logBase, |log| - 1, requests, base)
    requires log[|log| - 1].Handled? && !Resets(log[|log| - 1].ev.id)
    ensures ToldSince(log, logBase, |log|, requests + RequestOf(log[|log| - 1].ev), base)
  {
    var n := |log| - 1;
    assert log[logBase..|log|] == log[logBase..n] + [log[n]];
    HandledAppend(log[logBase..n], log[n]);
    assert (requests + RequestOf(log[n].ev))[base..] == requests[base..] + RequestOf(log[n].ev);
  }

  lemma ToldStill(log: seq<Entry>, e: Entry, logBase: nat, requests: seq<Req>, base: nat)
    requires ToldSince(log, logBase, |log|, requests, base)
    ensures ToldSince(log + [e], logBase, |log|, requests, base)
  {
    assert (log + [e])[logBase..|log|] == log[logBase..|log|];
  }

  lemma StartAnchored(log: seq<Entry>, n: int, logBase: nat, mark: nat)
    requires Tiles(log, n) && Anchored(log, logBase, mark)
    ensures StartOf(log, n, logBase) <= mark
  {
    if logBase > 0 {
      StretchEnd(log, n, logBase);
    } else if log != [] {
      assert Fits(log, 0);
    }
  }

  /** One more request served. */
  lemma FollowOne(start: Ui, n: nat, was: seq<Req>, req: Req)
    requires n <= |was|
    ensures Serve(start, (was + [req])[n..]) == Update(Serve(start, was[n..]), req)
  {
    assert (was + [req])[n..] == was[n..] + [req];
    assert (was[n..] + [req])[..|was[n..]|] == was[n..];
  }

  lemma StoryGoesOn(emitted: seq<Event>, future: seq<Event>)
    requires future != []
    ensures emitted + [future[0]] + future[1..] == emitted + future
  {
  }

  class EventThread {
    const ring: RingBuffer
    const bluetooth: Bluetooth
    const menu: QuickMenuState
    /** What the stack answers snapshot number n. */
    const worldAt: nat -> World
    /** The events the producer is still going to emit, some before each system call. */
    var future: seq<Event>
    /** How many snapshots have been taken. */
    var snapshots: nat
    /** As in EventLoop: the fate of every index passed, the requests made of the menu, the
        events emitted before the last applied snapshot began, the calls that have failed since,
        and where that snapshot stands in the requests and the log; it was number `applied`. */
    ghost var log: seq<Entry>
    ghost var requests: seq<Req>
    ghost var mark: nat
    ghost var faults: nat
    ghost var base: nat
    ghost var logBase: nat
    ghost var applied: nat

    /** The ring, and the thread's history of what it passed. */
    ghost predicate History()
      reads this`future, this`log, this`logBase, this`mark, ring, ring.ringBuffer
    {
      && ring.Valid()
      && (forall e :: e in future ==> e.id != NoEvent)
      && Tiles(log, ring.passed)
      && mark <= |ring.emitted|
      && AsEmitted(log, ring.emitted)
      && Anchored(log, logBase, mark)
    }

    /** The last snapshot applied is in the requests as it was answered. */
    ghost predicate Snapped()
      reads this`requests, this`base, this`applied, this`snapshots
    {
      && (forall n :: Answers(worldAt(n)))
      && base <= |requests|
      && (base > 0 ==> applied < snapshots && SnapshotOf(requests[base - 1], worldAt(applied)))
    }

    /** Between any two calls. */
    ghost predicate Sound()
      reads this, ring, ring.ringBuffer, menu, bluetooth
    {
      History() && Snapped() && menu.Valid() && bluetooth.Valid()
    }

    /** Unless a call has failed since the last snapshot, the menu has been told of everything up
        to this entry. */
    ghost predicate Current(upto: int)
      reads this`log, this`logBase, this`requests, this`base, this`faults
    {
      faults == 0 ==> ToldSince(log, logBase, upto, requests, base)
    }

    /** Between two events handled. */
    ghost predicate Valid()
      reads this, ring, ring.ringBuffer, menu, bluetooth
    {
      Sound() && Current(|log|)
    }

    /** The event just read is the last one noted, and has not been handled. */
    ghost predicate Owes(event: Event)
      reads this`log, this`logBase, this`requests, this`base, this`faults
    {
      log != [] && log[|log| - 1].Handled? && log[|log| - 1].ev == event && Current(|log| - 1)
    }

    /** How many more events the thread can ever be given. */
    ghost function Outlook(): int
      reads this, ring
    {
      |ring.emitted| + |future| - ring.passed
    }

    /** Everything that will ever have been emitted, in order. */
    ghost function Story(): seq<Event>
      reads this, ring
    {
      ring.emitted + future
    }

    constructor (ring: RingBuffer, bluetooth: Bluetooth, menu: QuickMenuState, worldAt: nat -> World, future: seq<Event>)
      requires ring.Valid() && menu.Valid() && bluetooth.Valid() && ring.passed == 0
      requires (forall e :: e in future ==> e.id != NoEvent) && forall n :: Answers(worldAt(n))
      ensures Valid() && this.ring == ring && this.menu == menu && this.bluetooth == bluetooth
      ensures this.worldAt == worldAt && snapshots == 0
      ensures log == [] && requests == [] && Story() == ring.emitted + future
    {
      this.ring, this.bluetooth, this.menu, this.worldAt, this.future := ring, bluetooth, menu, worldAt, future;
      snapshots := 0;
      log, requests, mark, faults, base, logBase, applied := [], [], 0, 0, 0, 0, 0;
    }

    /** The producer emits the next event it has in store. */
    method EmitNext()
      requires History() && future != []
      modifies this`future, ring, ring.ringBuffer
      ensures History() && ring.passed == old(ring.passed) && future == old(future)[1..]
      ensures ring.emitted == old(ring.emitted) + [old(future)[0]]
    {
      var _ := ring.Emit(Some(future[0]), true);
      future := future[1..];
    }

    /** The producer emits some of what it has in store. */
    method Interfere()
      requires History()
      modifies this`future, ring, ring.ringBuffer
      ensures History() && ring.passed == old(ring.passed) && Story() == old(Story())
      ensures old(ring.emitted) <= ring.emitted
    {
      var n: nat :| n <= |future|;
      for k := 0 to n
        invariant History() && ring.passed == old(ring.passed) && Story() == old(Story())
        invariant old(ring.emitted) <= ring.emitted && |future| == |old(future)| - k
      {
        StoryGoesOn(ring.emitted, future);
        EmitNext();
      }
    }

    /** kvqmbt_read_event(NULL, 0), noting what it flushed. */
    method Flush()
      requires History() && Outlook() < WORD_LIMIT
      modifies this`log, ring, ring.ringBuffer
      ensures History() && ring.emitted == old(ring.emitted) && ring.passed == |ring.emitted|
      ensures old(log) <= log
    {
      var ret, _ := ring.ReadEvent(true, 0, [], true);
      if old(ring.passed) < ring.passed {
        TilesAppend(log, old(ring.passed), Flushed(old(ring.passed), ring.passed));
        log := log + [Flushed(old(ring.passed), ring.passed)];
      }
    }

    /** The two snapshot calls of reset, with the producer running in between. */
    method TakeSnapshot() returns (bluetoothOn: bool, count: int, devices: array<Device>, ghost begun: nat)
      requires History() && bluetooth.Valid() && Answers(worldAt(snapshots))
      modifies this`future, this`snapshots, ring, ring.ringBuffer, bluetooth.pairedDevices
      ensures History() && ring.passed == old(ring.passed) && Story() == old(Story())
      ensures old(ring.emitted) <= ring.emitted && |old(ring.emitted)| == begun
      ensures snapshots == old(snapshots) + 1
      ensures fresh(devices) && devices.Length == MAX_DEVICES && count <= MAX_DEVICES
      ensures var w := worldAt(old(snapshots));
              if Complete(w) then count >= 0 && SnapshotOf(BulkUpdate(bluetoothOn, count, devices[..]), w) else count < 0
    {
      begun := |ring.emitted|;
      var world := worldAt(snapshots);
      snapshots := snapshots + 1;
      bluetoothOn := world.on;
      Interfere();
      devices := new Device[MAX_DEVICES](_ => ZERO_DEVICE);
      count := bluetooth.GetPairedDevices(devices, MAX_DEVICES, world.table, world.stateOf, world.copyOk);
      Collected(world, bluetoothOn, count, devices[..]);
    }

    /** What GetPairedDevices promises, in terms of the snapshot. */
    static lemma Collected(w: World, on: bool, count: int, devices: seq<Device>)
      requires |devices| == MAX_DEVICES && on == w.on && Answers(w)
      requires w.table.None? ==> count < 0
      requires w.table.Some? ==>
                 var n := Delivered(|w.table.value|, w.copyOk);
                 && count == (if n == |w.table.value| then n else ERROR_KERNEL_SIDE)
                 && forall k :: 0 <= k < n ==> devices[k] == RecordOf(w.table.value[k], w.stateOf)
      ensures if Complete(w) then count >= 0 && SnapshotOf(BulkUpdate(on, count, devices), w) else count < 0
    {
      if Complete(w) {
        var n := |w.table.value|;
        Bluetooth.DeliveredIs(n, w.copyOk, n);
        forall k | 0 <= k < n ensures IsRecordOf(devices[k], w.table.value[k], w.stateOf) {
          RecordIsFaithful(w.table.value[k], w.stateOf);
        }
      }
    }

    /** reset: flush, then take a snapshot, then hand it to the menu. The flush passes everything
        emitted before. If the snapshot works, the menu gets exactly what was answered, and every
        earlier failure is made good; if not, the flush stands and nothing is. */
    method Reset()
      requires Sound() && Outlook() < WORD_LIMIT
      modifies this, ring, ring.ringBuffer, bluetooth.pairedDevices, menu, menu.buttons, menu.widgets
      ensures Valid() && Story() == old(Story())
      ensures old(ring.passed) <= ring.passed && old(ring.emitted) <= ring.emitted && old(log) <= log
      ensures |old(ring.emitted)| <= ring.passed && snapshots == old(snapshots) + 1
      ensures old(requests) <= requests && menu.View() == Serve(old(menu.View()), requests[|old(requests)|..])
      ensures ResetDid(worldAt(old(snapshots)), old(requests), requests, old(faults), faults)
      ensures if faults == 0 then
                base == |requests| && logBase == |log| && applied == old(snapshots) && |old(ring.emitted)| <= mark
              else mark == old(mark) && base == old(base) && logBase == old(logBase) && applied == old(applied)
    {
      var bluetoothOn, count, devices, begun := Gather();
      if count < 0 {
        faults := faults + 1;
        assert requests[|old(requests)|..] == [];
        return;
      }
      Apply(BulkUpdate(bluetoothOn, count, devices[..]), begun);
    }

    /** The flush and the two snapshot calls. */
    method Gather() returns (bluetoothOn: bool, count: int, devices: array<Device>, ghost begun: nat)
      requires History() && bluetooth.Valid() && Answers(worldAt(snapshots)) && Outlook() < WORD_LIMIT
      modifies this`future, this`snapshots, this`log, ring, ring.ringBuffer, bluetooth.pairedDevices
      ensures History() && Story() == old(Story()) && old(log) <= log && old(ring.emitted) <= ring.emitted
      ensures old(ring.passed) <= ring.passed && |old(ring.emitted)| <= ring.passed <= begun <= |ring.emitted|
      ensures snapshots == old(snapshots) + 1
      ensures fresh(devices) && devices.Length == MAX_DEVICES && count <= MAX_DEVICES
      ensures var w := worldAt(old(snapshots));
              if Complete(w) then count >= 0 && SnapshotOf(BulkUpdate(bluetoothOn, count, devices[..]), w) else count < 0
    {
      Interfere();
      Flush();
      Interfere();
      bluetoothOn, count, devices, begun := TakeSnapshot();
    }

    /** The menu's bulk update, with the snapshot recorded. */
    method Apply(request: Req, ghost begun: nat)
      requires History() && menu.Valid() && (forall n :: Answers(worldAt(n)))
      requires ring.passed <= begun <= |ring.emitted|
      requires snapshots > 0 && SnapshotOf(request, worldAt(snapshots - 1))
      modifies this`requests, this`mark, this`faults, this`base, this`logBase, this`applied,
               menu, menu.buttons, menu.widgets
      ensures History() && menu.Valid() && Snapped() && Current(|log|) && mark == begun && faults == 0
      ensures requests == old(requests) + [request]
      ensures base == |requests| && logBase == |log| && applied == snapshots - 1
      ensures menu.View() == Serve(old(menu.View()), requests[|old(requests)|..])
    {
      ServeOne(menu.View(), request);
      var _ := menu.UpdateUi(request);
      assert (requests + [request])[|requests|..] == [request];
      Record(request, begun);
    }

    ghost method Record(request: Req, begun: nat)
      requires History() && (forall n :: Answers(worldAt(n))) && ring.passed <= begun <= |ring.emitted|
      requires snapshots > 0 && SnapshotOf(request, worldAt(snapshots - 1))
      modifies this`requests, this`mark, this`faults, this`base, this`logBase, this`applied
      ensures History() && Snapped() && Current(|log|) && mark == begun && faults == 0
      ensures requests == old(requests) + [request]
      ensures base == |requests| && logBase == |log| && applied == snapshots - 1
    {
      LogEnds(log, ring.passed, begun);
      ToldNothing(log, requests + [request]);
      requests := requests + [request];
      mark, faults, base, logBase, applied := begun, 0, |requests|, |log|, snapshots - 1;
    }

    static lemma LogEnds(log: seq<Entry>, passed: int, begun: nat)
      requires Tiles(log, passed) && passed <= begun
      ensures Anchored(log, |log|, begun)
    {
    }

    static lemma ServeOne(u: Ui, req: Req)
      ensures Serve(u, [req]) == Update(u, req)
    {
      assert [req][..0] == [];
    }

    /** Event i was handled exactly as emitted, or was emitted before the last snapshot that
        was applied began. */
    ghost predicate Accounted(i: int)
      reads this, ring
    {
      (exists k :: 0 <= k < |log| && log[k].Handled? && log[k].at == i
                   && 0 <= i < |ring.emitted| && log[k].ev == ring.emitted[i])
      || i < mark
    }

    lemma AllAccounted()
      requires Valid() && faults == 0
      ensures forall i :: 0 <= i < ring.passed ==> Accounted(i)
    {
      forall i | 0 <= i < ring.passed ensures Accounted(i) {
        var k := EntryOf(log, ring.passed, i);
        if k < logBase {
          EarlierEnds(log, ring.passed, k, logBase, mark);
        } else {
          assert EntryAsEmitted(log, ring.emitted, k);
        }
      }
    }

    static lemma EarlierEnds(log: seq<Entry>, passed: int, k: nat, logBase: nat, mark: nat)
      requires Tiles(log, passed) && Anchored(log, logBase, mark) && k < logBase
      ensures Hi(log[k]) <= mark
    {
      if k < logBase - 1 {
        EntriesOrdered(log, passed, k, logBase - 1);
        assert Fits(log, logBase - 1);
      }
    }

    /** Since the last snapshot the menu has been told exactly the events from the one its flush
        came up to, up to the read index. */
    ghost predicate UpToDate()
      reads this, ring
    {
      var lo := StartOf(log, ring.passed, logBase);
      && 0 <= lo <= ring.passed <= |ring.emitted| && lo <= mark && base <= |requests|
      && requests[base..] == RequestsFor(ring.emitted[lo..ring.passed])
    }

    lemma AllTold()
      requires Valid() && faults == 0
      ensures UpToDate()
    {
      forall k | logBase <= k < |log| ensures EntryAsEmitted(log, ring.emitted, k) {
      }
      HandledStretch(log, ring.emitted, ring.passed, logBase);
      StartAnchored(log, ring.passed, logBase, mark);
    }

    /** The menu has been given exactly the requests recorded since. */
    ghost predicate MenuFollows(start: Ui, n: nat)
      requires menu.Valid()
      reads this`requests, menu, menu.buttons, menu.widgets
    {
      n <= |requests| && menu.View() == Serve(start, requests[n..])
    }

    /** qm_state_update_ui, with the request recorded. */
    method Tell(request: Req, ghost start: Ui, ghost n: nat)
      requires menu.Valid() && Snapped() && MenuFollows(start, n)
      modifies this`requests, menu, menu.buttons, menu.widgets
      ensures menu.Valid() && Snapped() && MenuFollows(start, n) && requests == old(requests) + [request]
      ensures menu.buttons[..] == Updated(old(menu.buttons[..]), request)
    {
      FollowOne(start, n, requests, request);
      var _ := menu.UpdateUi(request);
      Remember(request);
    }

    ghost method Remember(request: Req)
      requires Snapped()
      modifies this`requests
      ensures Snapped() && requests == old(requests) + [request]
    {
      requests := requests + [request];
    }

    /** reset, continuing the menu's record. */
    method ResetAndFollow(ghost start: Ui, ghost n: nat)
      requires Sound() && Outlook() < WORD_LIMIT && MenuFollows(start, n)
      modifies this, ring, ring.ringBuffer, bluetooth.pairedDevices, menu, menu.buttons, menu.widgets
      ensures Valid() && MenuFollows(start, n) && Story() == old(Story()) && old(log) <= log
      ensures old(ring.passed) <= ring.passed && |old(ring.emitted)| <= ring.passed && old(ring.emitted) <= ring.emitted
      ensures old(requests) <= requests && snapshots == old(snapshots) + 1
      ensures ResetDid(worldAt(old(snapshots)), old(requests), requests, old(faults), faults)
    {
      Reset();
      ghost var was, more := old(requests)[n..], requests[|old(requests)|..];
      assert requests[n..] == was + more;
      ServeAppend(start, was, more);
    }

    /** handle_event. A loss or a device added, removed or connecting resets; every other event
        moves the buttons as its kind says, and nothing else happens. */
    method HandleEvent(event: Event, ghost start: Ui, ghost n: nat)
      requires Sound() && Outlook() < WORD_LIMIT && MenuFollows(start, n) && Owes(event)
      modifies this, ring, ring.ringBuffer, bluetooth.pairedDevices, menu, menu.buttons, menu.widgets
      ensures Valid() && MenuFollows(start, n) && Story() == old(Story()) && old(log) <= log
      ensures old(ring.passed) <= ring.passed && old(ring.emitted) <= ring.emitted && old(requests) <= requests
      ensures if event.id == DroppedEvents || event.id == DeviceAddedRemovedConnecting then
                && snapshots == old(snapshots) + 1 && |old(ring.emitted)| <= ring.passed
                && ResetDid(worldAt(old(snapshots)), old(requests), requests, old(faults), faults)
              else
                && snapshots == old(snapshots) && ring.passed == old(ring.passed) && ring.emitted == old(ring.emitted)
                && faults == old(faults)
                && EventLaws.Obeyed(old(menu.buttons[..]), event, menu.buttons[..])
    {
      if event.id == DroppedEvents {
        ResetAndFollow(start, n);
      } else if event.id == DeviceAddedRemovedConnecting {
        ResetAndFollow(start, n);
      } else {
        HandlePlain(event, start, n);
      }
    }

    /** The other cases of handle_event. */
    method HandlePlain(event: Event, ghost start: Ui, ghost n: nat)
      requires Sound() && MenuFollows(start, n) && Owes(event) && !Resets(event.id)
      modifies this`requests, menu, menu.buttons, menu.widgets
      ensures Valid() && MenuFollows(start, n) && old(requests) <= requests
      ensures EventLaws.Obeyed(old(menu.buttons[..]), event, menu.buttons[..])
    {
      if faults == 0 {
        ToldMore(log, logBase, requests, base);
      }
      EventLaws.EventIsObeyed(menu.buttons[..], event);
      TellOf(event, start, n);
    }

    /** The cases of handle_event that turn the event into a request. */
    method TellOf(event: Event, ghost start: Ui, ghost n: nat)
      requires menu.Valid() && Snapped() && MenuFollows(start, n) && !Resets(event.id)
      modifies this`requests, menu, menu.buttons, menu.widgets
      ensures menu.Valid() && Snapped() && MenuFollows(start, n) && requests == old(requests) + RequestOf(event)
      ensures menu.buttons[..] == EventLaws.Told(old(menu.buttons[..]), RequestOf(event))
    {
      if RequestOf(event) != [] {
        EventLaws.ToldOne(menu.buttons[..], RequestOf(event)[0]);
      }
      match event.id
      case BluetoothEnabled => Tell(BluetoothOn, start, n);
      case BluetoothDisabled => Tell(BluetoothOff, start, n);
      case DeviceDisconnected => Tell(SawDisconnected(event.mac0, event.mac1), start, n);
      case DeviceConnectSuccess => Tell(SawConnected(event.mac0, event.mac1), start, n);
      case DeviceConnectFailed => Tell(SawDisconnected(event.mac0, event.mac1), start, n);
      case DeviceConnectAborted => Tell(SawDisconnected(event.mac0, event.mac1), start, n);
      case DeviceConnectCancelled => Tell(SawDisconnected(event.mac0, event.mac1), start, n);
      case NoEvent => assert requests + RequestOf(event) == requests;
    }

    /** The events the producer emits while the next read copies a slot, if it gets that far. */
    method Preemption() returns (events: seq<Event>)
      requires History()
      modifies this`future
      ensures History() && events + future == old(future) && forall ev :: ev in events ==> ev.id != NoEvent
      ensures events != [] ==> 1 <= ring.LagSeen() <= Channel.RING
    {
      var n: nat :| n <= |future|;
      var lag := Difference(ring.writeIdx, ring.readIdx, ring.passed, |ring.emitted|);
      events := [];
      if 1 <= lag <= Channel.RING {
        events, future := future[..n], future[n..];
      }
    }

    /** kvqmbt_read_event(&event, 1), noting what became of the indices it passed. */
    method Fetch() returns (ret: int, event: Event)
      requires History() && Current(|log|) && Outlook() < WORD_LIMIT
      modifies this`future, this`log, this`faults, ring, ring.ringBuffer
      ensures History() && Story() == old(Story()) && 0 <= Outlook()
      ensures old(ring.emitted) <= ring.emitted && old(ring.passed) <= ring.passed
      ensures ret == 0 ==> Current(|log|) && ring.passed == |ring.emitted| && faults == old(faults) && Outlook() == old(Outlook())
      ensures ret == ERROR_OVERFLOW ==> faults == old(faults) && Outlook() < old(Outlook())
      ensures ret == 1 ==> faults == old(faults) && Outlook() < old(Outlook()) && Owes(event)
      ensures ret != 0 && ret != 1 && ret != ERROR_OVERFLOW ==>
                ret < 0 && faults == old(faults) + 1 && Outlook() < old(Outlook())
    {
      ghost var from := ring.passed;
      ret, event := ReadPreempted();
      if ret != 0 {
        Note(FateOf(ret, from, ring.passed, |ring.emitted|, event));
      }
      if ret < 0 && ret != ERROR_OVERFLOW {
        faults := faults + 1;
      }
    }

    /** What a read's answer says of the indices it passed. */
    static function FateOf(ret: int, from: int, passed: int, seen: int, event: Event): Entry {
      if ret == ERROR_OVERFLOW then Overrun(from, passed)
      else if ret < 0 then CopyLost(from)
      else Handled(from, seen, event)
    }

    /** The call with the producer running inside it; nothing is noted yet. */
    method ReadPreempted() returns (ret: int, event: Event)
      requires History() && Outlook() < WORD_LIMIT
      modifies this`future, ring, ring.ringBuffer
      ensures ring.Valid() && Story() == old(Story()) && old(ring.emitted) <= ring.emitted
      ensures (forall e :: e in future ==> e.id != NoEvent) && AsEmitted(log, ring.emitted)
      ensures if ret == 0 then ring.passed == old(ring.passed) == |ring.emitted|
              else if ret == ERROR_OVERFLOW then ring.passed == |ring.emitted| > old(ring.passed) + Channel.RING
              else
                && ring.passed == old(ring.passed) + 1 <= |ring.emitted|
                && (ret == 1 || ret < 0)
                && (ret == 1 ==> event == ring.emitted[old(ring.passed)])
    {
      ghost var emitted := ring.emitted;
      var copyOk: bool := *;
      var preempt := Preemption();
      ret, event := Read(preempt, copyOk);
      BtEvent.Appended(emitted, preempt, future);
    }

    /** The call itself, less than 2^32 events behind, where the ring's own view of the lag is
        the real one. */
    method Read(preempt: seq<Event>, copyOk: bool) returns (ret: int, event: Event)
      requires ring.Valid() && |ring.emitted| + |preempt| - ring.passed < WORD_LIMIT
      requires forall ev :: ev in preempt ==> ev.id != NoEvent
      requires preempt != [] ==> 1 <= ring.LagSeen() <= Channel.RING
      modifies ring, ring.ringBuffer
      ensures ring.Valid() && ring.emitted == old(ring.emitted) + preempt
      ensures if ret == 0 then ring.passed == old(ring.passed) == |ring.emitted|
              else if ret == ERROR_OVERFLOW then ring.passed == |ring.emitted| > old(ring.passed) + Channel.RING
              else
                && ring.passed == old(ring.passed) + 1 <= |ring.emitted|
                && (ret == 1 || ret < 0)
                && (ret == 1 ==> event == ring.emitted[old(ring.passed)])
    {
      assert ring.LagSeen() == |ring.emitted| - ring.passed;
      assert Shown(ring.passed, |ring.emitted + preempt|) == |ring.emitted| + |preempt| - ring.passed;
      ret, event := ring.ReadEvent(false, 1, preempt, copyOk);
    }

    /** Records the fate of the indices the last read passed. */
    ghost method Note(e: Entry)
      requires Tiles(log, Lo(e)) && Lo(e) < Hi(e) == ring.passed && (e.Overrun? ==> Hi(e) - Lo(e) > Channel.RING)
      requires e.Handled? ==> 0 <= e.at < |ring.emitted| && e.ev == ring.emitted[e.at]
      requires ring.Valid() && mark <= |ring.emitted| && Anchored(log, logBase, mark) && Current(|log|)
      requires (forall ev :: ev in future ==> ev.id != NoEvent) && AsEmitted(log, ring.emitted)
      modifies this`log
      ensures History() && log == old(log) + [e] && Current(|log| - 1)
    {
      if faults == 0 {
        ToldStill(log, e, logBase, requests, base);
      }
      TilesAppend(log, Lo(e), e);
      log := log + [e];
    }

    /** One turn of fetch_events' loop: negative if it breaks off for an error, 0 if it ends on an
        empty ring, and 1 if it goes on. */
    method Turn(ghost start: Ui, ghost n: nat) returns (ret: int)
      requires Valid() && Outlook() < WORD_LIMIT && MenuFollows(start, n)
      modifies this, ring, ring.ringBuffer, bluetooth.pairedDevices, menu, menu.buttons, menu.widgets
      ensures Valid() && MenuFollows(start, n) && Story() == old(Story()) && 0 <= Outlook()
      ensures old(requests) <= requests && old(snapshots) <= snapshots && old(ring.passed) <= ring.passed
      ensures ret == 0 ==> ring.passed == |ring.emitted| && Outlook() == old(Outlook())
      ensures ret != 0 ==> Outlook() < old(Outlook())
      ensures ret < 0 ==> faults > 0
      ensures ret <= 1
    {
      Interfere();
      var event: Event;
      ret, event := Fetch();
      if ret == ERROR_OVERFLOW {
        ResetAndFollow(start, n);
        ret := 1;
      } else if ret == 1 {
        HandleEvent(event, start, n);
      }
    }

    /** fetch_events. It ends with the ring empty or with a failed call; it goes round at most
        once for every event already in the ring or still to be emitted. Unless some call has
        failed since the last snapshot, every event passed was handled exactly or is covered by
        that snapshot, and the menu has been told exactly the events since. */
    method FetchEvents(ghost start: Ui, ghost n: nat) returns (clean: bool, ghost rounds: nat)
      requires Valid() && Outlook() < WORD_LIMIT && MenuFollows(start, n)
      modifies this, ring, ring.ringBuffer, bluetooth.pairedDevices, menu, menu.buttons, menu.widgets
      ensures Valid() && MenuFollows(start, n) && Story() == old(Story())
      ensures old(requests) <= requests && old(snapshots) <= snapshots && old(ring.passed) <= ring.passed
      ensures clean ==> ring.passed == |ring.emitted|
      ensures !clean ==> faults > 0
      ensures rounds <= old(Outlook()) && Outlook() <= old(Outlook())
      ensures faults == 0 ==> UpToDate() && forall i :: 0 <= i < ring.passed ==> Accounted(i)
    {
      rounds := 0;
      while true
        invariant Valid() && MenuFollows(start, n) && Story() == old(Story())
        invariant old(requests) <= requests && old(snapshots) <= snapshots && old(ring.passed) <= ring.passed
        invariant rounds + Outlook() <= old(Outlook()) && 0 <= Outlook()
        decreases Outlook()
      {
        var ret := Turn(start, n);
        if ret < 0 {
          clean := false;
          break;
        }
        if ret == 0 {
          clean := true;
          break;
        }
        rounds := rounds + 1;
      }
      if faults == 0 {
        AllAccounted();
        AllTold();
      }
    }

    /** Whether event_thread's loop runs once more. */
    static predicate GoesOn(w: Wake) {
      w.Signalled? || w.TimedOut?
    }

    /** The wait has cleared the flag, unless it timed out; the drain follows. */
    method Awake(w: Wake, ghost start: Ui, ghost n: nat)
      requires Valid() && Outlook() < WORD_LIMIT && MenuFollows(start, n) && GoesOn(w)
      modifies this, ring, ring.ringBuffer, bluetooth.pairedDevices, menu, menu.buttons, menu.widgets
      ensures Valid() && MenuFollows(start, n) && Story() == old(Story())
      ensures old(requests) <= requests && old(snapshots) <= snapshots && old(ring.passed) <= ring.passed
      ensures Outlook() <= old(Outlook()) && (faults == 0 ==> ring.passed == |ring.emitted|)
    {
      if w.Signalled? {
        ring.eventFlag := false;
      }
      var _, _ := FetchEvents(start, n);
    }

    /** The wait loop of event_thread, for any finite course of its waits: a drain after every
        wake-up or timeout, until a wait fails or the thread is told to stop. */
    method WaitAndDrain(waits: seq<Wake>, ghost start: Ui, ghost n: nat)
      requires Valid() && Outlook() < WORD_LIMIT && MenuFollows(start, n)
      modifies this, ring, ring.ringBuffer, bluetooth.pairedDevices, menu, menu.buttons, menu.widgets
      ensures Valid() && MenuFollows(start, n) && Story() == old(Story())
      ensures old(requests) <= requests && old(snapshots) <= snapshots && old(ring.passed) <= ring.passed
      ensures waits != [] && GoesOn(waits[0]) && faults == 0 ==> ring.passed == |ring.emitted|
    {
      for k := 0 to |waits|
        invariant Valid() && MenuFollows(start, n) && Story() == old(Story()) && Outlook() < WORD_LIMIT
        invariant old(requests) <= requests && old(snapshots) <= snapshots && old(ring.passed) <= ring.passed
        invariant k > 0 && faults == 0 ==> ring.passed == |ring.emitted|
      {
        if waits[k].WaitFailed? || waits[k].StopRequested? {
          break;
        }
        Awake(waits[k], start, n);
      }
    }

    /** event_thread: a reset, then the wait loop. The first reset is number `old(snapshots)`;
        after any drain the ring has been emptied, unless a call failed. */
    method Run(flagUid: int, waits: seq<Wake>)
      requires Valid() && Outlook() < WORD_LIMIT
      modifies this, ring, ring.ringBuffer, bluetooth.pairedDevices, menu, menu.buttons, menu.widgets
      ensures Valid() && Story() == old(Story())
      ensures MenuFollows(old(menu.View()), |old(requests)|)
      ensures old(requests) <= requests && old(snapshots) < snapshots && |old(ring.emitted)| <= ring.passed
      ensures Complete(worldAt(old(snapshots))) ==>
                |old(requests)| < |requests| && SnapshotOf(requests[|old(requests)|], worldAt(old(snapshots)))
      ensures flagUid >= 0 && waits != [] && GoesOn(waits[0]) && faults == 0 ==> ring.passed == |ring.emitted|
      ensures faults == 0 ==> UpToDate() && forall i :: 0 <= i < ring.passed ==> Accounted(i)
    {
      ghost var start, n := menu.View(), |requests|;
      assert requests[n..] == [];
      ResetAndFollow(start, n);
      if flagUid >= 0 {
        WaitAndDrain(waits, start, n);
      }
      if faults == 0 {
        AllAccounted();
        AllTold();
      }
    }
  }
}
