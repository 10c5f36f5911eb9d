/** bt_event.c: the Bluetooth stack's events, translated and put into the ring. */
module BtEvent {
  import opened Vqmbt
  import opened RingBuffer

  datatype SceBtEvent = SceBtEvent(id: int, unk1: int, unk3: int, mac0: bv32, mac1: bv32)

  const CONNECT_RESULT := 0x05
  const DISCONNECT := 0x06
  const ADD_REMOVE_CONNECTING_DEVICE := 0x07
  const TOGGLE_BLUETOOTH := 0x15

  /** What one read of the stack's own queue gives: an event, its overflow error, or any
      other error. */
  datatype Upstream = Item(event: SceBtEvent) | Lost | Failed

  /** The events one upstream reading puts into the ring: at most one. */
  function Emission(u: Upstream): (es: seq<Event>)
    ensures |es| <= 1 && (u.Lost? ==> es == [Event(DroppedEvents, 0, 0)])
    ensures forall e :: e in es ==> e.id != NoEvent
  {
    match u
    case Failed => []
    case Lost => [Event(DroppedEvents, 0, 0)]
    case Item(e) =>
      if e.id == CONNECT_RESULT then
        [Event(if e.unk1 == 0x00 then DeviceConnectSuccess
               else if e.unk1 == 0x02 then DeviceConnectAborted
               else if e.unk1 == 0x05 then DeviceConnectCancelled
               else DeviceConnectFailed, e.mac0, e.mac1)]
      else if e.id == DISCONNECT then [Event(DeviceDisconnected, e.mac0, e.mac1)]
      else if e.id == ADD_REMOVE_CONNECTING_DEVICE then [Event(DeviceAddedRemovedConnecting, e.mac0, e.mac1)]
      else if e.id == TOGGLE_BLUETOOTH && e.unk3 == 0x09 then [Event(BluetoothEnabled, 0, 0)]
      else if e.id == TOGGLE_BLUETOOTH && e.unk3 == 0x20 then [Event(BluetoothDisabled, 0, 0)]
      else []
  }

  /** What the stack's event puts into the ring, number by number: 0x05 by its result, 0x06,
      0x07, and 0x15 by its payload; nothing for any other. */
  predicate Translated(e: SceBtEvent, es: seq<Event>) {
    && (e.id == 0x05 && e.unk1 == 0x00 ==> es == [Event(DeviceConnectSuccess, e.mac0, e.mac1)])
    && (e.id == 0x05 && e.unk1 == 0x02 ==> es == [Event(DeviceConnectAborted, e.mac0, e.mac1)])
    && (e.id == 0x05 && e.unk1 == 0x05 ==> es == [Event(DeviceConnectCancelled, e.mac0, e.mac1)])
    && (e.id == 0x05 && e.unk1 !in {0x00, 0x02, 0x05} ==> es == [Event(DeviceConnectFailed, e.mac0, e.mac1)])
    && (e.id == 0x06 ==> es == [Event(DeviceDisconnected, e.mac0, e.mac1)])
    && (e.id == 0x07 ==> es == [Event(DeviceAddedRemovedConnecting, e.mac0, e.mac1)])
    && (e.id == 0x15 && e.unk3 == 0x09 ==> es == [Event(BluetoothEnabled, 0, 0)])
    && (e.id == 0x15 && e.unk3 == 0x20 ==> es == [Event(BluetoothDisabled, 0, 0)])
    && (e.id == 0x15 && e.unk3 !in {0x09, 0x20} ==> es == [])
    && (e.id !in {0x05, 0x06, 0x07, 0x15} ==> es == [])
  }

  lemma EmissionTranslates(e: SceBtEvent)
    ensures Translated(e, Emission(Item(e)))
  {
  }

  function Emissions(us: seq<Upstream>): seq<Event> {
    if us == [] then [] else Emissions(us[..|us| - 1]) + Emission(us[|us| - 1])
  }

  lemma {:induction false} EmissionsPrefix(us: seq<Upstream>, j: nat)
    requires j <= |us|
    ensures Emissions(us[..j]) <= Emissions(us)
  {
    if j < |us| {
      EmissionsPrefix(us[..|us| - 1], j);
      assert us[..|us| - 1][..j] == us[..j];
    } else {
      assert us[..j] == us;
    }
  }

  /** Upstream reading j, if it means anything to the user module, is the ring's event
      number |Emissions(us[..j])|; an upstream overflow always does. */
  lemma EmissionAt(us: seq<Upstream>, j: nat)
    requires j < |us|
    ensures var i := |Emissions(us[..j])|;
            && i + |Emission(us[j])| <= |Emissions(us)|
            && Emissions(us)[i..i + |Emission(us[j])|] == Emission(us[j])
    ensures us[j].Lost? ==> |Emissions(us[..j])| < |Emissions(us)|
    ensures us[j].Lost? ==> Emissions(us)[|Emissions(us[..j])|].id == DroppedEvents
  {
    EmissionsPrefix(us, j + 1);
    OneMoreEmission(us, j);
    PrefixSlice(Emissions(us), Emissions(us[..j + 1]), Emissions(us[..j]), Emission(us[j]));
  }

  lemma OneMoreEmission(us: seq<Upstream>, j: nat)
    requires j < |us|
    ensures Emissions(us[..j + 1]) == Emissions(us[..j]) + Emission(us[j])
  {
    assert us[..j + 1][..j] == us[..j];
  }

  lemma NoneFailedYet(us: seq<Upstream>, j: nat)
    requires j < |us| && Failed !in us[..j] && !us[j].Failed?
    ensures Failed !in us[..j + 1]
  {
    assert us[..j + 1] == us[..j] + [us[j]];
  }

  lemma Appended(a: seq<Event>, b: seq<Event>, c: seq<Event>)
    ensures a + b + c == a + (b + c)
  {
  }

  lemma PrefixSlice(all: seq<Event>, ab: seq<Event>, a: seq<Event>, b: seq<Event>)
    requires ab <= all && ab == a + b
    ensures |a| + |b| <= |all| && all[|a|..|a| + |b|] == b
    ensures |b| > 0 ==> all[|a|] == b[0]
  {
    assert all[..|ab|] == ab;
    assert all[|a|..|a| + |b|] == ab[|a|..];
    assert |b| > 0 ==> all[|a|] == ab[|a|];
  }

  /** handle_event_dropped. */
  method HandleEventDropped(ring: RingBuffer)
    requires ring.Valid()
    modifies ring, ring.ringBuffer
    ensures ring.Valid() && ring.passed == old(ring.passed)
    ensures ring.emitted == old(ring.emitted) + Emission(Lost)
  {
    var ev := Event(DroppedEvents, 0, 0);
    var _ := ring.Emit(Some(ev), true);
  }

  /** handle_event. */
  method HandleEvent(ring: RingBuffer, event: SceBtEvent)
    requires ring.Valid()
    modifies ring, ring.ringBuffer
    ensures ring.Valid() && ring.passed == old(ring.passed)
    ensures old(ring.emitted) <= ring.emitted && Translated(event, ring.emitted[|old(ring.emitted)|..])
    ensures ring.emitted == old(ring.emitted) + Emission(Item(event))
  {
    EmissionTranslates(event);
    var ret := 0;
    if event.id == CONNECT_RESULT {
      if event.unk1 == 0x00 {
        ret := ring.Emit(Some(Event(DeviceConnectSuccess, event.mac0, event.mac1)), true);
      } else if event.unk1 == 0x04 {
        ret := ring.Emit(Some(Event(DeviceConnectFailed, event.mac0, event.mac1)), true);
      } else if event.unk1 == 0x02 {
        ret := ring.Emit(Some(Event(DeviceConnectAborted, event.mac0, event.mac1)), true);
      } else if event.unk1 == 0x05 {
        ret := ring.Emit(Some(Event(DeviceConnectCancelled, event.mac0, event.mac1)), true);
      } else if event.unk1 == 0x08 {
        ret := ring.Emit(Some(Event(DeviceConnectFailed, event.mac0, event.mac1)), true);
      } else {
        ret := ring.Emit(Some(Event(DeviceConnectFailed, event.mac0, event.mac1)), true);
      }
    } else if event.id == DISCONNECT {
      ret := ring.Emit(Some(Event(DeviceDisconnected, event.mac0, event.mac1)), true);
    } else if event.id == ADD_REMOVE_CONNECTING_DEVICE {
      ret := ring.Emit(Some(Event(DeviceAddedRemovedConnecting, event.mac0, event.mac1)), true);
    } else if event.id == TOGGLE_BLUETOOTH {
      if event.unk3 == 0x09 {
        ret := ring.Emit(Some(Event(BluetoothEnabled, 0, 0)), true);
      } else if event.unk3 == 0x20 {
        ret := ring.Emit(Some(Event(BluetoothDisabled, 0, 0)), true);
      }
    }
  }

  /** event_callback: drains the stack's queue, telling the ring of every loss reported. It
      stops at the end of the queue or at the first other error. */
  method EventCallback(ring: RingBuffer, upstream: seq<Upstream>) returns (used: nat)
    requires ring.Valid()
    modifies ring, ring.ringBuffer
    ensures ring.Valid() && ring.passed == old(ring.passed)
    ensures used <= |upstream| && Failed !in upstream[..used]
    ensures used < |upstream| ==> upstream[used].Failed?
    ensures ring.emitted == old(ring.emitted) + Emissions(upstream[..used])
  {
    used := 0;
    while true
      invariant ring.Valid() && ring.passed == old(ring.passed)
      invariant used <= |upstream| && Failed !in upstream[..used]
      invariant ring.emitted == old(ring.emitted) + Emissions(upstream[..used])
      decreases |upstream| - used
    {
      if used == |upstream| {
        break;
      }
      if upstream[used].Failed? {
        break;
      }
      OneMoreEmission(upstream, used);
      NoneFailedYet(upstream, used);
      Appended(old(ring.emitted), Emissions(upstream[..used]), Emission(upstream[used]));
      if upstream[used].Lost? {
        HandleEventDropped(ring);
        used := used + 1;
        continue;
      }
      HandleEvent(ring, upstream[used].event);
      used := used + 1;
    }
  }
}
