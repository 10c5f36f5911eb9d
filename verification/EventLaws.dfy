/** What the Bluetooth stack's reports do to the buttons, from the number reported to the state
    shown, by way of the ring's events and the menu's requests. */
module EventLaws {
  import opened Vqmbt
  import opened Bluetooth
  import opened BtEvent
  import opened QmState
  import opened EventLoop
  import opened MenuRuns
  import Addressing

  /** Slot k is the one an event for this address is meant for. */
  predicate Meant(bs: Buttons, k: nat, mac0: bv32, mac1: bv32)
    requires k < MAX_DEVICES
  {
    mac0 != 0 && mac1 != 0 && HasMac(bs[k], mac0, mac1) && forall j :: 0 <= j < k ==> !HasMac(bs[j], mac0, mac1)
  }

  /** Only the slot meant moves, to the state given, unless Bluetooth is off there. */
  predicate MovesDevice(was: Buttons, mac0: bv32, mac1: bv32, st: BtnState, now: Buttons) {
    forall k :: 0 <= k < MAX_DEVICES ==>
                  now[k] == if Meant(was, k, mac0, mac1) && was[k].st != BtOff then was[k].(st := st) else was[k]
  }

  predicate TurnsOff(was: Buttons, now: Buttons) {
    forall k :: 0 <= k < MAX_DEVICES ==> now[k] == if was[k].st == SlotEmpty then was[k] else was[k].(st := BtOff)
  }

  /** By the number of the cached state: 1, 2 and 4 are restored whatever the slot shows, and the
      others only where Bluetooth was not off. */
  predicate TurnsOn(was: Buttons, now: Buttons) {
    forall k :: 0 <= k < MAX_DEVICES ==>
                  now[k] == (if was[k].st == SlotEmpty then was[k]
                             else if was[k].device.state == 1 then was[k].(st := Disconnected)
                             else if was[k].device.state == 2 then was[k].(st := Connecting)
                             else if was[k].device.state == 4 then was[k].(st := Disconnecting)
                             else if was[k].st == BtOff then was[k]
                             else if was[k].device.state in {3, 5, 6} then was[k].(st := Connected)
                             else was[k].(st := Disconnected))
  }

  /** What handling an event does to the buttons, for every event that is not a reset. */
  predicate Obeyed(was: Buttons, ev: Event, now: Buttons) {
    match ev.id
    case DeviceConnectSuccess => MovesDevice(was, ev.mac0, ev.mac1, Connected, now)
    case DeviceDisconnected => MovesDevice(was, ev.mac0, ev.mac1, Disconnected, now)
    case DeviceConnectFailed => MovesDevice(was, ev.mac0, ev.mac1, Disconnected, now)
    case DeviceConnectAborted => MovesDevice(was, ev.mac0, ev.mac1, Disconnected, now)
    case DeviceConnectCancelled => MovesDevice(was, ev.mac0, ev.mac1, Disconnected, now)
    case BluetoothEnabled => TurnsOn(was, now)
    case BluetoothDisabled => TurnsOff(was, now)
    case NoEvent => now == was
    case DroppedEvents => true
    case DeviceAddedRemovedConnecting => true
  }

  /** The buttons after a few requests. */
  function Told(bs: Buttons, reqs: seq<Req>): Buttons {
    if reqs == [] then bs else Updated(Told(bs, reqs[..|reqs| - 1]), reqs[|reqs| - 1])
  }

  lemma ToldOne(bs: Buttons, req: Req)
    ensures Told(bs, [req]) == Updated(bs, req)
  {
    assert [req][..0] == [];
  }

  lemma DeviceMoves(bs: Buttons, req: Req)
    requires req.SawConnected? || req.SawDisconnected?
    ensures MovesDevice(bs, req.mac0, req.mac1, if req.SawConnected? then Connected else Disconnected, Updated(bs, req))
  {
    var st := if req.SawConnected? then Connected else Disconnected;
    var t := Target(bs, req);
    forall k | 0 <= k < MAX_DEVICES
      ensures Updated(bs, req)[k]
              == if Meant(bs, k, req.mac0, req.mac1) && bs[k].st != BtOff then bs[k].(st := st) else bs[k]
    {
      MeantIsTarget(bs, req.mac0, req.mac1, k);
    }
  }

  lemma MeantIsTarget(bs: Buttons, mac0: bv32, mac1: bv32, k: nat)
    requires k < MAX_DEVICES
    ensures Meant(bs, k, mac0, mac1) <==> MacToIdx(bs, mac0, mac1) == k
  {
  }

  lemma OnTurnsOn(bs: Buttons)
    ensures TurnsOn(bs, Updated(bs, BluetoothOn))
  {
  }

  lemma OffTurnsOff(bs: Buttons)
    ensures TurnsOff(bs, Updated(bs, BluetoothOff))
  {
  }

  /** The requests handle_event makes of an event do exactly that. */
  lemma EventIsObeyed(bs: Buttons, ev: Event)
    ensures Obeyed(bs, ev, Told(bs, RequestOf(ev)))
  {
    if RequestOf(ev) != [] {
      var req := RequestOf(ev)[0];
      assert RequestOf(ev) == [req];
      ToldOne(bs, req);
      match ev.id
      case BluetoothEnabled => OnTurnsOn(bs);
      case BluetoothDisabled => OffTurnsOff(bs);
      case _ => DeviceMoves(bs, req);
    }
  }

  // ----- From the stack to the buttons -----

  /** The buttons once the event a reading puts into the ring, if any, has been handled. */
  function AfterReading(bs: Buttons, u: Upstream): Buttons {
    var es := Emission(u);
    if es == [] then bs else Told(bs, RequestOf(es[0]))
  }

  /** Every reading that does not ask for a reset moves the buttons as its numbers say: a connect
      result the device's button, to Connected if it is 0x00; a disconnect likewise; a toggle all
      of them; and anything else none. */
  lemma ReadingMovesButtons(bs: Buttons, e: SceBtEvent)
    ensures var now := AfterReading(bs, Item(e));
            && (e.id == 0x05 && e.unk1 == 0x00 ==> MovesDevice(bs, e.mac0, e.mac1, Connected, now))
            && (e.id == 0x05 && e.unk1 != 0x00 ==> MovesDevice(bs, e.mac0, e.mac1, Disconnected, now))
            && (e.id == 0x06 ==> MovesDevice(bs, e.mac0, e.mac1, Disconnected, now))
            && (e.id == 0x15 && e.unk3 == 0x09 ==> TurnsOn(bs, now))
            && (e.id == 0x15 && e.unk3 == 0x20 ==> TurnsOff(bs, now))
            && (e.id == 0x15 && e.unk3 !in {0x09, 0x20} ==> now == bs)
            && (e.id !in {0x05, 0x06, 0x07, 0x15} ==> now == bs)
  {
    EmissionTranslates(e);
    var es := Emission(Item(e));
    if es != [] {
      EventIsObeyed(bs, es[0]);
    }
  }

  /** A reading asks for a reset exactly if it is a loss or of kind 0x07. */
  lemma ReadingResets(u: Upstream)
    ensures Emission(u) != [] && Resets(Emission(u)[0].id) <==> u.Lost? || (u.Item? && u.event.id == 0x07)
  {
    if u.Item? {
      EmissionTranslates(u.event);
    }
  }

  /** With the address packed as the snapshot packs it: after any past and a snapshot taken with
      Bluetooth on, a report about registered device i reaches button i and no other, provided
      neither half of its address is zero. */
  lemma ReportReachesButton(past: seq<Req>, bulk: Req, table: seq<Registered>, stateOf: (bv32, bv32) -> int,
                            e: SceBtEvent, i: nat)
    requires Addressing.Reports(bulk, table, stateOf) && bulk.bluetoothOn
    requires Addressing.DistinctMacs(table) && Addressing.NoZeroMac(table)
    requires i < |table| && !Addressing.Refused(table[i].mac) && (e.mac0, e.mac1) == PackMac(table[i].mac)
    ensures var was := After(past + [bulk]);
            var now := AfterReading(was, Item(e));
            && (e.id == 0x05 && e.unk1 == 0x00 ==> now == was[i := was[i].(st := Connected)])
            && (e.id == 0x05 && e.unk1 != 0x00 ==> now == was[i := was[i].(st := Disconnected)])
            && (e.id == 0x06 ==> now == was[i := was[i].(st := Disconnected)])
  {
    var was := After(past + [bulk]);
    ReadingMovesButtons(was, e);
    Addressing.DeviceFinds(past, bulk, table, stateOf, i);
    LitSlot(past, bulk, table, stateOf, i);
    forall st, now | MovesDevice(was, e.mac0, e.mac1, st, now) ensures now == was[i := was[i].(st := st)] {
      OnlyMeant(was, e.mac0, e.mac1, st, now, i);
    }
  }

  lemma OnlyMeant(was: Buttons, mac0: bv32, mac1: bv32, st: BtnState, now: Buttons, i: nat)
    requires i < MAX_DEVICES && MovesDevice(was, mac0, mac1, st, now)
    requires MacToIdx(was, mac0, mac1) == i && was[i].st != BtOff
    ensures now == was[i := was[i].(st := st)]
  {
    forall k | 0 <= k < MAX_DEVICES ensures now[k] == was[i := was[i].(st := st)][k] {
      MeantIsTarget(was, mac0, mac1, k);
    }
  }

  lemma LitSlot(past: seq<Req>, bulk: Req, table: seq<Registered>, stateOf: (bv32, bv32) -> int, i: nat)
    requires Addressing.Reports(bulk, table, stateOf) && bulk.bluetoothOn && Addressing.NoZeroMac(table) && i < |table|
    ensures After(past + [bulk])[i].st != BtOff
  {
    Addressing.ReportIsReal(bulk, table, stateOf);
    BulkSettles(past, bulk, i);
  }
}
