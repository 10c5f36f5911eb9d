/** qm_state.c in place: the button array, the widgets and the `changed` flag threaded
    through every transition. */
module QuickMenuState {
  import opened Vqmbt
  import opened QmState

  /** `now` is `was` with slot i set to b, and `changed` records whether that differs. */
  ghost predicate OneSlot(was: seq<Button>, now: seq<Button>, i: int, b: Button, before: bool, after: bool)
    requires 0 <= i < |was|
  {
    now == was[i := b] && (after <==> before || now != was)
  }

  class QuickMenuState {
    const buttons: array<Button>
    const widgets: array<Widget>
    var firstRun: bool
    /** The kernel calls made so far. */
    var commands: seq<Command>

    ghost predicate Valid()
      reads this
    {
      buttons.Length == MAX_DEVICES && widgets.Length == MAX_DEVICES
    }

    ghost function View(): Ui
      requires Valid()
      reads this, buttons, widgets
    {
      Ui(buttons[..], firstRun, widgets[..], commands)
    }

    constructor (shown: seq<Widget>)
      requires |shown| == MAX_DEVICES
      ensures Valid() && fresh(buttons) && fresh(widgets)
      ensures View() == Start(shown)
    {
      buttons := new Button[MAX_DEVICES](_ => EMPTY_BUTTON);
      widgets := new Widget[MAX_DEVICES](i requires 0 <= i < |shown| => shown[i]);
      firstRun, commands := true, [];
      new;
      assert widgets[..] == shown;
    }

    /** refresh_ui. */
    method RefreshUi()
      requires Valid()
      modifies widgets
      ensures widgets[..] == Faces(buttons[..])
    {
      for idx := 0 to MAX_DEVICES
        invariant forall i :: 0 <= i < idx ==> widgets[i] == Face(buttons[i], i)
      {
        var button := buttons[idx];
        var device := button.device;
        var enabled := false;
        var text: Label;
        match button.st {
          case SlotEmpty => text := NoDevice(idx + 1);
          case BtOff => text := BluetoothDisabledLabel;
          case Disconnecting => text := DisconnectingLabel(device.name);
          case Connecting => text := ConnectingLabel(device.name);
          case Error => text := ErrorLabel(button.errorMessage);
          case Disconnected =>
            text := ConnectLabel(if device.name != "" then device.name else "N/A");
            enabled := true;
          case Connected =>
            text := DisconnectLabel(device.name);
            enabled := true;
        }
        widgets[idx] := Widget(text, enabled);
      }
    }

    /** transition_state_bt_off for one slot. */
    method TransitionBtOff(was: bool, idx: int) returns (changed: bool)
      requires Valid() && 0 <= idx < MAX_DEVICES
      modifies buttons
      ensures OneSlot(old(buttons[..]), buttons[..], idx, TurnedOff(old(buttons[idx])), was, changed)
    {
      changed := was;
      if buttons[idx].st != BtOff && buttons[idx].st != SlotEmpty {
        buttons[idx] := buttons[idx].(st := BtOff);
        changed := true;
      }
    }

    /** transition_state_bt_off for every slot. */
    method TransitionAllBtOff(was: bool) returns (changed: bool)
      requires Valid()
      modifies buttons
      ensures buttons[..] == Updated(old(buttons[..]), BluetoothOff)
      ensures changed <==> was || buttons[..] != old(buttons[..])
    {
      changed := was;
      ghost var start := buttons[..];
      for i := 0 to MAX_DEVICES
        invariant UpTo(start, buttons[..], BluetoothOff, i)
        invariant changed <==> was || buttons[..] != start
      {
        ghost var mid := buttons[..];
        changed := TransitionBtOff(changed, i);
        StillDiffers(start, mid, i, buttons[i]);
      }
    }

    /** transition_state_disconnected. */
    method TransitionDisconnected(was: bool, idx: int, force: bool) returns (changed: bool)
      requires Valid() && 0 <= idx < MAX_DEVICES
      modifies buttons
      ensures OneSlot(old(buttons[..]), buttons[..], idx,
                      if force then old(buttons[idx]).(st := Disconnected) else Notified(old(buttons[idx]), Disconnected),
                      was, changed)
    {
      changed := was;
      if buttons[idx].st == BtOff && !force {
        return;
      }
      if buttons[idx].st != Disconnected {
        buttons[idx] := buttons[idx].(st := Disconnected);
        changed := true;
      }
    }

    /** transition_state_busy_disconnecting. */
    method TransitionBusyDisconnecting(was: bool, idx: int) returns (changed: bool)
      requires Valid() && 0 <= idx < MAX_DEVICES
      modifies buttons
      ensures OneSlot(old(buttons[..]), buttons[..], idx, old(buttons[idx]).(st := Disconnecting), was, changed)
    {
      changed := was;
      if buttons[idx].st != Disconnecting {
        buttons[idx] := buttons[idx].(st := Disconnecting);
        changed := true;
      }
    }

    /** transition_state_connected. */
    method TransitionConnected(was: bool, idx: int, force: bool) returns (changed: bool)
      requires Valid() && 0 <= idx < MAX_DEVICES
      modifies buttons
      ensures OneSlot(old(buttons[..]), buttons[..], idx,
                      if force then old(buttons[idx]).(st := Connected) else Notified(old(buttons[idx]), Connected),
                      was, changed)
    {
      changed := was;
      if buttons[idx].st == BtOff && !force {
        return;
      }
      if buttons[idx].st != Connected {
        buttons[idx] := buttons[idx].(st := Connected);
        changed := true;
      }
    }

    /** transition_state_busy_connecting. */
    method TransitionBusyConnecting(was: bool, idx: int) returns (changed: bool)
      requires Valid() && 0 <= idx < MAX_DEVICES
      modifies buttons
      ensures OneSlot(old(buttons[..]), buttons[..], idx, old(buttons[idx]).(st := Connecting), was, changed)
    {
      changed := was;
      if buttons[idx].st != Connecting {
        buttons[idx] := buttons[idx].(st := Connecting);
        changed := true;
      }
    }

    /** transition_state_error. */
    method TransitionError(was: bool, idx: int, error: int) returns (changed: bool)
      requires Valid() && 0 <= idx < MAX_DEVICES
      modifies buttons
      ensures OneSlot(old(buttons[..]), buttons[..], idx,
                      if old(buttons[idx]).st == Error then old(buttons[idx])
                      else old(buttons[idx]).(st := Error, errorMessage := TextOf(error)),
                      was, changed)
    {
      changed := was;
      if buttons[idx].st == Error {
        return;
      }
      buttons[idx] := buttons[idx].(st := Error);
      if error == ERROR_NOT_CONNECTABLE {
        buttons[idx] := buttons[idx].(errorMessage := MustConnectFromDevice);
      } else if error == ERROR_BUSY {
        buttons[idx] := buttons[idx].(errorMessage := BusySettingsOpened);
      } else {
        buttons[idx] := buttons[idx].(errorMessage := CodeText(error));
      }
      changed := true;
    }

    /** button_pressed; `ret` is the kernel's answer to the call it may make. */
    method Press(was: bool, idx: int, ret: int) returns (changed: bool)
      requires Valid() && 0 <= idx < MAX_DEVICES
      modifies this`commands, buttons
      ensures OneSlot(old(buttons[..]), buttons[..], idx, Pressed(old(buttons[idx]), ret), was, changed)
      ensures commands == old(commands) + Issued(old(buttons[..]), ButtonPressed(idx, ret))
    {
      changed := was;
      var device := buttons[idx].device;
      match buttons[idx].st {
        case SlotEmpty => return;
        case BtOff => return;
        case Disconnecting => return;
        case Connecting => return;
        case Error => return;
        case Disconnected =>
          commands := commands + [Connect(idx, device.mac0, device.mac1)];
          if ret < 0 {
            changed := TransitionError(changed, idx, ret);
          } else {
            changed := TransitionBusyConnecting(changed, idx);
          }
        case Connected =>
          commands := commands + [Disconnect(idx, device.mac0, device.mac1)];
          if ret < 0 {
            changed := TransitionError(changed, idx, ret);
          } else {
            changed := TransitionBusyDisconnecting(changed, idx);
          }
      }
    }

    /** One iteration of transition_state_bt_on. */
    method RestoreSlot(was: bool, idx: int) returns (changed: bool)
      requires Valid() && 0 <= idx < MAX_DEVICES
      modifies buttons
      ensures OneSlot(old(buttons[..]), buttons[..], idx, TurnedOn(old(buttons[idx])), was, changed)
    {
      changed := was;
      if buttons[idx].st == SlotEmpty {
        return;
      }
      var state := buttons[idx].device.state;
      if state == BT_STATE_DISCONNECTED {
        changed := TransitionDisconnected(changed, idx, true);
      } else if state == BT_STATE_CONNECTING {
        changed := TransitionBusyConnecting(changed, idx);
      } else if state == BT_STATE_DISCONNECTING {
        changed := TransitionBusyDisconnecting(changed, idx);
      } else if state == BT_STATE_CONNECTED_HID || state == BT_STATE_CONNECTED || state == BT_STATE_REGISTERING {
        changed := TransitionConnected(changed, idx, false);
      } else {
        changed := TransitionDisconnected(changed, idx, false);
      }
    }

    /** transition_state_bt_on. */
    method TransitionBtOn(was: bool) returns (changed: bool)
      requires Valid()
      modifies buttons
      ensures buttons[..] == Updated(old(buttons[..]), BluetoothOn)
      ensures changed <==> was || buttons[..] != old(buttons[..])
    {
      changed := was;
      ghost var start := buttons[..];
      for idx := 0 to MAX_DEVICES
        invariant UpTo(start, buttons[..], BluetoothOn, idx)
        invariant changed <==> was || buttons[..] != start
      {
        ghost var mid := buttons[..];
        changed := RestoreSlot(changed, idx);
        StillDiffers(start, mid, idx, buttons[idx]);
      }
    }

    /** bulk_updated_remove_device. */
    method RemoveDevice(was: bool, idx: int) returns (changed: bool)
      requires Valid() && 0 <= idx < MAX_DEVICES
      modifies buttons
      ensures OneSlot(old(buttons[..]), buttons[..], idx, Removed(old(buttons[idx])), was, changed)
    {
      changed := was;
      if buttons[idx].st != SlotEmpty {
        buttons[idx] := buttons[idx].(device := ZERO_DEVICE);
        buttons[idx] := buttons[idx].(st := SlotEmpty);
        changed := true;
      }
    }

    /** One iteration of bulk_update for a slot that has a device. A new device is first
        set to disconnected and then moved on, so its slot is written twice. */
    method RefreshSlot(was: bool, idx: int, bluetoothOn: bool, newDevice: Device) returns (changed: bool)
      requires Valid() && 0 <= idx < MAX_DEVICES
      modifies buttons
      ensures OneSlot(old(buttons[..]), buttons[..], idx, Refreshed(old(buttons[idx]), bluetoothOn, newDevice), was, changed)
    {
      changed := was;
      ghost var start := buttons[..];
      var oldDevice := buttons[idx].device;
      if newDevice.mac0 != oldDevice.mac0 || newDevice.mac1 != oldDevice.mac1 {
        buttons[idx] := buttons[idx].(device := newDevice);
        buttons[idx] := buttons[idx].(st := Disconnected);
        changed := true;
      }
      ghost var mid := buttons[..];
      if !bluetoothOn {
        changed := TransitionBtOff(changed, idx);
      } else if newDevice.state == BT_STATE_CONNECTING {
        changed := TransitionBusyConnecting(changed, idx);
      } else if newDevice.state == BT_STATE_DISCONNECTING {
        changed := TransitionBusyDisconnecting(changed, idx);
      } else if newDevice.state == BT_STATE_CONNECTED_HID || newDevice.state == BT_STATE_CONNECTED
                || newDevice.state == BT_STATE_REGISTERING {
        changed := TransitionConnected(changed, idx, true);
      } else {
        changed := TransitionDisconnected(changed, idx, true);
      }
      assert buttons[..][idx].device == mid[idx].device;
      assert mid != start ==> buttons[..][idx] != start[idx];
    }

    /** bulk_update. */
    method BulkUpdateAll(was: bool, request: Req) returns (changed: bool)
      requires Valid() && request.BulkUpdate?
      modifies buttons
      ensures buttons[..] == Updated(old(buttons[..]), request)
      ensures changed <==> was || buttons[..] != old(buttons[..])
    {
      changed := was;
      ghost var start := buttons[..];
      for idx := 0 to MAX_DEVICES
        invariant UpTo(start, buttons[..], request, idx)
        invariant changed <==> was || buttons[..] != start
      {
        ghost var mid := buttons[..];
        if idx >= request.numDevices {
          changed := RemoveDevice(changed, idx);
        } else {
          changed := RefreshSlot(changed, idx, request.bluetoothOn, request.devices[idx]);
        }
        StillDiffers(start, mid, idx, buttons[idx]);
      }
    }

    /** mac_to_idx. */
    method FindMac(mac0: bv32, mac1: bv32) returns (k: int)
      requires Valid()
      ensures k == (if MacToIdx(buttons[..], mac0, mac1) < 0 then ERROR_INVALID_ARGUMENT else MacToIdx(buttons[..], mac0, mac1))
    {
      if mac0 < 1 || mac1 < 1 {
        return ERROR_INVALID_ARGUMENT;
      }
      for idx := 0 to MAX_DEVICES
        invariant MacToIdx(buttons[..], mac0, mac1) == FirstMatch(buttons[..], mac0, mac1, idx)
      {
        if buttons[idx].device.mac0 == mac0 && buttons[idx].device.mac1 == mac1 {
          return idx;
        }
      }
      return ERROR_INVALID_ARGUMENT;
    }

    /** qm_state_update_ui, from taking the mutex to releasing it. It reports a change
        exactly when a slot's contents differ afterwards, and leaves the state, the widgets
        and the kernel calls that QmState's Update gives. */
    method UpdateUi(request: Req) returns (changed: bool)
      requires Valid()
      modifies this, buttons, widgets
      ensures Valid()
      ensures changed <==> buttons[..] != old(buttons[..])
      ensures View() == Update(old(View()), request)
    {
      changed := false;
      ghost var before, start: Buttons := View(), buttons[..];
      match request {
        case BulkUpdate(_, _, _) =>
          changed := BulkUpdateAll(changed, request);
        case ButtonPressed(idx, ret) =>
          changed := Press(changed, idx, ret);
          OneSlotUpdated(start, buttons[..], request);
        case BluetoothOn =>
          changed := TransitionBtOn(changed);
        case BluetoothOff =>
          changed := TransitionAllBtOff(changed);
        case SawDisconnected(mac0, mac1) =>
          var idx := FindMac(mac0, mac1);
          if idx >= 0 {
            changed := TransitionDisconnected(changed, idx, false);
          }
          OneSlotUpdated(start, buttons[..], request);
        case SawConnected(mac0, mac1) =>
          var idx := FindMac(mac0, mac1);
          if idx >= 0 {
            changed := TransitionConnected(changed, idx, false);
          }
          OneSlotUpdated(start, buttons[..], request);
      }
      assert buttons[..] == Updated(start, request) && commands == before.commands + Issued(start, request);
      if changed {
        RefreshUi();
      } else if firstRun {
        RefreshUi();
        firstRun := false;
      }
      UpdateParts(before, request, View());
    }
  }

  lemma UpdateParts(u: Ui, req: Req, v: Ui)
    requires v.buttons == Updated(u.buttons, req) && v.commands == u.commands + Issued(u.buttons, req)
    requires v.firstRun == (u.firstRun && Changes(u, req))
    requires v.widgets == if Changes(u, req) || u.firstRun then Faces(v.buttons) else u.widgets
    ensures v == Update(u, req)
  {
  }

  /** A request addressed to one slot, or to none, has been dealt with. */
  lemma OneSlotUpdated(start: Buttons, now: seq<Button>, req: Req)
    requires req.ButtonPressed? || req.SawConnected? || req.SawDisconnected?
    requires var k := Target(start, req);
             now == if 0 <= k then start[k := SlotAfter(start[k], k, req, k)] else start
    ensures now == Updated(start, req)
  {
  }

  /** The loops have dealt with the slots below n. */
  ghost predicate UpTo(start: seq<Button>, now: seq<Button>, req: Req, n: int) {
    && |start| == |now| == MAX_DEVICES
    && forall i :: 0 <= i < MAX_DEVICES ==> now[i] == if i < n then SlotAfter(start[i], i, req, -1) else start[i]
  }
}
