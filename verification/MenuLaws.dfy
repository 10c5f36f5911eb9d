/** What the menu's states mean to the user and to the kernel: the laws by which the numbers a
    snapshot reports become calls on a press, and states become labels. */
module MenuLaws {
  import opened Vqmbt
  import opened QmState
  import opened MenuRuns

  /** What a press of slot i asks of the kernel. */
  function Sends(bs: Buttons, i: nat, ret: int): seq<Command>
    requires i < MAX_DEVICES
  {
    Issued(bs, ButtonPressed(i, ret))
  }

  // ----- From the kernel's state numbers to calls -----

  /** The stack's states 3, 5 and 6 are kinds of connected; 2 and 4 are on the way. */
  ghost predicate PressFits(bs: Buttons, i: nat, ret: int, d: Device)
    requires i < MAX_DEVICES
  {
    var sent := Sends(bs, i, ret);
    && (sent == [Disconnect(i, d.mac0, d.mac1)] <==> d.state == 3 || d.state == 5 || d.state == 6)
    && (sent == [] <==> d.state == 2 || d.state == 4)
    && (sent == [Connect(i, d.mac0, d.mac1)] <==> d.state < 2 || d.state > 6)
    && (d.state == 2 ==> bs[i].st == Connecting)
    && (d.state == 4 ==> bs[i].st == Disconnecting)
  }

  /** After any past and a snapshot taken with Bluetooth on, a press disconnects a device the
      snapshot calls connected, does nothing to one on its way, and connects any other. */
  lemma SnapshotDecidesPress(past: seq<Req>, bulk: Req, i: nat, ret: int)
    requires bulk.BulkUpdate? && bulk.bluetoothOn && Real(bulk) && i < Clamped(bulk.numDevices)
    ensures PressFits(After(past + [bulk]), i, ret, bulk.devices[i])
  {
    BulkSettles(past, bulk, i);
  }

  /** After a snapshot taken with Bluetooth off, no press sends anything, and exactly the
      listed slots say so. */
  lemma OffSnapshotSilencesPress(past: seq<Req>, bulk: Req, i: nat, ret: int)
    requires bulk.BulkUpdate? && !bulk.bluetoothOn && Real(bulk) && i < MAX_DEVICES
    ensures var bs := After(past + [bulk]);
            && Sends(bs, i, ret) == []
            && (Faces(bs)[i].text == BluetoothDisabledLabel <==> i < bulk.numDevices)
            && (Faces(bs)[i].text == NoDevice(i + 1) <==> i >= bulk.numDevices)
  {
    BulkSettles(past, bulk, i);
  }

  /** Off, anything that cannot turn Bluetooth on, then on: of the frozen record's states only 1
      makes a press connect again and only 2 and 4 show as busy; with every other one, a press
      still does nothing and the slot says that Bluetooth is off. */
  lemma OffOnDecidesPress(before: seq<Req>, mid: seq<Req>, i: nat, ret: int) returns (j: nat)
    requires AllReal(before) && AllLatched(mid) && i < MAX_DEVICES && After(before)[i].st != SlotEmpty
    ensures FrozenAt(before, i, j, After(before)[i].device)
    ensures var d := before[j].devices[i];
            var bs := After(before + [BluetoothOff] + mid + [BluetoothOn]);
            && (Sends(bs, i, ret) == [Connect(i, d.mac0, d.mac1)] <==> d.state == 1)
            && (Sends(bs, i, ret) == [] <==> d.state != 1)
            && (Faces(bs)[i].text == ConnectingLabel(d.name) <==> d.state == 2)
            && (Faces(bs)[i].text == DisconnectingLabel(d.name) <==> d.state == 4)
            && (Faces(bs)[i].text == BluetoothDisabledLabel <==> d.state !in {1, 2, 4})
  {
    j := OffOnRestores(before, mid, i);
  }

  // ----- From calls to labels -----

  /** A button is enabled exactly when a press would send something, and says what. */
  lemma LabelTellsPress(bs: Buttons, i: nat, ret: int)
    requires i < MAX_DEVICES
    ensures var w, d, sent := Faces(bs)[i], bs[i].device, Sends(bs, i, ret);
            && (w.enabled <==> sent != [])
            && (w.text == ConnectLabel(if d.name == "" then "N/A" else d.name) <==> sent == [Connect(i, d.mac0, d.mac1)])
            && (w.text == DisconnectLabel(d.name) <==> sent == [Disconnect(i, d.mac0, d.mac1)])
  {
  }

  /** What the error label says of the kernel's answer. */
  predicate Explains(text: ErrorText, ret: int) {
    if ret == 0x8069_0003 - 0x1_0000_0000 then text == MustConnectFromDevice
    else if ret == 0x8069_0004 - 0x1_0000_0000 then text == BusySettingsOpened
    else text == CodeText(ret)
  }

  /** After a press that connects, the button says so until something else happens; likewise for
      one that disconnects; a refusal is shown with its reason; no other button moves, and a
      press that sends nothing changes nothing. */
  lemma LabelTellsAnswer(bs: Buttons, i: nat, ret: int)
    requires i < MAX_DEVICES
    ensures var now := Updated(bs, ButtonPressed(i, ret));
            var w, d, sent := Faces(now)[i], bs[i].device, Sends(bs, i, ret);
            && (sent == [] ==> now == bs)
            && (sent != [] ==> !w.enabled && Sends(now, i, ret) == [])
            && (sent == [Connect(i, d.mac0, d.mac1)] && ret >= 0 ==> w.text == ConnectingLabel(d.name))
            && (sent == [Disconnect(i, d.mac0, d.mac1)] && ret >= 0 ==> w.text == DisconnectingLabel(d.name))
            && (sent != [] && ret < 0 ==> w.text.ErrorLabel? && Explains(w.text.error, ret))
            && forall k :: 0 <= k < MAX_DEVICES && k != i ==> now[k] == bs[k]
  {
    var now := Updated(bs, ButtonPressed(i, ret));
    if Sends(bs, i, ret) == [] {
      assert now == bs;
    }
  }
}
