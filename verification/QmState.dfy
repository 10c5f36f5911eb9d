/** The Quick Menu's button states as values: what each request leaves in each slot, and
    what the widgets should then show. The code itself is in QuickMenuState. */
module QmState {
  import opened Vqmbt

  datatype BtnState = SlotEmpty | BtOff | Disconnected | Disconnecting | Connected | Connecting | Error

  datatype ErrorText = NoText | MustConnectFromDevice | BusySettingsOpened | CodeText(code: int)

  datatype Button = Button(device: Device, st: BtnState, errorMessage: ErrorText)

  const EMPTY_BUTTON := Button(ZERO_DEVICE, SlotEmpty, NoText)

  type Buttons = bs: seq<Button> | |bs| == MAX_DEVICES witness seq(8, _ => Button(Device("", 0, 0, 0), SlotEmpty, NoText))

  datatype Label =
    | NoDevice(slot: int)
    | BluetoothDisabledLabel
    | DisconnectingLabel(name: string)
    | ConnectingLabel(name: string)
    | ErrorLabel(error: ErrorText)
    | ConnectLabel(name: string)
    | DisconnectLabel(name: string)

  datatype Widget = Widget(text: Label, enabled: bool)

  datatype Command =
    | Connect(slot: int, mac0: bv32, mac1: bv32)
    | Disconnect(slot: int, mac0: bv32, mac1: bv32)

  /** `ret` is what the kernel answers if the press makes it connect or disconnect. */
  datatype Request =
    | BulkUpdate(bluetoothOn: bool, numDevices: int, devices: seq<Device>)
    | ButtonPressed(idx: int, ret: int)
    | BluetoothOn
    | BluetoothOff
    | SawDisconnected(mac0: bv32, mac1: bv32)
    | SawConnected(mac0: bv32, mac1: bv32)

  /** What the callers pass: a device array as long as the loop reads, and the index of an
      existing button. */
  predicate Proper(req: Request) {
    match req
    case BulkUpdate(_, n, devices) => |devices| >= (if n < MAX_DEVICES then n else MAX_DEVICES)
    case ButtonPressed(idx, _) => 0 <= idx < MAX_DEVICES
    case _ => true
  }

  type Req = req: Request | Proper(req) witness BluetoothOn

  predicate SameMac(a: Device, b: Device) {
    a.mac0 == b.mac0 && a.mac1 == b.mac1
  }

  // ----- One slot -----

  /** Where a kernel device state puts a button while Bluetooth is on. */
  function Mapped(state: int): BtnState {
    if state == BT_STATE_CONNECTING then Connecting
    else if state == BT_STATE_DISCONNECTING then Disconnecting
    else if state in {BT_STATE_CONNECTED_HID, BT_STATE_CONNECTED, BT_STATE_REGISTERING} then Connected
    else Disconnected
  }

  function TurnedOff(b: Button): Button {
    if b.st == SlotEmpty then b else b.(st := BtOff)
  }

  /** An event moves a button anywhere except out of BtOff. */
  function Notified(b: Button, st: BtnState): Button {
    if b.st == BtOff then b else b.(st := st)
  }

  function TextOf(error: int): ErrorText {
    if error == ERROR_NOT_CONNECTABLE then MustConnectFromDevice
    else if error == ERROR_BUSY then BusySettingsOpened
    else CodeText(error)
  }

  function Pressed(b: Button, ret: int): Button {
    if b.st != Disconnected && b.st != Connected then b
    else if ret < 0 then b.(st := Error, errorMessage := TextOf(ret))
    else b.(st := if b.st == Disconnected then Connecting else Disconnecting)
  }

  /** Bluetooth came back on: a cached state of disconnected, connecting or disconnecting
      is restored; any other one is treated as an event and so cannot leave BtOff. */
  function TurnedOn(b: Button): Button {
    if b.st == SlotEmpty then b
    else if b.device.state in {BT_STATE_DISCONNECTED, BT_STATE_CONNECTING, BT_STATE_DISCONNECTING}
    then b.(st := Mapped(b.device.state))
    else Notified(b, Mapped(b.device.state))
  }

  function Removed(b: Button): Button {
    if b.st == SlotEmpty then b else b.(device := ZERO_DEVICE, st := SlotEmpty)
  }

  function Refreshed(b: Button, bluetoothOn: bool, newDevice: Device): Button {
    var b1 := if SameMac(b.device, newDevice) then b else b.(device := newDevice, st := Disconnected);
    if bluetoothOn then b1.(st := Mapped(newDevice.state)) else TurnedOff(b1)
  }

  // ----- The whole menu -----

  /** mac_to_idx: the first slot holding the address, or -1; an address with a zero half
      is refused. */
  function MacToIdx(bs: Buttons, mac0: bv32, mac1: bv32): int {
    if mac0 == 0 || mac1 == 0 then -1 else FirstMatch(bs, mac0, mac1, 0)
  }

  predicate HasMac(b: Button, mac0: bv32, mac1: bv32) {
    b.device.mac0 == mac0 && b.device.mac1 == mac1
  }

  function FirstMatch(bs: Buttons, mac0: bv32, mac1: bv32, i: nat): (k: int)
    requires i <= MAX_DEVICES
    ensures k == -1 || (i <= k < MAX_DEVICES && HasMac(bs[k], mac0, mac1))
    ensures forall j :: i <= j < (if k == -1 then MAX_DEVICES else k) ==> !HasMac(bs[j], mac0, mac1)
    decreases MAX_DEVICES - i
  {
    if i == MAX_DEVICES then -1
    else if HasMac(bs[i], mac0, mac1) then i
    else FirstMatch(bs, mac0, mac1, i + 1)
  }

  /** The slot a request is addressed to, or -1 if it is addressed to none or to all. */
  function Target(bs: Buttons, req: Req): int {
    match req
    case ButtonPressed(idx, _) => idx
    case SawDisconnected(mac0, mac1) => MacToIdx(bs, mac0, mac1)
    case SawConnected(mac0, mac1) => MacToIdx(bs, mac0, mac1)
    case _ => -1
  }

  function SlotAfter(b: Button, i: nat, req: Req, target: int): Button
    requires i < MAX_DEVICES
  {
    match req
    case BulkUpdate(on, n, devices) => if i >= n then Removed(b) else Refreshed(b, on, devices[i])
    case ButtonPressed(_, ret) => if i == target then Pressed(b, ret) else b
    case BluetoothOn => TurnedOn(b)
    case BluetoothOff => TurnedOff(b)
    case SawDisconnected(_, _) => if i == target then Notified(b, Disconnected) else b
    case SawConnected(_, _) => if i == target then Notified(b, Connected) else b
  }

  function Updated(bs: Buttons, req: Req): Buttons {
    seq(MAX_DEVICES, i requires 0 <= i < MAX_DEVICES => SlotAfter(bs[i], i, req, Target(bs, req)))
  }

  /** The connect or disconnect call a request makes, if it makes one. */
  function Issued(bs: Buttons, req: Req): seq<Command> {
    if !req.ButtonPressed? then []
    else
      var b := bs[req.idx];
      if b.st == Disconnected then [Connect(req.idx, b.device.mac0, b.device.mac1)]
      else if b.st == Connected then [Disconnect(req.idx, b.device.mac0, b.device.mac1)]
      else []
  }

  function Face(b: Button, i: int): Widget {
    match b.st
    case SlotEmpty => Widget(NoDevice(i + 1), false)
    case BtOff => Widget(BluetoothDisabledLabel, false)
    case Disconnecting => Widget(DisconnectingLabel(b.device.name), false)
    case Connecting => Widget(ConnectingLabel(b.device.name), false)
    case Error => Widget(ErrorLabel(b.errorMessage), false)
    case Disconnected => Widget(ConnectLabel(if b.device.name == "" then "N/A" else b.device.name), true)
    case Connected => Widget(DisconnectLabel(b.device.name), true)
  }

  function Faces(bs: Buttons): seq<Widget> {
    seq(MAX_DEVICES, i requires 0 <= i < MAX_DEVICES => Face(bs[i], i))
  }

  /** The static state of qm_state.c, the widgets it draws, and the kernel calls it made. */
  datatype Ui = Ui(buttons: Buttons, firstRun: bool, widgets: seq<Widget>, commands: seq<Command>)

  function NoButtons(): Buttons {
    seq(MAX_DEVICES, _ => EMPTY_BUTTON)
  }

  /** Before the first request: empty slots, and widgets showing anything at all. */
  function Start(widgets: seq<Widget>): Ui {
    Ui(NoButtons(), true, widgets, [])
  }

  predicate Changes(u: Ui, req: Req) {
    Updated(u.buttons, req) != u.buttons
  }

  function Update(u: Ui, req: Req): Ui {
    var bs := Updated(u.buttons, req);
    Ui(bs,
       u.firstRun && Changes(u, req),
       if Changes(u, req) || u.firstRun then Faces(bs) else u.widgets,
       u.commands + Issued(u.buttons, req))
  }

  /** Writing a slot not yet touched keeps the record of whether anything differs exact. */
  lemma StillDiffers(start: seq<Button>, mid: seq<Button>, i: int, b: Button)
    requires 0 <= i < |start| == |mid| && mid[i] == start[i]
    ensures mid[i := b] != start <==> mid != start || mid[i := b] != mid
    ensures mid[i := b] != mid <==> mid[i] != b
  {
    assert mid[i := b][i] == b;
    if mid != start {
      var j :| 0 <= j < |start| && mid[j] != start[j];
      assert mid[i := b][j] != start[j];
    }
  }

  function Serve(u: Ui, reqs: seq<Req>): Ui {
    if reqs == [] then u else Update(Serve(u, reqs[..|reqs| - 1]), reqs[|reqs| - 1])
  }
}
