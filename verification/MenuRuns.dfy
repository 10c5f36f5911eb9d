/** What holds of the Quick Menu over every sequence of requests. */
module MenuRuns {
  import opened Vqmbt
  import opened QmState

  lemma {:induction false} ServeAppend(u: Ui, a: seq<Req>, b: seq<Req>)
    ensures Serve(u, a + b) == Serve(Serve(u, a), b)
  {
    if b == [] {
      assert a + b == a;
    } else {
      assert (a + b)[..|a + b| - 1] == a + b[..|b| - 1];
      ServeAppend(u, a, b[..|b| - 1]);
    }
  }

  /** The buttons after a run from the start, whatever the widgets first showed. */
  function After(reqs: seq<Req>): Buttons {
    Serve(Start([]), reqs).buttons
  }

  lemma AfterOneMore(reqs: seq<Req>, req: Req)
    ensures After(reqs + [req]) == Updated(After(reqs), req)
  {
    assert (reqs + [req])[..|reqs|] == reqs;
  }

  lemma {:induction false} ButtonsIgnoreWidgets(shown: seq<Widget>, reqs: seq<Req>)
    ensures Serve(Start(shown), reqs).buttons == After(reqs)
    ensures Serve(Start(shown), reqs).commands == Serve(Start([]), reqs).commands
  {
    if reqs != [] {
      ButtonsIgnoreWidgets(shown, reqs[..|reqs| - 1]);
    }
  }

  /** After the first request of any run the widgets always show the current state, although
      they are redrawn only when a request changed something. */
  lemma {:induction false} DisplayFollowsState(shown: seq<Widget>, reqs: seq<Req>)
    requires reqs != []
    ensures Serve(Start(shown), reqs).widgets == Faces(Serve(Start(shown), reqs).buttons)
  {
    if |reqs| > 1 {
      DisplayFollowsState(shown, reqs[..|reqs| - 1]);
    } else {
      assert reqs[..0] == [];
    }
  }

  // ----- Which slots are occupied -----

  predicate HasAddress(d: Device) {
    d.mac0 != 0 || d.mac1 != 0
  }

  function Clamped(n: int): nat {
    if n < 0 then 0 else if n > MAX_DEVICES then MAX_DEVICES else n
  }

  /** Every device a bulk update lists has a non-zero address. */
  predicate Real(req: Req) {
    req.BulkUpdate? ==> forall i :: 0 <= i < Clamped(req.numDevices) ==> HasAddress(req.devices[i])
  }

  predicate AllReal(reqs: seq<Req>) {
    forall k :: 0 <= k < |reqs| ==> Real(reqs[k])
  }

  function CountAfter(n: nat, req: Req): nat {
    if req.BulkUpdate? then Clamped(req.numDevices) else n
  }

  function LastCount(reqs: seq<Req>): nat {
    if reqs == [] then 0 else CountAfter(LastCount(reqs[..|reqs| - 1]), reqs[|reqs| - 1])
  }

  /** The first n slots hold devices, and the others are empty with a zeroed record. */
  predicate Occupied(bs: Buttons, n: nat) {
    forall i :: 0 <= i < MAX_DEVICES ==>
                  if i < n then bs[i].st != SlotEmpty && HasAddress(bs[i].device)
                  else bs[i].st == SlotEmpty && bs[i].device == ZERO_DEVICE
  }

  predicate EmptyIsZero(bs: Buttons) {
    forall i :: 0 <= i < MAX_DEVICES && bs[i].st == SlotEmpty ==> bs[i].device == ZERO_DEVICE
  }

  lemma EmptyIsZeroKept(bs: Buttons, req: Req)
    requires EmptyIsZero(bs)
    ensures EmptyIsZero(Updated(bs, req))
  {
  }

  /** An empty slot's record is zeroed, even if bulk updates list zero addresses. */
  lemma {:induction false} EmptySlotsAreZeroed(reqs: seq<Req>)
    ensures EmptyIsZero(After(reqs))
  {
    if reqs != [] {
      EmptySlotsAreZeroed(reqs[..|reqs| - 1]);
      EmptyIsZeroKept(After(reqs[..|reqs| - 1]), reqs[|reqs| - 1]);
    }
  }

  /** A request keeps the occupied prefix, of its own length if it is a bulk update and of
      the old one otherwise, exactly when it lists no zero address. */
  lemma OccupancyStep(bs: Buttons, n: nat, req: Req)
    requires Occupied(bs, n)
    ensures Occupied(Updated(bs, req), CountAfter(n, req)) <==> Real(req)
  {
    var now := Updated(bs, req);
    if !Real(req) {
      var i :| 0 <= i < Clamped(req.numDevices) && !HasAddress(req.devices[i]);
      assert !HasAddress(now[i].device);
    }
  }

  /** In every run whose bulk updates list real addresses, the occupied slots are the prefix
      as long as the last bulk update's count, clamped to 0..8. */
  lemma {:induction false} Occupancy(reqs: seq<Req>)
    requires AllReal(reqs)
    ensures Occupied(After(reqs), LastCount(reqs))
  {
    if reqs != [] {
      Occupancy(reqs[..|reqs| - 1]);
      OccupancyStep(After(reqs[..|reqs| - 1]), LastCount(reqs[..|reqs| - 1]), reqs[|reqs| - 1]);
    }
  }

  // ----- Bluetooth off, and on again -----

  /** Requests that cannot turn Bluetooth on. */
  predicate Latched(req: Req) {
    req.ButtonPressed? || req.SawConnected? || req.SawDisconnected? || req.BluetoothOff?
  }

  predicate AllLatched(reqs: seq<Req>) {
    forall k :: 0 <= k < |reqs| ==> Latched(reqs[k])
  }

  predicate Dark(bs: Buttons) {
    forall i :: 0 <= i < MAX_DEVICES ==> bs[i].st == BtOff || bs[i].st == SlotEmpty
  }

  lemma DarkStep(bs: Buttons, req: Req)
    requires Dark(bs) && EmptyIsZero(bs) && Latched(req)
    ensures Updated(bs, req) == bs && Issued(bs, req) == []
  {
    assert forall i :: 0 <= i < MAX_DEVICES ==> Updated(bs, req)[i] == bs[i];
  }

  lemma {:induction false} DarkRun(u: Ui, reqs: seq<Req>)
    requires Dark(u.buttons) && EmptyIsZero(u.buttons) && AllLatched(reqs)
    ensures Serve(u, reqs).buttons == u.buttons && Serve(u, reqs).commands == u.commands
  {
    if reqs != [] {
      DarkRun(u, reqs[..|reqs| - 1]);
      DarkStep(u.buttons, reqs[|reqs| - 1]);
    }
  }

  /** After Bluetooth goes off, presses, device events and further off requests leave every
      occupied slot at BtOff, report no change and send the kernel nothing. */
  lemma OffLatch(shown: seq<Widget>, before: seq<Req>, mid: seq<Req>, k: nat)
    requires AllLatched(mid) && k < |mid|
    ensures var off := Serve(Start(shown), before + [BluetoothOff]);
            var u := Serve(off, mid[..k]);
            && u.buttons == off.buttons
            && Dark(u.buttons)
            && (forall i :: 0 <= i < MAX_DEVICES ==>
                  (u.buttons[i].st == SlotEmpty <==> Serve(Start(shown), before).buttons[i].st == SlotEmpty))
            && !Changes(u, mid[k])
            && Update(u, mid[k]).commands == off.commands
  {
    var reqs := before + [BluetoothOff];
    var off := Serve(Start(shown), reqs);
    ButtonsIgnoreWidgets(shown, reqs);
    EmptySlotsAreZeroed(reqs);
    assert reqs[..|reqs| - 1] == before;
    DarkRun(off, mid[..k]);
    DarkStep(off.buttons, mid[k]);
  }

  /** Bulk update j put record d into slot i: the address was new to the slot, and every
      later bulk update listed the same address there. */
  ghost predicate FrozenAt(reqs: seq<Req>, i: nat, j: nat, d: Device) {
    && i < MAX_DEVICES
    && j < |reqs|
    && Lists(reqs[j], i)
    && reqs[j].devices[i] == d
    && !SameMac(After(reqs[..j])[i].device, d)
    && forall k :: j < k < |reqs| && reqs[k].BulkUpdate? ==> Lists(reqs[k], i) && SameMac(reqs[k].devices[i], d)
  }

  predicate Lists(req: Req, i: nat) {
    req.BulkUpdate? && i < Clamped(req.numDevices)
  }

  /** The record in an occupied slot is the whole record of the bulk update that last
      changed the slot's address; later updates of the same device do not refresh it. */
  lemma {:induction false} CacheIsFrozen(reqs: seq<Req>, i: nat) returns (j: nat)
    requires AllReal(reqs) && i < MAX_DEVICES && After(reqs)[i].st != SlotEmpty
    ensures FrozenAt(reqs, i, j, After(reqs)[i].device)
  {
    Occupancy(reqs);
    var rest, req := reqs[..|reqs| - 1], reqs[|reqs| - 1];
    assert rest + [req] == reqs;
    Occupancy(rest);
    OneMoreRecord(After(rest)[i], i, req, Target(After(rest), req));
    AfterOneMore(rest, req);
    if Lists(req, i) && !SameMac(After(rest)[i].device, req.devices[i]) {
      j := |rest|;
    } else {
      assert After(rest)[i].st != SlotEmpty;
      j := CacheIsFrozen(rest, i);
      FrozenLonger(rest, req, i, j, After(reqs)[i].device);
    }
  }

  /** What one more request makes of the record in a slot that stays occupied. */
  lemma OneMoreRecord(was: Button, i: nat, req: Req, target: int)
    requires i < MAX_DEVICES && SlotAfter(was, i, req, target).st != SlotEmpty
    requires Real(req) && (was.st == SlotEmpty ==> was.device == ZERO_DEVICE)
    ensures var now := SlotAfter(was, i, req, target);
            if Lists(req, i) && !SameMac(was.device, req.devices[i]) then now.device == req.devices[i]
            else now.device == was.device && (req.BulkUpdate? ==> Lists(req, i) && was.st != SlotEmpty)
  {
    assert Lists(req, i) ==> HasAddress(req.devices[i]);
  }

  lemma FrozenLonger(rest: seq<Req>, req: Req, i: nat, j: nat, d: Device)
    requires FrozenAt(rest, i, j, d) && (req.BulkUpdate? ==> Lists(req, i) && SameMac(req.devices[i], d))
    ensures FrozenAt(rest + [req], i, j, d)
  {
    assert (rest + [req])[..j] == rest[..j];
  }

  /** The cached states that turning Bluetooth on restores. */
  predicate Restorable(state: int) {
    state in {BT_STATE_DISCONNECTED, BT_STATE_CONNECTING, BT_STATE_DISCONNECTING}
  }

  /** Off, then anything that cannot turn Bluetooth on, then on: a slot shows the frozen
      record's state if that is disconnected, connecting or disconnecting, and stays at
      BtOff otherwise. */
  lemma OffOnRestores(before: seq<Req>, mid: seq<Req>, i: nat) returns (j: nat)
    requires AllReal(before) && AllLatched(mid) && i < MAX_DEVICES && After(before)[i].st != SlotEmpty
    ensures FrozenAt(before, i, j, After(before)[i].device)
    ensures var d := before[j].devices[i];
            var b := After(before + [BluetoothOff] + mid + [BluetoothOn])[i];
            && b.device == d
            && b.st == (if d.state == 1 then Disconnected else if d.state == 2 then Connecting
                        else if d.state == 4 then Disconnecting else BtOff)
  {
    j := CacheIsFrozen(before, i);
    LatchedMid(before, mid);
    AfterOneMore(before + [BluetoothOff] + mid, BluetoothOn);
    RestoredSlot(TurnedOff(After(before)[i]));
  }

  lemma LatchedMid(before: seq<Req>, mid: seq<Req>)
    requires AllLatched(mid)
    ensures After(before + [BluetoothOff] + mid) == Updated(After(before), BluetoothOff)
  {
    var reqs := before + [BluetoothOff];
    EmptySlotsAreZeroed(reqs);
    AfterOneMore(before, BluetoothOff);
    DarkRun(Serve(Start([]), reqs), mid);
    ServeAppend(Start([]), reqs, mid);
  }

  /** In every run, turning Bluetooth on moves a slot out of BtOff exactly when the frozen
      record's state is one of three; the code's comment promises it for every non-empty slot. */
  lemma OnLeavesOffExactly(reqs: seq<Req>, i: nat) returns (j: nat)
    requires AllReal(reqs) && i < MAX_DEVICES && After(reqs)[i].st == BtOff
    ensures FrozenAt(reqs, i, j, After(reqs)[i].device)
    ensures After(reqs + [BluetoothOn])[i].st != BtOff
            <==> reqs[j].devices[i].state in {1, 2, 4}
  {
    j := CacheIsFrozen(reqs, i);
    AfterOneMore(reqs, BluetoothOn);
    RestoredSlot(After(reqs)[i]);
  }

  lemma RestoredSlot(b: Button)
    requires b.st == BtOff
    ensures TurnedOn(b) == b.(st := if Restorable(b.device.state) then Mapped(b.device.state) else BtOff)
    ensures TurnedOn(b).st != BtOff <==> Restorable(b.device.state)
  {
  }

  // ----- Commands to the kernel -----

  /** The command request k of a run issued, if any. */
  function CommandAt(reqs: seq<Req>, k: nat): seq<Command>
    requires k < |reqs|
  {
    Issued(After(reqs[..k]), reqs[k])
  }

  /** Every command carries the address of the slot pressed, which is occupied; a connect is
      sent only from Disconnected and a disconnect only from Connected. */
  lemma CommandsAreAddressed(reqs: seq<Req>, k: nat)
    requires AllReal(reqs) && k < |reqs| && CommandAt(reqs, k) != []
    ensures var b := After(reqs[..k])[reqs[k].idx];
            && reqs[k].idx < LastCount(reqs[..k])
            && HasAddress(b.device)
            && CommandAt(reqs, k) == (if b.st == Disconnected then [Connect(reqs[k].idx, b.device.mac0, b.device.mac1)]
                                      else [Disconnect(reqs[k].idx, b.device.mac0, b.device.mac1)])
            && (b.st == Disconnected || b.st == Connected)
  {
    Occupancy(reqs[..k]);
  }

  predicate Busy(b: Button) {
    b.st == Connecting || b.st == Disconnecting || b.st == Error
  }

  /** Request m is not a press and rewrote the state of slot i. */
  ghost predicate Rewrote(reqs: seq<Req>, m: nat, i: nat) {
    m < |reqs| && i < MAX_DEVICES && !reqs[m].ButtonPressed? && After(reqs[..m])[i].st != After(reqs[..m + 1])[i].st
  }

  lemma PressKeepsBusy(bs: Buttons, req: Req, i: nat)
    requires i < MAX_DEVICES && Busy(bs[i]) && req.ButtonPressed?
    ensures Updated(bs, req)[i] == bs[i]
  {
  }

  ghost predicate RewrittenIn(reqs: seq<Req>, i: nat, j: nat, k: nat) {
    exists m: nat :: j < m < k && Rewrote(reqs, m, i)
  }

  lemma {:induction false} BusyUntilRewritten(reqs: seq<Req>, i: nat, j: nat, k: nat)
    requires i < MAX_DEVICES && j < k <= |reqs| && Busy(After(reqs[..j + 1])[i])
    ensures Busy(After(reqs[..k])[i]) || RewrittenIn(reqs, i, j, k)
    decreases k
  {
    if j + 1 < k {
      BusyUntilRewritten(reqs, i, j, k - 1);
      StillBusy(reqs, i, j, k - 1);
    }
  }

  lemma StillBusy(reqs: seq<Req>, i: nat, j: nat, m: nat)
    requires i < MAX_DEVICES && j < m < |reqs|
    requires Busy(After(reqs[..m])[i]) || RewrittenIn(reqs, i, j, m)
    ensures Busy(After(reqs[..m + 1])[i]) || RewrittenIn(reqs, i, j, m + 1)
  {
    if Busy(After(reqs[..m])[i]) && !Busy(After(reqs[..m + 1])[i]) {
      BusyEnds(reqs, i, m);
    }
  }

  lemma BusyEnds(reqs: seq<Req>, i: nat, m: nat)
    requires i < MAX_DEVICES && m < |reqs| && Busy(After(reqs[..m])[i]) && !Busy(After(reqs[..m + 1])[i])
    ensures Rewrote(reqs, m, i)
  {
    assert reqs[..m + 1] == reqs[..m] + [reqs[m]];
    AfterOneMore(reqs[..m], reqs[m]);
    if reqs[m].ButtonPressed? {
      PressKeepsBusy(After(reqs[..m]), reqs[m], i);
    }
  }

  /** Between two commands for one slot there is always a request, not a press, that
      rewrote that slot's state: no command is ever repeated blindly. */
  lemma CommandsAreSeparated(reqs: seq<Req>, j: nat, k: nat)
    requires j < k < |reqs| && CommandAt(reqs, j) != [] && CommandAt(reqs, k) != []
    requires reqs[j].idx == reqs[k].idx
    ensures RewrittenIn(reqs, reqs[k].idx, j, k)
  {
    assert reqs[..j + 1][..j] == reqs[..j];
    BusyUntilRewritten(reqs, reqs[k].idx, j, k);
  }

  // ----- Two histories, one snapshot -----

  /** The same addresses and button states in every slot. */
  predicate Alike(a: Buttons, b: Buttons) {
    forall i :: 0 <= i < MAX_DEVICES ==> SameFace(a[i], b[i])
  }

  /** The same address and button state. */
  predicate SameFace(a: Button, b: Button) {
    a.st == b.st && SameMac(a.device, b.device)
  }

  function BulkState(req: Req, i: nat): BtnState
    requires req.BulkUpdate? && i < MAX_DEVICES
  {
    if i >= req.numDevices then SlotEmpty else if !req.bluetoothOn then BtOff else Mapped(req.devices[i].state)
  }

  /** A bulk update of real addresses fixes every slot's address and state, whatever went
      before; repeating it reports no change and changes nothing. */
  lemma BulkSettles(past: seq<Req>, bulk: Req, i: nat)
    requires bulk.BulkUpdate? && Real(bulk) && i < MAX_DEVICES
    ensures var u := Serve(Start([]), past + [bulk]);
            && u.buttons[i].st == BulkState(bulk, i)
            && SameMac(u.buttons[i].device, if i < bulk.numDevices then bulk.devices[i] else ZERO_DEVICE)
            && !Changes(u, bulk)
            && Update(u, bulk).buttons == u.buttons
  {
    AfterOneMore(past, bulk);
    EmptySlotsAreZeroed(past);
    SlotSettles(After(past)[i], i, bulk);
    forall k | 0 <= k < MAX_DEVICES ensures Updated(After(past + [bulk]), bulk)[k] == After(past + [bulk])[k] {
      SlotSettles(After(past)[k], k, bulk);
    }
    assert Updated(After(past + [bulk]), bulk) == After(past + [bulk]);
  }

  lemma SlotSettles(b: Button, i: nat, bulk: Req)
    requires bulk.BulkUpdate? && Real(bulk) && i < MAX_DEVICES && (b.st == SlotEmpty ==> b.device == ZERO_DEVICE)
    ensures var now := SlotAfter(b, i, bulk, -1);
            && now.st == BulkState(bulk, i)
            && SameMac(now.device, if i < bulk.numDevices then bulk.devices[i] else ZERO_DEVICE)
            && SlotAfter(now, i, bulk, -1) == now
  {
  }

  ghost predicate Meets(bulk: Req, p: seq<Req>, q: seq<Req>) {
    Alike(After(p + [bulk]), After(q + [bulk]))
  }

  ghost predicate Converges(bulk: Req) {
    forall p: seq<Req>, q: seq<Req> :: Meets(bulk, p, q)
  }

  function OneOfEach(n: nat): seq<Device> {
    seq(n, _ => Device("", 1, 1, BT_STATE_DISCONNECTED))
  }

  lemma BulkMeets(bulk: Req, p: seq<Req>, q: seq<Req>)
    requires bulk.BulkUpdate? && (bulk.bluetoothOn || Real(bulk))
    ensures Meets(bulk, p, q)
  {
    AfterOneMore(p, bulk);
    AfterOneMore(q, bulk);
    EmptySlotsAreZeroed(p);
    EmptySlotsAreZeroed(q);
    forall i | 0 <= i < MAX_DEVICES ensures SameFace(After(p + [bulk])[i], After(q + [bulk])[i]) {
      SlotsMeet(After(p)[i], After(q)[i], i, bulk);
    }
  }

  lemma SlotsMeet(a: Button, b: Button, i: nat, bulk: Req)
    requires bulk.BulkUpdate? && (bulk.bluetoothOn || Real(bulk)) && i < MAX_DEVICES
    requires (a.st == SlotEmpty ==> a.device == ZERO_DEVICE) && (b.st == SlotEmpty ==> b.device == ZERO_DEVICE)
    ensures SameFace(SlotAfter(a, i, bulk, -1), SlotAfter(b, i, bulk, -1))
  {
  }

  /** A bulk update makes any two histories agree exactly when Bluetooth is on or every
      address it lists is non-zero. */
  lemma BulkConvergesExactly(bulk: Req)
    requires bulk.BulkUpdate?
    ensures Converges(bulk) <==> bulk.bluetoothOn || Real(bulk)
  {
    if bulk.bluetoothOn || Real(bulk) {
      forall p: seq<Req>, q: seq<Req> ensures Meets(bulk, p, q) {
        BulkMeets(bulk, p, q);
      }
    } else {
      var i :| 0 <= i < Clamped(bulk.numDevices) && !HasAddress(bulk.devices[i]);
      ZeroAddressDiverges(bulk, i);
    }
  }

  /** The run that shows the limit: a zero address listed while Bluetooth is off leaves a
      slot empty or at BtOff, depending on whether it was occupied before. */
  lemma ZeroAddressDiverges(bulk: Req, i: nat)
    requires bulk.BulkUpdate? && !bulk.bluetoothOn && i < Clamped(bulk.numDevices) && !HasAddress(bulk.devices[i])
    ensures !Meets(bulk, [], [BulkUpdate(true, MAX_DEVICES, OneOfEach(MAX_DEVICES))])
  {
    var full := BulkUpdate(true, MAX_DEVICES, OneOfEach(MAX_DEVICES));
    AfterOneMore([], full);
    assert [] + [full] == [full];
    SlotAfterOneMore([], full, i);
    SlotAfterOneMore([], bulk, i);
    SlotAfterOneMore([full], bulk, i);
  }

  lemma SlotAfterOneMore(reqs: seq<Req>, bulk: Req, i: nat)
    requires bulk.BulkUpdate? && i < Clamped(bulk.numDevices)
    ensures After(reqs + [bulk])[i] == Refreshed(After(reqs)[i], bulk.bluetoothOn, bulk.devices[i])
  {
    AfterOneMore(reqs, bulk);
  }

  lemma AlikeFindAlike(a: Buttons, b: Buttons, mac0: bv32, mac1: bv32, i: nat)
    requires Alike(a, b) && i <= MAX_DEVICES
    ensures FirstMatch(a, mac0, mac1, i) == FirstMatch(b, mac0, mac1, i)
    decreases MAX_DEVICES - i
  {
    if i < MAX_DEVICES {
      assert SameFace(a[i], b[i]);
      AlikeFindAlike(a, b, mac0, mac1, i + 1);
    }
  }

  lemma RefreshAlike(a: Button, b: Button, on: bool, d: Device)
    requires SameFace(a, b)
    ensures SameFace(Refreshed(a, on, d), Refreshed(b, on, d))
  {
    assert SameMac(a.device, d) <==> SameMac(b.device, d);
  }

  lemma PressAlike(a: Button, b: Button, ret: int)
    requires SameFace(a, b)
    ensures SameFace(Pressed(a, ret), Pressed(b, ret))
  {
  }

  lemma SlotAlike(a: Button, b: Button, i: nat, req: Req, target: int)
    requires i < MAX_DEVICES && !req.BluetoothOn? && SameFace(a, b)
    ensures SameFace(SlotAfter(a, i, req, target), SlotAfter(b, i, req, target))
  {
    match req
    case BulkUpdate(on, n, devices) => if i < n { RefreshAlike(a, b, on, devices[i]); }
    case ButtonPressed(_, ret) => PressAlike(a, b, ret);
    case _ =>
  }

  lemma AlikeStep(a: Buttons, b: Buttons, req: Req)
    requires Alike(a, b) && !req.BluetoothOn?
    ensures Alike(Updated(a, req), Updated(b, req)) && Issued(a, req) == Issued(b, req)
  {
    AlikeTarget(a, b, req);
    forall i | 0 <= i < MAX_DEVICES ensures SameFace(Updated(a, req)[i], Updated(b, req)[i]) {
      assert SameFace(a[i], b[i]);
      SlotAlike(a[i], b[i], i, req, Target(a, req));
    }
    AlikeIssue(a, b, req);
  }

  lemma AlikeTarget(a: Buttons, b: Buttons, req: Req)
    requires Alike(a, b)
    ensures Target(a, req) == Target(b, req)
  {
    if req.SawConnected? || req.SawDisconnected? {
      AlikeFindAlike(a, b, req.mac0, req.mac1, 0);
    }
  }

  lemma AlikeIssue(a: Buttons, b: Buttons, req: Req)
    requires Alike(a, b)
    ensures Issued(a, req) == Issued(b, req)
  {
    assert req.ButtonPressed? ==> SameFace(a[req.idx], b[req.idx]);
  }

  predicate NoTurnOn(reqs: seq<Req>) {
    forall k :: 0 <= k < |reqs| ==> !reqs[k].BluetoothOn?
  }

  /** The kernel calls a run makes. */
  function Sent(u: Ui, reqs: seq<Req>): seq<Command> {
    if reqs == [] then []
    else Sent(u, reqs[..|reqs| - 1]) + Issued(Serve(u, reqs[..|reqs| - 1]).buttons, reqs[|reqs| - 1])
  }

  lemma {:induction false} SentIsLogged(u: Ui, reqs: seq<Req>)
    ensures Serve(u, reqs).commands == u.commands + Sent(u, reqs)
  {
    if reqs == [] {
      assert u.commands + [] == u.commands;
    } else {
      var rest, last := reqs[..|reqs| - 1], reqs[|reqs| - 1];
      SentIsLogged(u, rest);
      var more := Issued(Serve(u, rest).buttons, last);
      assert u.commands + Sent(u, rest) + more == u.commands + (Sent(u, rest) + more);
    }
  }

  lemma {:induction false} AlikeRun(u: Ui, v: Ui, tail: seq<Req>)
    requires Alike(u.buttons, v.buttons) && NoTurnOn(tail)
    ensures Alike(Serve(u, tail).buttons, Serve(v, tail).buttons)
    ensures Sent(u, tail) == Sent(v, tail)
  {
    if tail != [] {
      AlikeRun(u, v, tail[..|tail| - 1]);
      AlikeStep(Serve(u, tail[..|tail| - 1]).buttons, Serve(v, tail[..|tail| - 1]).buttons, tail[|tail| - 1]);
    }
  }

  /** Once a snapshot has been applied, what came before it no longer matters: addresses,
      button states and kernel commands are those of a menu that only ever saw the snapshot
      and what followed, until Bluetooth is next turned on. */
  lemma SnapshotForgetsPast(past: seq<Req>, bulk: Req, tail: seq<Req>)
    requires bulk.BulkUpdate? && (bulk.bluetoothOn || Real(bulk)) && NoTurnOn(tail)
    ensures Alike(After(past + [bulk] + tail), After([bulk] + tail))
    ensures Serve(Start([]), past + [bulk] + tail).commands
            == Serve(Start([]), past + [bulk]).commands + Sent(Serve(Start([]), [bulk]), tail)
  {
    BulkConvergesExactly(bulk);
    assert Meets(bulk, past, []);
    assert [] + [bulk] == [bulk];
    ServeAppend(Start([]), past + [bulk], tail);
    ServeAppend(Start([]), [bulk], tail);
    SentIsLogged(Serve(Start([]), past + [bulk]), tail);
    AlikeRun(Serve(Start([]), past + [bulk]), Serve(Start([]), [bulk]), tail);
  }

  /** All that turning Bluetooth on will ever make of a cached state. */
  function Recalled(state: int): (bool, BtnState) {
    (Restorable(state), Mapped(state))
  }

  /** Alike, and turning Bluetooth on will not tell the two apart either. */
  predicate SameMemory(a: Buttons, b: Buttons) {
    forall i :: 0 <= i < MAX_DEVICES ==> SlotMemory(a[i], b[i])
  }

  predicate SlotMemory(a: Button, b: Button) {
    SameFace(a, b) && Recalled(a.device.state) == Recalled(b.device.state)
  }

  lemma RefreshKeepsMemory(a: Button, b: Button, on: bool, d: Device)
    requires SlotMemory(a, b)
    ensures SlotMemory(Refreshed(a, on, d), Refreshed(b, on, d))
  {
  }

  lemma TurnedOnKeepsMemory(a: Button, b: Button)
    requires SlotMemory(a, b)
    ensures SlotMemory(TurnedOn(a), TurnedOn(b))
  {
    assert a.st != SlotEmpty && a.st != BtOff ==> TurnedOn(a).st == Mapped(a.device.state);
    assert b.st != SlotEmpty && b.st != BtOff ==> TurnedOn(b).st == Mapped(b.device.state);
  }

  lemma SlotKeepsMemory(a: Button, b: Button, i: nat, req: Req, target: int)
    requires i < MAX_DEVICES && SlotMemory(a, b)
    ensures SlotMemory(SlotAfter(a, i, req, target), SlotAfter(b, i, req, target))
  {
    match req
    case BulkUpdate(on, n, devices) => if i < n { RefreshKeepsMemory(a, b, on, devices[i]); }
    case BluetoothOn => TurnedOnKeepsMemory(a, b);
    case _ =>
  }

  lemma MemoryIsAlike(a: Buttons, b: Buttons)
    requires SameMemory(a, b)
    ensures Alike(a, b)
  {
    forall i | 0 <= i < MAX_DEVICES ensures SameFace(a[i], b[i]) {
      assert SlotMemory(a[i], b[i]);
    }
  }

  lemma MemoryStep(a: Buttons, b: Buttons, req: Req)
    requires SameMemory(a, b)
    ensures SameMemory(Updated(a, req), Updated(b, req))
  {
    MemoryIsAlike(a, b);
    AlikeTarget(a, b, req);
    forall i | 0 <= i < MAX_DEVICES ensures SlotMemory(Updated(a, req)[i], Updated(b, req)[i]) {
      SlotKeepsMemory(a[i], b[i], i, req, Target(a, req));
    }
  }

  lemma {:induction false} MemoryRun(u: Ui, v: Ui, tail: seq<Req>)
    requires SameMemory(u.buttons, v.buttons)
    ensures SameMemory(Serve(u, tail).buttons, Serve(v, tail).buttons)
  {
    if tail != [] {
      var rest := tail[..|tail| - 1];
      MemoryRun(u, v, rest);
      MemoryStep(Serve(u, rest).buttons, Serve(v, rest).buttons, tail[|tail| - 1]);
    }
  }

  /** No listed device's cached state is out of date in a way that shows. */
  predicate CacheCurrent(bs: Buttons, bulk: Req)
    requires bulk.BulkUpdate?
  {
    forall i :: 0 <= i < Clamped(bulk.numDevices) ==> Recalled(bs[i].device.state) == Recalled(bulk.devices[i].state)
  }

  ghost predicate StaysAlike(p: seq<Req>, q: seq<Req>, tail: seq<Req>) {
    Alike(After(p + tail), After(q + tail))
  }

  /** From a snapshot on, the past is forgotten for every possible future exactly when no
      listed device's cached state is out of date. */
  lemma ForgetsPastExactly(past: seq<Req>, bulk: Req)
    requires bulk.BulkUpdate? && Real(bulk)
    ensures (forall tail: seq<Req> :: StaysAlike(past + [bulk], [bulk], tail)) <==> CacheCurrent(After(past + [bulk]), bulk)
  {
    if CacheCurrent(After(past + [bulk]), bulk) {
      forall tail: seq<Req> ensures StaysAlike(past + [bulk], [bulk], tail) {
        CurrentForgetsPast(past, bulk, tail);
      }
    } else {
      var i :| 0 <= i < Clamped(bulk.numDevices)
            && Recalled(After(past + [bulk])[i].device.state) != Recalled(bulk.devices[i].state);
      StaleCacheShows(past, bulk, i);
    }
  }

  /** What a snapshot of real addresses leaves in slot i, cached record included. */
  lemma SnapshotSlot(past: seq<Req>, bulk: Req, i: nat)
    requires bulk.BulkUpdate? && Real(bulk) && i < MAX_DEVICES
    ensures var b, c := After(past + [bulk])[i], After([bulk])[i];
            && SameFace(b, c)
            && (i < bulk.numDevices ==> c.device == bulk.devices[i] && b.st != SlotEmpty)
            && (i >= bulk.numDevices ==> b.device == c.device == ZERO_DEVICE)
  {
    assert [] + [bulk] == [bulk];
    AfterOneMore(past, bulk);
    AfterOneMore([], bulk);
    EmptySlotsAreZeroed(past);
    SlotSettles(After(past)[i], i, bulk);
    SlotSettles(EMPTY_BUTTON, i, bulk);
    SnapshotRecord(After(past)[i], i, bulk);
    SnapshotRecord(EMPTY_BUTTON, i, bulk);
  }

  lemma SnapshotRecord(b: Button, i: nat, bulk: Req)
    requires bulk.BulkUpdate? && Real(bulk) && i < MAX_DEVICES && (b.st == SlotEmpty ==> b.device == ZERO_DEVICE)
    ensures var now := SlotAfter(b, i, bulk, -1);
            && (i < bulk.numDevices && b == EMPTY_BUTTON ==> now.device == bulk.devices[i])
            && (i < bulk.numDevices ==> now.st != SlotEmpty)
            && (i >= bulk.numDevices ==> now.device == ZERO_DEVICE)
  {
    assert i < bulk.numDevices ==> HasAddress(bulk.devices[i]);
  }

  lemma CurrentForgetsPast(past: seq<Req>, bulk: Req, tail: seq<Req>)
    requires bulk.BulkUpdate? && Real(bulk) && CacheCurrent(After(past + [bulk]), bulk)
    ensures StaysAlike(past + [bulk], [bulk], tail)
  {
    forall i | 0 <= i < MAX_DEVICES ensures SlotMemory(After(past + [bulk])[i], After([bulk])[i]) {
      SnapshotSlot(past, bulk, i);
    }
    ServeAppend(Start([]), past + [bulk], tail);
    ServeAppend(Start([]), [bulk], tail);
    MemoryRun(Serve(Start([]), past + [bulk]), Serve(Start([]), [bulk]), tail);
    MemoryIsAlike(After(past + [bulk] + tail), After([bulk] + tail));
  }

  /** The futures that give a stale cache away: off and on, or the same snapshot with
      Bluetooth on and then an on event. */
  lemma StaleCacheShows(past: seq<Req>, bulk: Req, i: nat)
    requires bulk.BulkUpdate? && Real(bulk) && i < Clamped(bulk.numDevices)
    requires Recalled(After(past + [bulk])[i].device.state) != Recalled(bulk.devices[i].state)
    ensures exists tail: seq<Req> :: !StaysAlike(past + [bulk], [bulk], tail)
  {
    var b, c := After(past + [bulk])[i], After([bulk])[i];
    SnapshotSlot(past, bulk, i);
    if Mapped(b.device.state) != Mapped(c.device.state) {
      var lit := bulk.(bluetoothOn := true);
      AgainThenOn(past + [bulk], lit, i);
      AgainThenOn([bulk], lit, i);
      assert !StaysAlike(past + [bulk], [bulk], [lit, BluetoothOn]);
    } else {
      OffOnSlot(past + [bulk], i);
      OffOnSlot([bulk], i);
      assert !StaysAlike(past + [bulk], [bulk], [BluetoothOff, BluetoothOn]);
    }
  }

  lemma OffOnSlot(reqs: seq<Req>, i: nat)
    requires i < MAX_DEVICES && After(reqs)[i].st != SlotEmpty
    ensures var (restored, st) := Recalled(After(reqs)[i].device.state);
            After(reqs + [BluetoothOff, BluetoothOn])[i].st == if restored then st else BtOff
  {
    OffOnEnds(reqs);
  }

  lemma AgainThenOn(reqs: seq<Req>, lit: Req, i: nat)
    requires lit.BulkUpdate? && lit.bluetoothOn && i < Clamped(lit.numDevices) && SameMac(After(reqs)[i].device, lit.devices[i])
    ensures After(reqs + [lit, BluetoothOn])[i].st == Mapped(After(reqs)[i].device.state)
  {
    SlotAfterOneMore(reqs, lit, i);
    AfterOneMore(reqs + [lit], BluetoothOn);
    assert reqs + [lit] + [BluetoothOn] == reqs + [lit, BluetoothOn];
  }

  /** Two snapshots of the same device: the record that stays is the first one's. */
  lemma FirstRecordStays(d: Device, e: Device)
    requires SameMac(d, e) && HasAddress(d)
    ensures After([BulkUpdate(true, 1, [d])])[0].device == d
    ensures After([BulkUpdate(true, 1, [d])] + [BulkUpdate(true, 1, [e])])[0].device == d
    ensures After([BulkUpdate(true, 1, [d])])[0].st != SlotEmpty
    ensures After([BulkUpdate(true, 1, [d])] + [BulkUpdate(true, 1, [e])])[0].st != SlotEmpty
  {
    var first, again := BulkUpdate(true, 1, [d]), BulkUpdate(true, 1, [e]);
    assert [] + [first] == [first];
    SlotAfterOneMore([], first, 0);
    SlotAfterOneMore([first], again, 0);
  }

  /** Turning Bluetooth on consults the frozen record, so there the past can show: the same
      snapshot followed by off and on leaves different states. */
  lemma TurningOnRemembersPast()
    ensures var past: seq<Req> := [BulkUpdate(true, 1, [Device("", 1, 1, BT_STATE_CONNECTED)])];
            var bulk := BulkUpdate(true, 1, [Device("", 1, 1, BT_STATE_DISCONNECTED)]);
            && After(past + [bulk] + [BluetoothOff, BluetoothOn])[0].st == BtOff
            && After([bulk] + [BluetoothOff, BluetoothOn])[0].st == Disconnected
  {
    var d, e := Device("", 1, 1, BT_STATE_CONNECTED), Device("", 1, 1, BT_STATE_DISCONNECTED);
    FirstRecordStays(d, e);
    FirstRecordStays(e, e);
    OffOnSlot([BulkUpdate(true, 1, [d])] + [BulkUpdate(true, 1, [e])], 0);
    OffOnSlot([BulkUpdate(true, 1, [e])], 0);
  }

  lemma OffOnEnds(reqs: seq<Req>)
    ensures After(reqs + [BluetoothOff, BluetoothOn]) == Updated(Updated(After(reqs), BluetoothOff), BluetoothOn)
  {
    AfterOneMore(reqs, BluetoothOff);
    AfterOneMore(reqs + [BluetoothOff], BluetoothOn);
    assert reqs + [BluetoothOff] + [BluetoothOn] == reqs + [BluetoothOff, BluetoothOn];
  }

  // ----- Addresses -----

  predicate Distinct(bs: Buttons) {
    forall i, j :: 0 <= i < j < MAX_DEVICES && bs[i].st != SlotEmpty && bs[j].st != SlotEmpty ==>
                     !SameMac(bs[i].device, bs[j].device)
  }

  /** With distinct registered addresses, looking up a slot's own address finds the slot
      exactly when both halves of the address are non-zero. */
  lemma LookupInvertsAddress(bs: Buttons, i: nat)
    requires Distinct(bs) && EmptyIsZero(bs) && i < MAX_DEVICES && bs[i].st != SlotEmpty
    ensures MacToIdx(bs, bs[i].device.mac0, bs[i].device.mac1) == i
            <==> bs[i].device.mac0 != 0 && bs[i].device.mac1 != 0
  {
    var d := bs[i].device;
    if d.mac0 != 0 && d.mac1 != 0 {
      var k := FirstMatch(bs, d.mac0, d.mac1, 0);
      assert HasMac(bs[i], d.mac0, d.mac1);
      assert k != -1 && k <= i && SameMac(bs[k].device, d);
      assert bs[k].st != SlotEmpty;
    }
  }

  /** A device event leaves every slot but its own as it was, and its own slot ends in the
      state reported unless Bluetooth is off. */
  lemma EventReachesItsSlot(bs: Buttons, i: nat, k: nat, connected: bool)
    requires Distinct(bs) && EmptyIsZero(bs) && i < MAX_DEVICES && bs[i].st != SlotEmpty && k < MAX_DEVICES
    requires bs[i].device.mac0 != 0 && bs[i].device.mac1 != 0
    ensures var d := bs[i].device;
            var now := Updated(bs, if connected then SawConnected(d.mac0, d.mac1) else SawDisconnected(d.mac0, d.mac1));
            && (k != i ==> now[k] == bs[k])
            && (bs[i].st == BtOff ==> now[i] == bs[i])
            && (bs[i].st != BtOff ==> now[i] == bs[i].(st := if connected then Connected else Disconnected))
  {
    LookupInvertsAddress(bs, i);
  }
}
