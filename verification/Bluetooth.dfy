/** The snapshot syscall of bluetooth.c, and its packing of six address bytes into two
    words. */
module Bluetooth {
  import opened Vqmbt

  type Mac = m: seq<bv8> | |m| == 6 witness [0, 0, 0, 0, 0, 0]

  function PackMac(m: Mac): (bv32, bv32) {
    (((m[3] as bv32) << 24) | ((m[2] as bv32) << 16) | ((m[1] as bv32) << 8) | (m[0] as bv32),
     ((m[5] as bv32) << 8) | (m[4] as bv32))
  }

  function UnpackMac(mac0: bv32, mac1: bv32): Mac {
    [(mac0 & 0xFF) as bv8, ((mac0 >> 8) & 0xFF) as bv8, ((mac0 >> 16) & 0xFF) as bv8, ((mac0 >> 24) & 0xFF) as bv8,
     (mac1 & 0xFF) as bv8, ((mac1 >> 8) & 0xFF) as bv8]
  }

  lemma LowWord(b0: bv8, b1: bv8, b2: bv8, b3: bv8)
    ensures var w := ((b3 as bv32) << 24) | ((b2 as bv32) << 16) | ((b1 as bv32) << 8) | (b0 as bv32);
            && w & 0xFF == b0 as bv32 && (w >> 8) & 0xFF == b1 as bv32
            && (w >> 16) & 0xFF == b2 as bv32 && (w >> 24) & 0xFF == b3 as bv32
  {
  }

  lemma HighWord(b4: bv8, b5: bv8)
    ensures var w := ((b5 as bv32) << 8) | (b4 as bv32);
            w & 0xFF == b4 as bv32 && (w >> 8) & 0xFF == b5 as bv32 && w & 0xFFFF == w
  {
  }

  /** No address is lost in packing: byte k of the address is byte k of the first word, counted
      from its low end, and then of the second, whose upper half is unused. */
  lemma PackInverts(m: Mac)
    ensures UnpackMac(PackMac(m).0, PackMac(m).1) == m
    ensures var (mac0, mac1) := PackMac(m);
            && mac0 & 0xFF == m[0] as bv32 && (mac0 >> 8) & 0xFF == m[1] as bv32
            && (mac0 >> 16) & 0xFF == m[2] as bv32 && (mac0 >> 24) & 0xFF == m[3] as bv32
            && mac1 & 0xFF == m[4] as bv32 && (mac1 >> 8) & 0xFF == m[5] as bv32 && mac1 & 0xFFFF == mac1
  {
    LowWord(m[0], m[1], m[2], m[3]);
    HighWord(m[4], m[5]);
  }

  /** Distinct addresses give distinct pairs, and only 00:00:00:00:00:00 gives two zeros. */
  lemma PackIsInjective(m: Mac, n: Mac)
    ensures PackMac(m) == PackMac(n) <==> m == n
    ensures PackMac(m) == (0, 0) <==> m == [0, 0, 0, 0, 0, 0]
  {
    PackInverts(m);
    PackInverts(n);
    PackInverts([0, 0, 0, 0, 0, 0]);
    PackZero();
  }

  lemma PackZero()
    ensures PackMac([0, 0, 0, 0, 0, 0]) == (0, 0)
  {
    var zero: bv8 := 0;
    assert zero as bv32 == 0;
  }

  /** A record of the Bluetooth stack's table of registered devices. */
  datatype Registered = Registered(name: string, mac: Mac)

  const NO_RECORD := Registered("", [0, 0, 0, 0, 0, 0])

  /** Room for the name in a device record, without the terminator. */
  const NAME_MAX: int := 0x78

  /** The device record a table entry becomes, given what the stack says of its state. */
  function RecordOf(r: Registered, stateOf: (bv32, bv32) -> int): Device {
    var (mac0, mac1) := PackMac(r.mac);
    Device(if |r.name| <= NAME_MAX then r.name else r.name[..NAME_MAX], mac0, mac1, stateOf(mac0, mac1))
  }

  /** The record says what the stack knows: the whole address, the name as far as it fits, and the
      state the stack reports for that address. */
  predicate IsRecordOf(d: Device, r: Registered, stateOf: (bv32, bv32) -> int) {
    && UnpackMac(d.mac0, d.mac1) == r.mac && d.mac1 & 0xFFFF == d.mac1
    && d.name <= r.name && (d.name == r.name || |d.name| == 0x78 < |r.name|)
    && d.state == stateOf(d.mac0, d.mac1)
  }

  lemma RecordIsFaithful(r: Registered, stateOf: (bv32, bv32) -> int)
    ensures IsRecordOf(RecordOf(r, stateOf), r, stateOf)
  {
    PackInverts(r.mac);
  }

  /** The records handed over before the first copy to user space that fails. */
  function Delivered(n: nat, copyOk: nat -> bool): (k: nat)
    ensures k <= n && (forall i: nat :: i < k ==> copyOk(i)) && (k < n ==> !copyOk(k))
  {
    if n == 0 then 0
    else
      var k := Delivered(n - 1, copyOk);
      if k == n - 1 && copyOk(n - 1) then n else k
  }

  class Bluetooth {
    const pairedDevices: array<Registered>

    ghost predicate Valid() {
      pairedDevices.Length == MAX_DEVICES
    }

    constructor ()
      ensures Valid() && fresh(pairedDevices)
    {
      pairedDevices := new Registered[MAX_DEVICES](_ => NO_RECORD);
    }

    /** The static array is cleared before each call of the stack. */
    method Clear()
      requires Valid()
      modifies pairedDevices
      ensures forall k :: 0 <= k < MAX_DEVICES ==> pairedDevices[k] == NO_RECORD
    {
      for k := 0 to MAX_DEVICES
        invariant forall j :: 0 <= j < k ==> pairedDevices[j] == NO_RECORD
      {
        pairedDevices[k] := NO_RECORD;
      }
    }

    /** The stack's table call, given its answer. */
    method GetRegisteredInfo(table: Option<seq<Registered>>) returns (count: int)
      requires Valid() && (table.Some? ==> |table.value| <= MAX_DEVICES)
      modifies pairedDevices
      ensures count == if table.None? then ERROR_KERNEL_SIDE else |table.value|
      ensures table.Some? ==> pairedDevices[..count] == table.value
    {
      if table.None? {
        return ERROR_KERNEL_SIDE;
      }
      count := |table.value|;
      for k := 0 to count
        invariant forall j :: 0 <= j < k ==> pairedDevices[j] == table.value[j]
      {
        pairedDevices[k] := table.value[k];
      }
    }

    /** kvqmbt_get_paired_devices. The stack answers with an error or with at most
        `infoSize` table entries; `stateOf` and `copyOk` are its other two answers. The
        caller's array gets exactly the records before the first failed copy. */
    method GetPairedDevices(info: array?<Device>, infoSize: int, table: Option<seq<Registered>>,
                            stateOf: (bv32, bv32) -> int, copyOk: nat -> bool) returns (ret: int)
      requires Valid()
      requires info != null && 1 <= infoSize <= MAX_DEVICES ==> info.Length >= infoSize
      requires table.Some? && 1 <= infoSize ==> |table.value| <= infoSize
      modifies pairedDevices, info
      ensures var refused := info == null || infoSize < 1 || infoSize > MAX_DEVICES;
              if refused then ret == ERROR_INVALID_ARGUMENT && (info != null ==> info[..] == old(info[..]))
              else if table.None? then ret == ERROR_KERNEL_SIDE && info[..] == old(info[..])
              else
                var n := Delivered(|table.value|, copyOk);
                && ret == (if n == |table.value| then n else ERROR_KERNEL_SIDE)
                && info[n..] == old(info[n..])
                && forall k :: 0 <= k < n ==> info[k] == RecordOf(table.value[k], stateOf)
    {
      if info == null || infoSize < 1 || infoSize > MAX_DEVICES {
        return ERROR_INVALID_ARGUMENT;
      }
      Clear();
      var count := GetRegisteredInfo(table);
      if count < 0 {
        return ERROR_KERNEL_SIDE;
      }
      for idx := 0 to count
        invariant pairedDevices[..count] == table.value
        invariant info[idx..] == old(info[idx..])
        invariant forall k :: 0 <= k < idx ==> copyOk(k) && info[k] == RecordOf(table.value[k], stateOf)
      {
        var sceDev := pairedDevices[idx];
        assert sceDev == pairedDevices[..count][idx];
        var name := if |sceDev.name| <= NAME_MAX then sceDev.name else sceDev.name[..NAME_MAX];
        var (mac0, mac1) := PackMac(sceDev.mac);
        var dev := Device(name, mac0, mac1, stateOf(mac0, mac1));
        if !copyOk(idx) {
          DeliveredIs(count, copyOk, idx);
          return ERROR_KERNEL_SIDE;
        }
        info[idx] := dev;
      }
      DeliveredIs(count, copyOk, count);
      return count;
    }

    static lemma DeliveredIs(n: nat, copyOk: nat -> bool, k: nat)
      requires k <= n && (forall i: nat :: i < k ==> copyOk(i)) && (k < n ==> !copyOk(k))
      ensures Delivered(n, copyOk) == k
    {
    }
  }
}
