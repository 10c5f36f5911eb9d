/** From the address bytes the Bluetooth stack holds to the button an event reaches. */
module Addressing {
  import opened Vqmbt
  import opened Bluetooth
  import opened QmState
  import opened MenuRuns

  predicate DistinctMacs(table: seq<Registered>) {
    forall i, j :: 0 <= i < j < |table| ==> table[i].mac != table[j].mac
  }

  predicate AllZero(bytes: seq<bv8>) {
    forall k :: 0 <= k < |bytes| ==> bytes[k] == 0
  }

  /** The bulk update reset makes of a snapshot of this table. */
  predicate Reports(bulk: Req, table: seq<Registered>, stateOf: (bv32, bv32) -> int) {
    && bulk.BulkUpdate?
    && bulk.numDevices == |table| <= MAX_DEVICES
    && forall k :: 0 <= k < |table| ==> bulk.devices[k] == RecordOf(table[k], stateOf)
  }

  predicate NoZeroMac(table: seq<Registered>) {
    forall k :: 0 <= k < |table| ==> table[k].mac != [0, 0, 0, 0, 0, 0]
  }

  predicate Lists(table: seq<Registered>, m: Mac) {
    exists k :: 0 <= k < |table| && table[k].mac == m
  }

  lemma LowHalf(m: Mac)
    ensures PackMac(m).0 == 0 <==> AllZero(m[..4])
  {
    LowWord(m[0], m[1], m[2], m[3]);
    LowWord(0, 0, 0, 0);
    if AllZero(m[..4]) {
      assert m[..4][0] == 0 && m[..4][1] == 0 && m[..4][2] == 0 && m[..4][3] == 0;
      PackZero();
    } else {
      var k :| 0 <= k < 4 && m[..4][k] != 0;
      assert m[k] != 0;
    }
  }

  lemma HighHalf(m: Mac)
    ensures PackMac(m).1 == 0 <==> AllZero(m[4..])
  {
    HighWord(m[4], m[5]);
    if AllZero(m[4..]) {
      assert m[4..][0] == 0 && m[4..][1] == 0;
      PackZero();
    } else {
      var k :| 0 <= k < 2 && m[4..][k] != 0;
      assert m[4 + k] != 0;
    }
  }

  lemma ReportIsReal(bulk: Req, table: seq<Registered>, stateOf: (bv32, bv32) -> int)
    requires Reports(bulk, table, stateOf)
    requires NoZeroMac(table)
    ensures Real(bulk)
  {
    forall k | 0 <= k < Clamped(bulk.numDevices) ensures HasAddress(bulk.devices[k]) {
      PackIsInjective(table[k].mac, table[k].mac);
    }
  }

  lemma ReportIsDistinct(past: seq<Req>, bulk: Req, table: seq<Registered>, stateOf: (bv32, bv32) -> int)
    requires Reports(bulk, table, stateOf) && Real(bulk) && DistinctMacs(table)
    ensures Distinct(After(past + [bulk]))
  {
    var bs := After(past + [bulk]);
    forall i, j | 0 <= i < j < MAX_DEVICES && bs[i].st != SlotEmpty && bs[j].st != SlotEmpty
      ensures !SameMac(bs[i].device, bs[j].device)
    {
      BulkSettles(past, bulk, i);
      BulkSettles(past, bulk, j);
      PackIsInjective(table[i].mac, table[j].mac);
    }
  }

  /** The pair of words mac_to_idx refuses: one half is zero. */
  predicate Refused(m: Mac) {
    AllZero(m[..4]) || AllZero(m[4..])
  }

  lemma RefusedByHalf(m: Mac)
    ensures Refused(m) <==> PackMac(m).0 == 0 || PackMac(m).1 == 0
  {
    LowHalf(m);
    HighHalf(m);
  }

  /** The button registered device i finds: its own, or none if a half of its address is zero. */
  lemma DeviceFinds(past: seq<Req>, bulk: Req, table: seq<Registered>, stateOf: (bv32, bv32) -> int, i: nat)
    requires Reports(bulk, table, stateOf) && DistinctMacs(table) && i < |table|
    requires NoZeroMac(table)
    ensures var (mac0, mac1) := PackMac(table[i].mac);
            MacToIdx(After(past + [bulk]), mac0, mac1) == if Refused(table[i].mac) then -1 else i
  {
    ReportIsReal(bulk, table, stateOf);
    ReportIsDistinct(past, bulk, table, stateOf);
    EmptySlotsAreZeroed(past + [bulk]);
    BulkSettles(past, bulk, i);
    LookupInvertsAddress(After(past + [bulk]), i);
    RefusedByHalf(table[i].mac);
  }

  /** An address not in the table is in no slot. */
  lemma UnlistedInNoSlot(past: seq<Req>, bulk: Req, table: seq<Registered>, stateOf: (bv32, bv32) -> int, m: Mac, k: nat)
    requires Reports(bulk, table, stateOf) && k < MAX_DEVICES && !Refused(m)
    requires NoZeroMac(table) && !Lists(table, m)
    ensures !HasMac(After(past + [bulk])[k], PackMac(m).0, PackMac(m).1)
  {
    ReportIsReal(bulk, table, stateOf);
    BulkSettles(past, bulk, k);
    RefusedByHalf(m);
    if k < |table| {
      PackIsInjective(table[k].mac, m);
    }
  }

  lemma UnlistedFindsNone(past: seq<Req>, bulk: Req, table: seq<Registered>, stateOf: (bv32, bv32) -> int, m: Mac)
    requires Reports(bulk, table, stateOf)
    requires NoZeroMac(table) && !Lists(table, m)
    ensures MacToIdx(After(past + [bulk]), PackMac(m).0, PackMac(m).1) == -1
  {
    RefusedByHalf(m);
    var k := MacToIdx(After(past + [bulk]), PackMac(m).0, PackMac(m).1);
    if !Refused(m) && k != -1 {
      UnlistedInNoSlot(past, bulk, table, stateOf, m, k);
    }
  }

  /** A device event for this address finds the button of its table entry, if it has one and
      neither its first four bytes nor its last two are all zero; else it changes nothing. */
  ghost predicate FindsItsButton(bs: Buttons, table: seq<Registered>, m: Mac) {
    var (mac0, mac1) := PackMac(m);
    if Lists(table, m) && !Refused(m) then
      var i := MacToIdx(bs, mac0, mac1); 0 <= i < |table| && table[i].mac == m
    else
      && MacToIdx(bs, mac0, mac1) == -1
      && Updated(bs, SawConnected(mac0, mac1)) == bs
      && Updated(bs, SawDisconnected(mac0, mac1)) == bs
  }

  /** After a snapshot of distinct, non-zero addresses, whatever came before it, the events of
      every address find its button. */
  lemma EventsFindTheirButton(past: seq<Req>, bulk: Req, table: seq<Registered>, stateOf: (bv32, bv32) -> int, m: Mac)
    requires Reports(bulk, table, stateOf) && DistinctMacs(table) && NoZeroMac(table)
    ensures FindsItsButton(After(past + [bulk]), table, m)
  {
    if Lists(table, m) {
      var i :| 0 <= i < |table| && table[i].mac == m;
      DeviceFinds(past, bulk, table, stateOf, i);
    } else {
      UnlistedFindsNone(past, bulk, table, stateOf, m);
    }
    MissedChangesNothing(After(past + [bulk]), PackMac(m).0, PackMac(m).1);
  }

  lemma MissedChangesNothing(bs: Buttons, mac0: bv32, mac1: bv32)
    ensures MacToIdx(bs, mac0, mac1) == -1 ==>
              Updated(bs, SawConnected(mac0, mac1)) == bs && Updated(bs, SawDisconnected(mac0, mac1)) == bs
  {
  }
}
