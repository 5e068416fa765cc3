/**
 * The fixed-capacity connection table of the central client, as values: the
 * `conn_properties` array is a sequence of records `slots` whose length is the
 * capacity N (`SL_BT_CONFIG_MAX_CONNECTIONS`), and `count` is
 * `active_connections_num`. The functions here give the table each of
 * `init_properties`, `find_index_by_connection_handle`, `add_connection` and
 * `remove_connection` leaves behind; the lemmas state what those promise.
 */
module ConnectionTable {
  import opened Bytes

  const CONNECTION_HANDLE_INVALID: u8 := 0xFF
  const SERVICE_HANDLE_INVALID: u32 := 0xFFFF_FFFF
  const CHARACTERISTIC_HANDLE_INVALID: u16 := 0xFFFF
  const TABLE_INDEX_INVALID: u8 := 0xFF
  const TEMP_INVALID: i16 := 0
  const HUM_INVALID: u16 := 0

  /** One connection's record, `conn_properties_t`. */
  datatype ConnProperties = ConnProperties(
    connection: u8,
    serverAddress: u16,
    serviceHandle: u32,
    humidityCharacteristic: u16,
    temperatureCharacteristic: u16,
    temperature: i16,
    humidity: u16)

  /** Every field that `init_properties` and `remove_connection` reset holds its sentinel. */
  predicate IsCleared(r: ConnProperties) {
    && r.connection == CONNECTION_HANDLE_INVALID
    && r.serviceHandle == SERVICE_HANDLE_INVALID
    && r.humidityCharacteristic == CHARACTERISTIC_HANDLE_INVALID
    && r.temperatureCharacteristic == CHARACTERISTIC_HANDLE_INVALID
    && r.temperature == TEMP_INVALID
    && r.humidity == HUM_INVALID
  }

  /** A slot after reset; the server address is left as it was. */
  function Cleared(r: ConnProperties): (c: ConnProperties)
    ensures IsCleared(c) && c.serverAddress == r.serverAddress
  {
    r.(connection := CONNECTION_HANDLE_INVALID,
       serviceHandle := SERVICE_HANDLE_INVALID,
       humidityCharacteristic := CHARACTERISTIC_HANDLE_INVALID,
       temperatureCharacteristic := CHARACTERISTIC_HANDLE_INVALID,
       temperature := TEMP_INVALID,
       humidity := HUM_INVALID)
  }

  /** The record of a connection that has just opened: nothing discovered or read yet. */
  function Opened(connection: u8, address: u16): ConnProperties {
    ConnProperties(connection, address, SERVICE_HANDLE_INVALID, CHARACTERISTIC_HANDLE_INVALID,
                   CHARACTERISTIC_HANDLE_INVALID, TEMP_INVALID, HUM_INVALID)
  }

  /**
   * The table's invariant: 1 <= N <= 255 (the source refuses N < 1, and a
   * `uint8_t` index with 0xFF reserved as "not found" bounds it above), the
   * live records fill the prefix `[0, count)`, and every slot after it is
   * cleared.
   */
  predicate TableInv(slots: seq<ConnProperties>, count: nat) {
    && 1 <= |slots| <= 0xFF
    && count <= |slots|
    && forall i :: count <= i < |slots| ==> IsCleared(slots[i])
  }

  /** No two live records share a connection handle. */
  predicate UniqueHandles(slots: seq<ConnProperties>, count: nat)
    requires count <= |slots|
  {
    forall i, j :: 0 <= i < j < count ==> slots[i].connection != slots[j].connection
  }

  /** The handles of the live records, in table order. */
  function Handles(slots: seq<ConnProperties>, count: nat): (hs: seq<u8>)
    requires count <= |slots|
    ensures |hs| == count && forall i :: 0 <= i < count ==> hs[i] == slots[i].connection
  {
    if count == 0 then [] else Handles(slots, count - 1) + [slots[count - 1].connection]
  }

  // ---------------------------------------------------------------------------
  // init_properties

  /** The slots after `init_properties`. */
  function InitialSlots(slots: seq<ConnProperties>): seq<ConnProperties> {
    seq(|slots|, i requires 0 <= i < |slots| => Cleared(slots[i]))
  }

  /** After `init_properties` the table is empty, every slot cleared, and only the addresses survive. */
  lemma {:induction false} InitEmptiesTable(slots: seq<ConnProperties>)
    requires 1 <= |slots| <= 0xFF
    ensures TableInv(InitialSlots(slots), 0)
    ensures |InitialSlots(slots)| == |slots|
    ensures forall i :: 0 <= i < |slots| ==>
              IsCleared(InitialSlots(slots)[i]) &&
              InitialSlots(slots)[i].serverAddress == slots[i].serverAddress
    ensures InitialSlots(InitialSlots(slots)) == InitialSlots(slots)
  {
    var s := InitialSlots(slots);
    assert forall i :: 0 <= i < |slots| ==> s[i] == Cleared(slots[i]);
    assert forall i :: 0 <= i < |s| ==> Cleared(s[i]) == s[i];
  }

  // ---------------------------------------------------------------------------
  // find_index_by_connection_handle

  /** The scan of `find_index_by_connection_handle`, from index `from` on. */
  function FindIndexFrom(slots: seq<ConnProperties>, count: nat, h: u8, from: nat): (idx: u8)
    requires count <= |slots| <= 0xFF && from <= count
    ensures idx == TABLE_INDEX_INVALID <==> forall j :: from <= j < count ==> slots[j].connection != h
    ensures idx != TABLE_INDEX_INVALID ==>
              from <= idx < count && slots[idx].connection == h &&
              forall j :: from <= j < idx ==> slots[j].connection != h
    decreases count - from
  {
    if from == count then TABLE_INDEX_INVALID
    else if slots[from].connection == h then from
    else FindIndexFrom(slots, count, h, from + 1)
  }

  /**
   * `find_index_by_connection_handle`: the smallest live index holding `h`,
   * or 0xFF when no live record does; never an index at or past `count`.
   */
  function FindIndex(slots: seq<ConnProperties>, count: nat, h: u8): (idx: u8)
    requires count <= |slots| <= 0xFF
    ensures idx == TABLE_INDEX_INVALID <==> h !in Handles(slots, count)
    ensures idx != TABLE_INDEX_INVALID ==>
              idx < count && slots[idx].connection == h &&
              forall j :: 0 <= j < idx ==> slots[j].connection != h
  {
    var hs := Handles(slots, count);
    assert h in hs ==> exists j :: 0 <= j < count && hs[j] == h && slots[j].connection == h;
    FindIndexFrom(slots, count, h, 0)
  }

  // ---------------------------------------------------------------------------
  // add_connection

  /** The slots after `add_connection`: handle and address written at index `count`. */
  function AddedSlots(slots: seq<ConnProperties>, count: nat, h: u8, address: u16): seq<ConnProperties>
    requires count < |slots|
  {
    slots[count := slots[count].(connection := h, serverAddress := address)]
  }

  /**
   * Adding to a table with room appends a freshly opened record to the live
   * prefix, keeps every other slot, and keeps the invariant.
   */
  lemma {:induction false} AddAppends(slots: seq<ConnProperties>, count: nat, h: u8, address: u16)
    requires TableInv(slots, count) && count < |slots|
    ensures TableInv(AddedSlots(slots, count, h, address), count + 1)
    ensures AddedSlots(slots, count, h, address)[..count + 1] == slots[..count] + [Opened(h, address)]
    ensures forall i :: 0 <= i < |slots| && i != count ==> AddedSlots(slots, count, h, address)[i] == slots[i]
    ensures Handles(AddedSlots(slots, count, h, address), count + 1) == Handles(slots, count) + [h]
  {
    var s := AddedSlots(slots, count, h, address);
    assert IsCleared(slots[count]);
    assert s[count] == Opened(h, address);
    assert s[..count + 1] == slots[..count] + [Opened(h, address)];
    var hs, hs' := Handles(slots, count), Handles(s, count + 1);
    assert forall i :: 0 <= i < count ==> hs'[i] == hs[i];
  }

  // ---------------------------------------------------------------------------
  // remove_connection

  /** `active_connections_num` after `remove_connection`: decremented unless already zero. */
  function RemovedCount(count: nat): nat {
    if count > 0 then count - 1 else 0
  }

  /**
   * The slots after `remove_connection` as written: the count drops whether
   * or not `h` is live; when it is live at index k the records after k shift
   * down by one (0xFF makes the shift empty otherwise); then every slot from
   * the new count on is cleared, keeping its address.
   */
  function RemovedSlots(slots: seq<ConnProperties>, count: nat, h: u8): seq<ConnProperties>
    requires count <= |slots| <= 0xFF
  {
    var idx := FindIndex(slots, count, h);
    var n := RemovedCount(count);
    seq(|slots|, i requires 0 <= i < |slots| =>
      if i < n then (if idx <= i then slots[i + 1] else slots[i]) else Cleared(slots[i]))
  }

  /** Removal always leaves a valid table whose unused slots keep their addresses. */
  lemma {:induction false} RemoveKeepsInv(slots: seq<ConnProperties>, count: nat, h: u8)
    requires TableInv(slots, count)
    ensures TableInv(RemovedSlots(slots, count, h), RemovedCount(count))
    ensures |RemovedSlots(slots, count, h)| == |slots|
    ensures forall i :: RemovedCount(count) <= i < |slots| ==>
              RemovedSlots(slots, count, h)[i] == Cleared(slots[i])
  {
  }

  /**
   * Removing a live handle deletes its record from the live prefix; the
   * survivors keep their order and every field.
   */
  lemma {:induction false} RemovePresent(slots: seq<ConnProperties>, count: nat, h: u8)
    requires TableInv(slots, count)
    requires h in Handles(slots, count)
    ensures var k := FindIndex(slots, count, h);
      && RemovedCount(count) == count - 1
      && RemovedSlots(slots, count, h)[..count - 1] == slots[..k] + slots[k + 1 .. count]
  {
    var k := FindIndex(slots, count, h);
    var s := RemovedSlots(slots, count, h);
    assert s[..count - 1] == slots[..k] + slots[k + 1 .. count];
  }

  /**
   * Removing a handle that is not live still drops the last live record:
   * the source decrements the count unconditionally.
   */
  lemma {:induction false} RemoveAbsent(slots: seq<ConnProperties>, count: nat, h: u8)
    requires TableInv(slots, count)
    requires h !in Handles(slots, count)
    ensures RemovedSlots(slots, count, h)[..RemovedCount(count)] == slots[..RemovedCount(count)]
  {
    var s := RemovedSlots(slots, count, h);
    assert s[..RemovedCount(count)] == slots[..RemovedCount(count)];
  }

  /** Where live record `i` of the table after removing the record at `k` came from. */
  function SourceIndex(i: nat, k: nat): nat {
    if i < k then i else i + 1
  }

  lemma {:induction false} RemovedSlotFrom(slots: seq<ConnProperties>, count: nat, h: u8, i: nat)
    requires TableInv(slots, count) && h in Handles(slots, count) && i < count - 1
    ensures SourceIndex(i, FindIndex(slots, count, h)) < count
    ensures RemovedSlots(slots, count, h)[i] == slots[SourceIndex(i, FindIndex(slots, count, h))]
  {
  }

  /**
   * With unique handles, removing a live handle leaves exactly the other
   * handles, still unique.
   */
  lemma {:induction false} RemoveDropsHandle(slots: seq<ConnProperties>, count: nat, h: u8)
    requires TableInv(slots, count) && UniqueHandles(slots, count)
    requires h in Handles(slots, count)
    ensures UniqueHandles(RemovedSlots(slots, count, h), count - 1)
    ensures forall x :: x in Handles(RemovedSlots(slots, count, h), count - 1) <==>
              x in Handles(slots, count) && x != h
  {
    var k := FindIndex(slots, count, h);
    var s := RemovedSlots(slots, count, h);
    var hs, hs' := Handles(slots, count), Handles(s, count - 1);
    forall i, j | 0 <= i < j < count - 1
      ensures s[i].connection != s[j].connection
    {
      RemovedSlotFrom(slots, count, h, i);
      RemovedSlotFrom(slots, count, h, j);
    }
    forall x | x in hs'
      ensures x in hs && x != h
    {
      var i :| 0 <= i < count - 1 && hs'[i] == x;
      RemovedSlotFrom(slots, count, h, i);
      assert hs[SourceIndex(i, k)] == x;
    }
    forall x | x in hs && x != h
      ensures x in hs'
    {
      var j :| 0 <= j < count && hs[j] == x;
      var i := if j < k then j else j - 1;
      RemovedSlotFrom(slots, count, h, i);
      assert hs'[i] == x;
    }
  }

  /**
   * Two connections opened into an empty table, then the first closed: the
   * second record, with whatever was discovered for it, now sits at index 0.
   */
  lemma {:induction false} CloseFirstOfTwo(slots: seq<ConnProperties>, h1: u8, h2: u8, a1: u16, a2: u16,
                                          second: ConnProperties)
    requires TableInv(slots, 0) && 2 <= |slots| && h1 != h2 && second.connection == h2
    ensures var table := AddedSlots(AddedSlots(slots, 0, h1, a1), 1, h2, a2)[1 := second];
      RemovedSlots(table, 2, h1)[0] == second && RemovedCount(2) == 1
  {
    var table := AddedSlots(AddedSlots(slots, 0, h1, a1), 1, h2, a2)[1 := second];
    assert table[0].connection == h1;
    assert FindIndex(table, 2, h1) == 0;
  }
}
