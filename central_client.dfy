/**
 * The central client's static state and its functions as an object: the
 * `conn_properties` array, `active_connections_num`, `conn_state` and
 * `bf_read_temp`, updated in place, plus the commands issued to the stack.
 * Each method is proved to leave exactly the state the value-level
 * specification in modules ConnectionTable and Central describes.
 */
module CentralClient {
  import opened Bytes
  import opened Advertising
  import opened ConnectionTable
  import opened Central
  import opened CentralProperties

  /** The all-zero record static storage starts with. */
  const ZERO_RECORD: ConnProperties := ConnProperties(0, 0, 0, 0, 0, 0, 0)

  class Client {
    const props: array<ConnProperties>
    var activeConnections: nat
    var connState: ConnState
    var readTemp: bool
    var commands: seq<Command>

    /** The whole state as a value. */
    function Snapshot(): Central
      reads this, props
    {
      Central(props[..], activeConnections, connState, readTemp, commands)
    }

    ghost predicate Valid()
      reads this, props
    {
      Inv(Snapshot())
    }

    /**
     * Static storage before `app_init`: `maxConnections` zeroed records, no
     * connections, `conn_state` zero (`scanning`), the flag false.
     */
    constructor (maxConnections: nat)
      requires 1 <= maxConnections <= 0xFF
      ensures fresh(props) && props.Length == maxConnections
      ensures forall i :: 0 <= i < props.Length ==> props[i] == ZERO_RECORD
      ensures activeConnections == 0 && connState == Scanning && !readTemp && commands == []
    {
      props := new ConnProperties[maxConnections](_ => ZERO_RECORD);
      activeConnections, connState, readTemp, commands := 0, Scanning, false, [];
    }

    /** `init_properties`: empty the table and reset every slot but its address. */
    method InitProperties()
      requires 1 <= props.Length <= 0xFF
      modifies this, props
      ensures props[..] == InitialSlots(old(props[..])) && activeConnections == 0
      ensures connState == old(connState) && readTemp == old(readTemp) && commands == old(commands)
      ensures Valid()
    {
      activeConnections := 0;
      for i := 0 to props.Length
        modifies props
        invariant forall k :: 0 <= k < i ==> props[k] == Cleared(old(props[k]))
        invariant forall k :: i <= k < props.Length ==> props[k] == old(props[k])
      {
        props[i] := Cleared(props[i]);
      }
      InitEmptiesTable(old(props[..]));
    }

    /** `app_init`: humidity is read first, and the table starts empty. */
    method AppInit()
      requires 1 <= props.Length <= 0xFF
      modifies this, props
      ensures Snapshot() == old(Snapshot()).(slots := InitialSlots(old(props[..])), count := 0, readTemp := false)
      ensures Valid()
    {
      readTemp := false;
      InitProperties();
    }

    /** `find_index_by_connection_handle`. */
    method FindIndexByConnectionHandle(connection: u8) returns (idx: u8)
      requires activeConnections <= props.Length <= 0xFF
      ensures idx == FindIndex(props[..], activeConnections, connection)
      ensures idx == TABLE_INDEX_INVALID <==>
                forall j :: 0 <= j < activeConnections ==> props[j].connection != connection
      ensures idx != TABLE_INDEX_INVALID ==>
                idx < activeConnections && props[idx].connection == connection &&
                forall j :: 0 <= j < idx ==> props[j].connection != connection
    {
      var i := 0;
      while i < activeConnections
        invariant 0 <= i <= activeConnections
        invariant forall j :: 0 <= j < i ==> props[j].connection != connection
        invariant FindIndexFrom(props[..], activeConnections, connection, i) ==
                  FindIndex(props[..], activeConnections, connection)
      {
        if props[i].connection == connection {
          return i;
        }
        i := i + 1;
      }
      return TABLE_INDEX_INVALID;
    }

    /** `add_connection`; the caller guarantees a free slot. */
    method AddConnection(connection: u8, address: u16)
      requires Valid() && activeConnections < props.Length
      modifies this, props
      ensures props[..] == AddedSlots(old(props[..]), old(activeConnections), connection, address)
      ensures activeConnections == old(activeConnections) + 1
      ensures connState == old(connState) && readTemp == old(readTemp) && commands == old(commands)
      ensures Valid()
    {
      AddAppends(props[..], activeConnections, connection, address);
      props[activeConnections] := props[activeConnections].(connection := connection, serverAddress := address);
      activeConnections := activeConnections + 1;
    }

    /** `remove_connection`, including its behaviour for a handle that is not live. */
    method RemoveConnection(connection: u8)
      requires Valid()
      modifies this, props
      ensures props[..] == RemovedSlots(old(props[..]), old(activeConnections), connection)
      ensures activeConnections == RemovedCount(old(activeConnections))
      ensures connState == old(connState) && readTemp == old(readTemp) && commands == old(commands)
      ensures Valid()
    {
      ghost var before, count := props[..], activeConnections;
      RemoveKeepsInv(before, count, connection);
      var tableIndex := FindIndexByConnectionHandle(connection);
      if activeConnections > 0 {
        activeConnections := activeConnections - 1;
      }
      ShiftDown(tableIndex as nat, activeConnections);
      ghost var shifted := props[..];
      ClearFrom(activeConnections);
      ghost var after := RemovedSlots(before, count, connection);
      assert forall k :: 0 <= k < props.Length ==> props[k] == after[k];
      assert props[..] == after;
    }

    /** The shift loop of `remove_connection`: slots `[from, to)` take their successor's record. */
    method ShiftDown(from: nat, to: nat)
      requires to < props.Length || to <= from
      modifies props
      ensures forall k :: 0 <= k < props.Length ==>
                props[k] == if from <= k < to then old(props[k + 1]) else old(props[k])
    {
      var i := from;
      while i < to
        invariant from <= to ==> from <= i <= to
        invariant from > to ==> i == from
        invariant forall k :: from <= k < i ==> props[k] == old(props[k + 1])
        invariant forall k :: 0 <= k < props.Length && !(from <= k < i) ==> props[k] == old(props[k])
      {
        props[i] := props[i + 1];
        i := i + 1;
      }
    }

    /** The reset loop of `remove_connection`: every slot from `from` on is cleared. */
    method ClearFrom(from: nat)
      requires from <= props.Length
      modifies props
      ensures forall k :: 0 <= k < props.Length ==>
                props[k] == if from <= k then Cleared(old(props[k])) else old(props[k])
    {
      for j := from to props.Length
        invariant forall k :: from <= k < j ==> props[k] == Cleared(old(props[k]))
        invariant forall k :: 0 <= k < props.Length && !(from <= k < j) ==> props[k] == old(props[k])
      {
        props[j] := Cleared(props[j]);
      }
    }

    /** `sl_bt_on_event`: one event handled to completion. */
    method OnEvent(e: Event)
      requires Valid() && Accepts(Snapshot(), e)
      modifies this, props
      ensures Snapshot() == Step(old(Snapshot()), e)
      ensures Valid()
    {
      StepKeepsInv(Snapshot(), e);
      match e {
        case SystemBoot =>
          commands := commands + [ScannerSetMode, ScannerSetTiming, ConnectionSetDefaultParameters, ScannerStart];
          connState := Scanning;
        case ScanReport(packetType, address, addressType, data) =>
          OnScanReportEvent(packetType, address, addressType, data);
        case ConnectionOpened(connection, address) =>
          OnConnectionOpenedEvent(connection, address);
        case GattService(connection, service) =>
          OnGattServiceEvent(connection, service);
        case GattCharacteristic(connection, characteristic, uuid) =>
          OnGattCharacteristicEvent(connection, characteristic, uuid);
        case ProcedureCompleted(connection) =>
          OnProcedureCompletedEvent(connection);
        case CharacteristicValue(connection, characteristic, value) =>
          OnCharacteristicValueEvent(connection, characteristic, value);
        case ConnectionClosed(connection) =>
          OnConnectionClosedEvent(connection);
        case OtherEvent =>
      }
    }

    /** The `sl_bt_evt_scanner_scan_report_id` arm of `sl_bt_on_event`. */
    method OnScanReportEvent(packetType: u8, address: BdAddr, addressType: u8, data: seq<u8>)
      modifies this
      ensures Snapshot() == OnScanReport(old(Snapshot()), packetType, address, addressType, data)
    {
      if packetType == 0 {
        var found := FindServiceInAdvertisement(data);
        if found {
          commands := commands + [ScannerStop];
          if activeConnections < props.Length {
            commands := commands + [ConnectionOpen(address, addressType)];
            connState := Opening;
          }
        }
      }
    }

    /** The `sl_bt_evt_connection_opened_id` arm of `sl_bt_on_event`. */
    method OnConnectionOpenedEvent(connection: u8, address: BdAddr)
      requires Valid() && activeConnections < props.Length
      modifies this, props
      ensures Snapshot() == OnConnectionOpened(old(Snapshot()), connection, address)
    {
      var addrValue: u16 := (address[1] as int) * 0x100 + (address[0] as int);
      AddConnection(connection, addrValue);
      commands := commands + [GattDiscoverPrimaryServicesByUuid(connection, ENVSENS_SERVICE)];
      commands := commands + [ConnectionSetRemotePowerReporting(connection)];
      connState := DiscoverServices;
    }

    /** The `sl_bt_evt_gatt_service_id` arm of `sl_bt_on_event`. */
    method OnGattServiceEvent(connection: u8, service: u32)
      requires Valid()
      modifies props
      ensures Snapshot() == OnGattService(old(Snapshot()), connection, service)
    {
      var tableIndex := FindIndexByConnectionHandle(connection);
      if tableIndex != TABLE_INDEX_INVALID {
        props[tableIndex] := props[tableIndex].(serviceHandle := service);
      }
    }

    /** The `sl_bt_evt_gatt_characteristic_id` arm of `sl_bt_on_event`. */
    method OnGattCharacteristicEvent(connection: u8, characteristic: u16, uuid: seq<u8>)
      requires Valid()
      modifies props
      ensures Snapshot() == OnGattCharacteristic(old(Snapshot()), connection, characteristic, uuid)
    {
      var tableIndex := FindIndexByConnectionHandle(connection);
      if tableIndex != TABLE_INDEX_INVALID {
        if |uuid| > 0 && uuid[0] == ENVSENS_HUMIDITY_CHAR[0] {
          props[tableIndex] := props[tableIndex].(humidityCharacteristic := characteristic);
        }
        if |uuid| > 0 && uuid[0] == ENVSENS_TEMP_CHAR[0] {
          props[tableIndex] := props[tableIndex].(temperatureCharacteristic := characteristic);
        }
      }
    }

    /** The `sl_bt_evt_gatt_characteristic_value_id` arm of `sl_bt_on_event`. */
    method OnCharacteristicValueEvent(connection: u8, characteristic: u16, value: seq<u8>)
      requires Valid()
      modifies props
      ensures Snapshot() == OnCharacteristicValue(old(Snapshot()), connection, characteristic, value)
    {
      if |value| >= 2 {
        var tableIndex := FindIndexByConnectionHandle(connection);
        if tableIndex != TABLE_INDEX_INVALID {
          if characteristic == props[tableIndex].temperatureCharacteristic {
            props[tableIndex] := props[tableIndex].(temperature := DecodeTemperature(value).value);
          }
          if characteristic == props[tableIndex].humidityCharacteristic {
            props[tableIndex] := props[tableIndex].(humidity := DecodeHumidity(value).value);
          }
        }
      }
    }

    /** The `sl_bt_evt_connection_closed_id` arm of `sl_bt_on_event`. */
    method OnConnectionClosedEvent(connection: u8)
      requires Valid()
      modifies this, props
      ensures Snapshot() == OnConnectionClosed(old(Snapshot()), connection)
    {
      RemoveConnection(connection);
      if connState != Scanning {
        commands := commands + [ScannerStart];
        connState := Scanning;
      }
    }

    /** The `sl_bt_evt_gatt_procedure_completed_id` arm of `sl_bt_on_event`. */
    method OnProcedureCompletedEvent(connection: u8)
      requires Valid()
      modifies this
      ensures Snapshot() == OnProcedureCompleted(old(Snapshot()), connection)
    {
      var tableIndex := FindIndexByConnectionHandle(connection);
      if tableIndex == TABLE_INDEX_INVALID {
        return;
      }
      if connState == DiscoverServices && props[tableIndex].serviceHandle != SERVICE_HANDLE_INVALID {
        commands := commands + [GattDiscoverCharacteristics(connection, props[tableIndex].serviceHandle)];
        connState := DiscoverCharacteristics;
        return;
      }
      if connState == DiscoverCharacteristics
         && props[tableIndex].humidityCharacteristic != CHARACTERISTIC_HANDLE_INVALID && !readTemp {
        commands := commands + [ScannerStop];
        commands := commands + [GattReadCharacteristicValue(connection, props[tableIndex].humidityCharacteristic)];
        readTemp := true;
        return;
      }
      if connState == DiscoverCharacteristics
         && props[tableIndex].temperatureCharacteristic != CHARACTERISTIC_HANDLE_INVALID && readTemp {
        commands := commands + [ScannerStop];
        commands := commands + [GattReadCharacteristicValue(connection, props[tableIndex].temperatureCharacteristic)];
        readTemp := false;
        return;
      }
    }
  }
}
