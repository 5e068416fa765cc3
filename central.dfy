/**
 * The event handler `sl_bt_on_event` of the central client as a state
 * transition on values. A `Central` holds everything the handler reads and
 * writes — the connection table, `active_connections_num`, the shared
 * `conn_state`, the shared `bf_read_temp` flag — and the sequence of
 * commands issued to the Bluetooth stack so far. Every command is taken to
 * succeed (`app_assert_status` never fires).
 */
module Central {
  import opened Bytes
  import opened Advertising
  import opened ConnectionTable

  /** `conn_state_t`: one value shared by all connections. */
  datatype ConnState = Scanning | Opening | DiscoverServices | DiscoverCharacteristics | EnableIndication | Running

  /** A Bluetooth device address, six bytes, least significant first. */
  type BdAddr = s: seq<u8> | |s| == 6 witness [0, 0, 0, 0, 0, 0]

  /** First bytes of the humidity (0x2A6F) and temperature (0x2A6E) characteristic UUIDs. */
  const ENVSENS_HUMIDITY_CHAR: seq<u8> := [0x6F, 0x2A]
  const ENVSENS_TEMP_CHAR: seq<u8> := [0x6E, 0x2A]

  /** The stack events the handler distinguishes; every other event is `OtherEvent`. */
  datatype Event =
    | SystemBoot
    | ScanReport(packetType: u8, address: BdAddr, addressType: u8, data: seq<u8>)
    | ConnectionOpened(connection: u8, address: BdAddr)
    | ConnectionClosed(connection: u8)
    | GattService(connection: u8, service: u32)
    | GattCharacteristic(connection: u8, characteristic: u16, uuid: seq<u8>)
    | ProcedureCompleted(connection: u8)
    | CharacteristicValue(connection: u8, characteristic: u16, value: seq<u8>)
    | OtherEvent

  /**
   * The stack commands the handler issues. Timing and mode arguments are
   * fixed constants of the firmware and are not recorded.
   */
  datatype Command =
    | ScannerSetMode
    | ScannerSetTiming
    | ConnectionSetDefaultParameters
    | ScannerStart
    | ScannerStop
    | ConnectionOpen(address: BdAddr, addressType: u8)
    | GattDiscoverPrimaryServicesByUuid(connection: u8, uuid: seq<u8>)
    | ConnectionSetRemotePowerReporting(connection: u8)
    | GattDiscoverCharacteristics(connection: u8, service: u32)
    | GattReadCharacteristicValue(connection: u8, characteristic: u16)

  datatype Central = Central(
    slots: seq<ConnProperties>,
    count: nat,
    state: ConnState,
    readTemp: bool,
    commands: seq<Command>)

  predicate Inv(c: Central) {
    TableInv(c.slots, c.count)
  }

  /**
   * The state can take the event: a connection only opens while the table
   * has room, since `add_connection` writes at index `count` unchecked.
   */
  predicate Accepts(c: Central, e: Event) {
    Inv(c) && (e.ConnectionOpened? ==> c.count < |c.slots|)
  }

  /** The state after `app_init` on zero-initialised static storage. */
  function AfterInit(slots: seq<ConnProperties>): Central {
    Central(InitialSlots(slots), 0, Scanning, false, [])
  }

  /** The last two bytes of a peer address as the source packs them: `addr[1] << 8 | addr[0]`. */
  function ShortAddress(address: BdAddr): u16 {
    (address[1] as int) * 0x100 + (address[0] as int)
  }

  const BOOT_COMMANDS: seq<Command> :=
    [ScannerSetMode, ScannerSetTiming, ConnectionSetDefaultParameters, ScannerStart]

  function OnBoot(c: Central): Central {
    c.(state := Scanning, commands := c.commands + BOOT_COMMANDS)
  }

  function OnScanReport(c: Central, packetType: u8, address: BdAddr, addressType: u8, data: seq<u8>): Central {
    if packetType != 0 || !Advertises(data) then c
    else if c.count < |c.slots| then
      c.(state := Opening, commands := c.commands + [ScannerStop, ConnectionOpen(address, addressType)])
    else
      c.(commands := c.commands + [ScannerStop])
  }

  function OnConnectionOpened(c: Central, connection: u8, address: BdAddr): Central
    requires c.count < |c.slots|
  {
    c.(slots := AddedSlots(c.slots, c.count, connection, ShortAddress(address)),
       count := c.count + 1,
       state := DiscoverServices,
       commands := c.commands + [GattDiscoverPrimaryServicesByUuid(connection, ENVSENS_SERVICE),
                                 ConnectionSetRemotePowerReporting(connection)])
  }

  function OnGattService(c: Central, connection: u8, service: u32): Central
    requires Inv(c)
  {
    var idx := FindIndex(c.slots, c.count, connection);
    if idx == TABLE_INDEX_INVALID then c
    else c.(slots := c.slots[idx := c.slots[idx].(serviceHandle := service)])
  }

  function OnGattCharacteristic(c: Central, connection: u8, characteristic: u16, uuid: seq<u8>): Central
    requires Inv(c)
  {
    var idx := FindIndex(c.slots, c.count, connection);
    if idx == TABLE_INDEX_INVALID then c
    else
      var r := c.slots[idx];
      var r1 := if |uuid| > 0 && uuid[0] == ENVSENS_HUMIDITY_CHAR[0]
                then r.(humidityCharacteristic := characteristic) else r;
      var r2 := if |uuid| > 0 && uuid[0] == ENVSENS_TEMP_CHAR[0]
                then r1.(temperatureCharacteristic := characteristic) else r1;
      c.(slots := c.slots[idx := r2])
  }

  function OnProcedureCompleted(c: Central, connection: u8): Central
    requires Inv(c)
  {
    var idx := FindIndex(c.slots, c.count, connection);
    if idx == TABLE_INDEX_INVALID then c
    else
      var r := c.slots[idx];
      if c.state == DiscoverServices && r.serviceHandle != SERVICE_HANDLE_INVALID then
        c.(state := DiscoverCharacteristics,
           commands := c.commands + [GattDiscoverCharacteristics(connection, r.serviceHandle)])
      else if c.state == DiscoverCharacteristics && r.humidityCharacteristic != CHARACTERISTIC_HANDLE_INVALID
              && !c.readTemp then
        c.(readTemp := true,
           commands := c.commands + [ScannerStop, GattReadCharacteristicValue(connection, r.humidityCharacteristic)])
      else if c.state == DiscoverCharacteristics && r.temperatureCharacteristic != CHARACTERISTIC_HANDLE_INVALID
              && c.readTemp then
        c.(readTemp := false,
           commands := c.commands + [ScannerStop, GattReadCharacteristicValue(connection, r.temperatureCharacteristic)])
      else c
  }

  function OnCharacteristicValue(c: Central, connection: u8, characteristic: u16, value: seq<u8>): Central
    requires Inv(c)
  {
    if |value| < 2 then c
    else
      var idx := FindIndex(c.slots, c.count, connection);
      if idx == TABLE_INDEX_INVALID then c
      else
        var r := c.slots[idx];
        var r1 := if characteristic == r.temperatureCharacteristic
                  then r.(temperature := DecodeTemperature(value).value) else r;
        var r2 := if characteristic == r1.humidityCharacteristic
                  then r1.(humidity := DecodeHumidity(value).value) else r1;
        c.(slots := c.slots[idx := r2])
  }

  function OnConnectionClosed(c: Central, connection: u8): Central
    requires Inv(c)
  {
    var removed := c.(slots := RemovedSlots(c.slots, c.count, connection), count := RemovedCount(c.count));
    if c.state != Scanning then removed.(state := Scanning, commands := c.commands + [ScannerStart])
    else removed
  }

  /** One call of `sl_bt_on_event`. */
  function Step(c: Central, e: Event): Central
    requires Accepts(c, e)
  {
    match e
    case SystemBoot => OnBoot(c)
    case ScanReport(packetType, address, addressType, data) =>
      OnScanReport(c, packetType, address, addressType, data)
    case ConnectionOpened(connection, address) => OnConnectionOpened(c, connection, address)
    case ConnectionClosed(connection) => OnConnectionClosed(c, connection)
    case GattService(connection, service) => OnGattService(c, connection, service)
    case GattCharacteristic(connection, characteristic, uuid) =>
      OnGattCharacteristic(c, connection, characteristic, uuid)
    case ProcedureCompleted(connection) => OnProcedureCompleted(c, connection)
    case CharacteristicValue(connection, characteristic, value) =>
      OnCharacteristicValue(c, connection, characteristic, value)
    case OtherEvent => c
  }

  /** Each event can be taken in the state the previous ones left. */
  predicate Runnable(c: Central, events: seq<Event>)
    decreases |events|
  {
    |events| == 0 || (Accepts(c, events[0]) && Runnable(Step(c, events[0]), events[1..]))
  }

  /** The handler applied to a sequence of events, one at a time. */
  function Run(c: Central, events: seq<Event>): Central
    requires Runnable(c, events)
    decreases |events|
  {
    if |events| == 0 then c else Run(Step(c, events[0]), events[1..])
  }
}
