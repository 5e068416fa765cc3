/**
 * What the event handler of the central client promises, stated over the
 * transition `Central.Step` and its iteration `Central.Run`.
 */
module CentralProperties {
  import opened Bytes
  import opened Advertising
  import opened ConnectionTable
  import opened Central

  /** Every event keeps the table invariant, the capacity, and the commands already issued. */
  lemma {:induction false} StepKeepsInv(c: Central, e: Event)
    requires Accepts(c, e)
    ensures Inv(Step(c, e))
    ensures |Step(c, e).slots| == |c.slots|
    ensures c.commands <= Step(c, e).commands
  {
    match e
    case ConnectionOpened(connection, address) =>
      AddAppends(c.slots, c.count, connection, ShortAddress(address));
    case ConnectionClosed(connection) =>
      RemoveKeepsInv(c.slots, c.count, connection);
    case _ =>
  }

  /** `app_init` leaves a valid, empty table, scanning, with humidity to be read first. */
  lemma {:induction false} AfterInitIsValid(slots: seq<ConnProperties>)
    requires 1 <= |slots| <= 0xFF
    ensures Inv(AfterInit(slots)) && |AfterInit(slots).slots| == |slots|
    ensures forall i :: 0 <= i < |slots| ==> IsCleared(AfterInit(slots).slots[i])
  {
    InitEmptiesTable(slots);
  }

  /** Boot configures the scanner, starts it, and enters `Scanning`; the table is untouched. */
  lemma {:induction false} BootStartsScanning(c: Central)
    requires Inv(c)
    ensures Step(c, SystemBoot).state == Scanning
    ensures Step(c, SystemBoot).commands[|c.commands|..] == BOOT_COMMANDS
    ensures Step(c, SystemBoot).slots == c.slots && Step(c, SystemBoot).count == c.count
  {
    assert Step(c, SystemBoot).commands[|c.commands|..] == BOOT_COMMANDS;
  }

  /**
   * A scan report acts only when it is a connectable advertisement
   * (`packet_type` 0) and one of the AD structures the walk visits lists
   * 0x181A first: then the scan stops, and a connection opens (entering
   * `Opening`) exactly when the table has a free slot. Any other report
   * changes nothing.
   */
  lemma {:induction false} ScanReportRule(c: Central, packetType: u8, address: BdAddr, addressType: u8,
                                          data: seq<u8>)
    requires Inv(c)
    ensures var c' := Step(c, ScanReport(packetType, address, addressType, data));
      var hit := packetType == 0 &&
                 exists k :: 0 <= k < |Visited(data, 0)| && MatchesAt(data, Visited(data, 0)[k]);
      && (!hit ==> c' == c)
      && (hit ==> c'.slots == c.slots && c'.count == c.count && c'.readTemp == c.readTemp)
      && (hit && c.count < |c.slots| ==>
            c'.state == Opening && c'.commands == c.commands + [ScannerStop, ConnectionOpen(address, addressType)])
      && (hit && c.count == |c.slots| ==>
            c'.state == c.state && c'.commands == c.commands + [ScannerStop])
  {
    AdvertisesIffVisitedMatch(data, 0);
  }

  /**
   * An opened connection is appended to the live prefix as a fresh record
   * carrying `addr[1] << 8 | addr[0]`; service discovery and power reporting
   * are requested for it and the machine enters `DiscoverServices`.
   */
  lemma {:induction false} OpenedRule(c: Central, connection: u8, address: BdAddr)
    requires Accepts(c, ConnectionOpened(connection, address))
    ensures var c' := Step(c, ConnectionOpened(connection, address));
      && c'.count == c.count + 1
      && c'.slots[..c'.count] == c.slots[..c.count] + [Opened(connection, (address[1] as int) * 0x100 + (address[0] as int))]
      && Handles(c'.slots, c'.count) == Handles(c.slots, c.count) + [connection]
      && c'.state == DiscoverServices
      && c'.commands == c.commands + [GattDiscoverPrimaryServicesByUuid(connection, [0x1A, 0x18]),
                                      ConnectionSetRemotePowerReporting(connection)]
  {
    AddAppends(c.slots, c.count, connection, ShortAddress(address));
  }

  /**
   * A closed connection is removed (as `remove_connection` does, also for a
   * handle that is not live). The machine ends in `Scanning`, and the scan is
   * restarted exactly when it was not already scanning.
   */
  lemma {:induction false} ClosedRule(c: Central, connection: u8)
    requires Inv(c)
    ensures var c' := Step(c, ConnectionClosed(connection));
      && c'.state == Scanning
      && c'.slots == RemovedSlots(c.slots, c.count, connection) && c'.count == RemovedCount(c.count)
      && c'.readTemp == c.readTemp
      && c'.commands == c.commands + (if c.state != Scanning then [ScannerStart] else [])
      && (connection in Handles(c.slots, c.count) ==>
            var k := FindIndex(c.slots, c.count, connection);
            c'.count == c.count - 1 && c'.slots[..c'.count] == c.slots[..k] + c.slots[k + 1 .. c.count])
  {
    if connection in Handles(c.slots, c.count) {
      RemovePresent(c.slots, c.count, connection);
    }
  }

  /**
   * Service, characteristic, procedure-completed and value events for a
   * connection that is not in the table change nothing.
   */
  lemma {:induction false} UnknownConnectionIgnored(c: Central, e: Event)
    requires Inv(c)
    requires e.GattService? || e.GattCharacteristic? || e.ProcedureCompleted? || e.CharacteristicValue?
    requires e.connection !in Handles(c.slots, c.count)
    ensures Step(c, e) == c
  {
    assert FindIndex(c.slots, c.count, e.connection) == TABLE_INDEX_INVALID;
  }

  /**
   * Discovery and value events touch at most the record of their own
   * connection, never its handle or address, and issue no command.
   */
  lemma {:induction false} RecordEventsStayInTheirRecord(c: Central, e: Event)
    requires Inv(c)
    requires e.GattService? || e.GattCharacteristic? || e.CharacteristicValue?
    ensures var c' := Step(c, e);
      && c'.count == c.count && c'.state == c.state && c'.readTemp == c.readTemp && c'.commands == c.commands
      && |c'.slots| == |c.slots|
      && (forall i :: 0 <= i < |c.slots| && (i >= c.count || c.slots[i].connection != e.connection) ==>
            c'.slots[i] == c.slots[i])
      && (forall i :: 0 <= i < |c.slots| ==>
            c'.slots[i].connection == c.slots[i].connection &&
            c'.slots[i].serverAddress == c.slots[i].serverAddress)
  {
    var idx := FindIndex(c.slots, c.count, e.connection);
    assert idx != TABLE_INDEX_INVALID ==> idx < c.count && c.slots[idx].connection == e.connection;
  }

  /** A discovered service is stored in its connection's record. */
  lemma {:induction false} ServiceStored(c: Central, connection: u8, service: u32)
    requires Inv(c) && connection in Handles(c.slots, c.count)
    ensures var k := FindIndex(c.slots, c.count, connection);
      Step(c, GattService(connection, service)).slots[k] == c.slots[k].(serviceHandle := service)
  {
  }

  /**
   * A discovered characteristic is stored as the humidity handle when its
   * UUID starts with 0x6F, as the temperature handle when it starts with
   * 0x6E, and not at all otherwise.
   */
  lemma {:induction false} CharacteristicStored(c: Central, connection: u8, characteristic: u16, uuid: seq<u8>)
    requires Inv(c) && connection in Handles(c.slots, c.count)
    ensures var k := FindIndex(c.slots, c.count, connection);
      var r, r' := c.slots[k], Step(c, GattCharacteristic(connection, characteristic, uuid)).slots[k];
      && (|uuid| > 0 && uuid[0] == 0x6F ==> r' == r.(humidityCharacteristic := characteristic))
      && (|uuid| > 0 && uuid[0] == 0x6E ==> r' == r.(temperatureCharacteristic := characteristic))
      && (|uuid| == 0 || (uuid[0] != 0x6F && uuid[0] != 0x6E) ==> r' == r)
  {
  }

  /**
   * A value shorter than two bytes changes nothing. Otherwise the record of
   * the connection takes the value's first two bytes, little-endian, as its
   * temperature (two's complement) when the characteristic is its
   * temperature handle, and as its humidity when it is its humidity handle.
   */
  lemma {:induction false} ValueStored(c: Central, connection: u8, characteristic: u16, value: seq<u8>)
    requires Inv(c)
    ensures |value| < 2 ==> Step(c, CharacteristicValue(connection, characteristic, value)) == c
    ensures connection in Handles(c.slots, c.count) && |value| >= 2 ==>
      var k := FindIndex(c.slots, c.count, connection);
      var r, r' := c.slots[k], Step(c, CharacteristicValue(connection, characteristic, value)).slots[k];
      && (characteristic == r.temperatureCharacteristic ==>
            LittleEndian16(Unsigned16(r'.temperature)) == value[..2])
      && (characteristic != r.temperatureCharacteristic ==> r'.temperature == r.temperature)
      && (characteristic == r.humidityCharacteristic ==> LittleEndian16(r'.humidity) == value[..2])
      && (characteristic != r.humidityCharacteristic ==> r'.humidity == r.humidity)
      && r'.humidityCharacteristic == r.humidityCharacteristic
      && r'.temperatureCharacteristic == r.temperatureCharacteristic
      && r'.serviceHandle == r.serviceHandle
  {
  }

  /**
   * Procedure completion for a live connection never changes the table. In
   * `DiscoverServices` with a service handle stored it requests
   * characteristic discovery and enters `DiscoverCharacteristics`. In
   * `DiscoverCharacteristics` it stops the scan and reads humidity when the
   * flag says humidity is next and its handle is known, temperature when
   * the flag says temperature and its handle is known; each read flips the
   * flag and keeps the state. In every other case nothing changes.
   */
  lemma {:induction false} ProcedureCompletedRule(c: Central, connection: u8)
    requires Inv(c) && connection in Handles(c.slots, c.count)
    ensures var k := FindIndex(c.slots, c.count, connection);
      var r, c' := c.slots[k], Step(c, ProcedureCompleted(connection));
      var discoverChars := c.state == DiscoverServices && r.serviceHandle != SERVICE_HANDLE_INVALID;
      var readHumidity := c.state == DiscoverCharacteristics && !c.readTemp &&
                          r.humidityCharacteristic != CHARACTERISTIC_HANDLE_INVALID;
      var readTemperature := c.state == DiscoverCharacteristics && c.readTemp &&
                             r.temperatureCharacteristic != CHARACTERISTIC_HANDLE_INVALID;
      && c'.slots == c.slots && c'.count == c.count
      && (discoverChars ==>
            c'.state == DiscoverCharacteristics && c'.readTemp == c.readTemp &&
            c'.commands == c.commands + [GattDiscoverCharacteristics(connection, r.serviceHandle)])
      && (readHumidity ==>
            c'.state == c.state && c'.readTemp &&
            c'.commands == c.commands + [ScannerStop, GattReadCharacteristicValue(connection, r.humidityCharacteristic)])
      && (readTemperature ==>
            c'.state == c.state && !c'.readTemp &&
            c'.commands == c.commands + [ScannerStop, GattReadCharacteristicValue(connection, r.temperatureCharacteristic)])
      && (!discoverChars && !readHumidity && !readTemperature ==> c' == c)
  {
  }

  /**
   * Every read the handler requests is for a live connection and one of the
   * two characteristic handles stored in its record, never the sentinel.
   */
  lemma {:induction false} ReadsTargetStoredHandles(c: Central, e: Event)
    requires Accepts(c, e)
    ensures forall i :: |c.commands| <= i < |Step(c, e).commands| ==>
      Step(c, e).commands[i].GattReadCharacteristicValue? ==>
        var cmd := Step(c, e).commands[i];
        && e.ProcedureCompleted? && cmd.connection == e.connection
        && cmd.connection in Handles(c.slots, c.count)
        && cmd.characteristic != CHARACTERISTIC_HANDLE_INVALID
        && var r := c.slots[FindIndex(c.slots, c.count, e.connection)];
           cmd.characteristic == (if c.readTemp then r.temperatureCharacteristic else r.humidityCharacteristic)
  {
    var c' := Step(c, e);
    StepKeepsInv(c, e);
    match e
    case SystemBoot =>
      assert c'.commands[|c.commands|..] == BOOT_COMMANDS;
    case _ =>
  }

  /**
   * The read cycle: with both characteristic handles known, two procedure
   * completions read humidity and then temperature, and leave everything as
   * before but the two requests.
   */
  lemma {:induction false} ReadCycle(c: Central, connection: u8)
    requires Inv(c) && connection in Handles(c.slots, c.count)
    requires c.state == DiscoverCharacteristics && !c.readTemp
    requires var r := c.slots[FindIndex(c.slots, c.count, connection)];
      r.humidityCharacteristic != CHARACTERISTIC_HANDLE_INVALID &&
      r.temperatureCharacteristic != CHARACTERISTIC_HANDLE_INVALID
    ensures var r := c.slots[FindIndex(c.slots, c.count, connection)];
      var c1 := Step(c, ProcedureCompleted(connection));
      Accepts(c1, ProcedureCompleted(connection)) &&
      Step(c1, ProcedureCompleted(connection)) ==
        c.(commands := c.commands + [ScannerStop, GattReadCharacteristicValue(connection, r.humidityCharacteristic),
                                     ScannerStop, GattReadCharacteristicValue(connection, r.temperatureCharacteristic)])
  {
    ProcedureCompletedRule(c, connection);
    var c1 := Step(c, ProcedureCompleted(connection));
    ProcedureCompletedRule(c1, connection);
  }

  /** No event moves the machine into `EnableIndication` or `Running`. */
  lemma {:induction false} UnusedStatesStayUnused(c: Central, e: Event)
    requires Accepts(c, e)
    requires c.state != EnableIndication && c.state != Running
    ensures Step(c, e).state != EnableIndication && Step(c, e).state != Running
  {
  }

  /** Over any run the invariant holds, commands only accumulate, and the unused states stay unused. */
  lemma {:induction false} RunKeepsInv(c: Central, events: seq<Event>)
    requires Runnable(c, events) && Inv(c)
    ensures Inv(Run(c, events)) && |Run(c, events).slots| == |c.slots|
    ensures c.commands <= Run(c, events).commands
    ensures c.state != EnableIndication && c.state != Running ==>
              Run(c, events).state != EnableIndication && Run(c, events).state != Running
    decreases |events|
  {
    if |events| > 0 {
      StepKeepsInv(c, events[0]);
      if c.state != EnableIndication && c.state != Running {
        UnusedStatesStayUnused(c, events[0]);
      }
      RunKeepsInv(Step(c, events[0]), events[1..]);
    }
  }

  /**
   * A run from `app_init` never enters `EnableIndication` or `Running`:
   * both states are unreachable.
   */
  lemma {:induction false} UnusedStatesUnreachable(slots: seq<ConnProperties>, events: seq<Event>)
    requires 1 <= |slots| <= 0xFF && Runnable(AfterInit(slots), events)
    ensures Run(AfterInit(slots), events).state != EnableIndication
    ensures Run(AfterInit(slots), events).state != Running
  {
    AfterInitIsValid(slots);
    RunKeepsInv(AfterInit(slots), events);
  }

  /** A lone complete UUID list holding 0x181A stops the scan and opens a connection. */
  lemma {:induction false} SingleTargetAdvertisement(c: Central, address: BdAddr, addressType: u8)
    requires Inv(c) && c.count < |c.slots|
    ensures var c' := Step(c, ScanReport(0, address, addressType, [0x03, 0x03, 0x1A, 0x18]));
      c'.state == Opening && c'.commands == c.commands + [ScannerStop, ConnectionOpen(address, addressType)]
  {
    SingleServiceListIsFound();
  }

  /**
   * Disconnect mid-discovery: the record goes, scanning restarts and the
   * machine is back in `Scanning`.
   */
  lemma {:induction false} DisconnectMidDiscovery(c: Central, connection: u8)
    requires Inv(c) && c.state == DiscoverCharacteristics && UniqueHandles(c.slots, c.count)
    requires connection in Handles(c.slots, c.count)
    ensures var c' := Step(c, ConnectionClosed(connection));
      && c'.state == Scanning && c'.commands == c.commands + [ScannerStart]
      && c'.count == c.count - 1
      && connection !in Handles(c'.slots, c'.count)
  {
    RemoveDropsHandle(c.slots, c.count, connection);
  }

  // ---------------------------------------------------------------------------
  // Unique handles. The stack never reports a connection opened under a handle
  // that is still open; under that promise no two live records share a handle.

  /** The event does not open a connection under a handle that is live already. */
  predicate OpensFresh(c: Central, e: Event)
    requires Inv(c)
  {
    e.ConnectionOpened? ==> e.connection !in Handles(c.slots, c.count)
  }

  /** Each event can be taken, and each opened handle is fresh, in the state the previous ones left. */
  predicate FreshRun(c: Central, events: seq<Event>)
    decreases |events|
  {
    |events| == 0 ||
    (Accepts(c, events[0]) && OpensFresh(c, events[0]) && FreshRun(Step(c, events[0]), events[1..]))
  }

  /** Opening a connection under a fresh handle keeps the live handles unique. */
  lemma {:induction false} OpenedKeepsUniqueHandles(c: Central, connection: u8, address: BdAddr)
    requires Accepts(c, ConnectionOpened(connection, address)) && UniqueHandles(c.slots, c.count)
    requires connection !in Handles(c.slots, c.count)
    ensures var c' := OnConnectionOpened(c, connection, address); UniqueHandles(c'.slots, c'.count)
  {
    AddAppends(c.slots, c.count, connection, ShortAddress(address));
    var c' := OnConnectionOpened(c, connection, address);
    var hs := Handles(c.slots, c.count);
    forall i, j | 0 <= i < j < c'.count
      ensures c'.slots[i].connection != c'.slots[j].connection
    {
      if j == c.count {
        assert c'.slots[i] == c.slots[i] && hs[i] == c.slots[i].connection;
      }
    }
  }

  /** Closing any connection keeps the live handles unique. */
  lemma {:induction false} ClosedKeepsUniqueHandles(c: Central, connection: u8)
    requires Inv(c) && UniqueHandles(c.slots, c.count)
    ensures var c' := OnConnectionClosed(c, connection); UniqueHandles(c'.slots, c'.count)
  {
    RemoveKeepsInv(c.slots, c.count, connection);
    if connection in Handles(c.slots, c.count) {
      RemoveDropsHandle(c.slots, c.count, connection);
    } else {
      RemoveAbsent(c.slots, c.count, connection);
      var s, n := RemovedSlots(c.slots, c.count, connection), RemovedCount(c.count);
      forall i, j | 0 <= i < j < n
        ensures s[i].connection != s[j].connection
      {
        assert s[..n][i] == c.slots[..n][i] && s[..n][j] == c.slots[..n][j];
      }
    }
  }

  /** Every event whose opened handle is fresh keeps the live handles unique. */
  lemma {:induction false} StepKeepsUniqueHandles(c: Central, e: Event)
    requires Accepts(c, e) && UniqueHandles(c.slots, c.count) && OpensFresh(c, e)
    ensures Inv(Step(c, e)) && UniqueHandles(Step(c, e).slots, Step(c, e).count)
  {
    StepKeepsInv(c, e);
    if e.ConnectionOpened? {
      OpenedKeepsUniqueHandles(c, e.connection, e.address);
    } else if e.ConnectionClosed? {
      ClosedKeepsUniqueHandles(c, e.connection);
    } else if e.GattService? || e.GattCharacteristic? || e.CharacteristicValue? {
      RecordEventsStayInTheirRecord(c, e);
    } else {
      assert Step(c, e).slots == c.slots && Step(c, e).count == c.count;
    }
  }

  /** Over a run with fresh opens the invariant holds and the live handles stay unique. */
  lemma {:induction false} RunKeepsUniqueHandles(c: Central, events: seq<Event>)
    requires Inv(c) && UniqueHandles(c.slots, c.count) && FreshRun(c, events)
    ensures Runnable(c, events)
    ensures Inv(Run(c, events)) && UniqueHandles(Run(c, events).slots, Run(c, events).count)
    decreases |events|
  {
    if |events| > 0 {
      StepKeepsUniqueHandles(c, events[0]);
      RunKeepsUniqueHandles(Step(c, events[0]), events[1..]);
    }
  }

  /**
   * From `app_init`, a run with fresh opens reaches only states with unique
   * live handles, where closing a live connection drops its handle.
   */
  lemma {:induction false} ReachableHandlesUnique(slots: seq<ConnProperties>, events: seq<Event>, connection: u8)
    requires 1 <= |slots| <= 0xFF && FreshRun(AfterInit(slots), events)
    ensures Runnable(AfterInit(slots), events)
    ensures var c := Run(AfterInit(slots), events);
      && Inv(c) && UniqueHandles(c.slots, c.count)
      && (connection in Handles(c.slots, c.count) ==>
            var c' := Step(c, ConnectionClosed(connection));
            c'.count == c.count - 1 && connection !in Handles(c'.slots, c'.count))
  {
    AfterInitIsValid(slots);
    RunKeepsUniqueHandles(AfterInit(slots), events);
    var c := Run(AfterInit(slots), events);
    if connection in Handles(c.slots, c.count) {
      RemoveDropsHandle(c.slots, c.count, connection);
    }
  }
}
