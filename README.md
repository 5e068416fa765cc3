# SI7021 central client: a verified model

The central side of the Lyra SI7021 BLE demo (`si7021_central_client/src/lci_si7021_app.c`) scans for
peripherals that advertise the Environmental Sensing service (0x181A) and connects to them. It then
discovers their humidity (0x2A6F) and temperature (0x2A6E) characteristics and reads the two values
in turn. This project models that file in Dafny and proves what it does. The model has five modules:

- `Bytes`: the firmware's fixed-width integers. It also holds the little-endian 16-bit decode that the
  `memcpy` into `uint16_t humidity` and `int16_t temp` performs.
- `Advertising`: `find_service_in_advertisement`. It walks the Advertising Data structures
  (`[length][AD type][payload]`, Bluetooth Core Specification, Volume 3, Part C, Section 11). It looks
  for a list of 16-bit Service UUIDs (AD type 0x02 or 0x03, Core Specification Supplement, Part A,
  Section 1.1) whose first UUID is 0x181A. The walk is a `while` loop proved against a recursive
  specification. The specification is in turn related to the list of structure offsets the walk visits.
- `ConnectionTable`: the `conn_properties` records and their sentinels (0xFF, 0xFFFFFFFF, 0xFFFF, 0),
  as values. It gives the table that each of `init_properties`, `find_index_by_connection_handle`,
  `add_connection` and `remove_connection` leaves behind, and lemmas about ordering, sentinels and
  handle sets.
- `Central`: the event handler `sl_bt_on_event` as a transition `Step` on a value. A state holds the
  table, `active_connections_num`, the shared `conn_state`, the shared `bf_read_temp`, and the
  sequence of stack commands issued so far. `Run` applies a sequence of events one at a time.
  `CentralProperties` has the transition rules and the run-level invariants.
- `CentralClient`: the same static state as a class. `props` is an `array` updated in place. Each of
  the source's functions is a method with its loops, proved to leave exactly the state that the
  value-level functions describe.

Every stack command is taken to succeed, as `app_assert_status` halts the firmware otherwise. Events
arrive one at a time, in any order; what the radio would actually deliver is not modelled. The
capacity N (`SL_BT_CONFIG_MAX_CONNECTIONS`) is the array's length, with 1 <= N <= 255. The source
requires N >= 1. A `uint8_t` index with 0xFF reserved for "not found" bounds N above.

Closing a connection that is not in the table is not a no-op: `remove_connection` still decrements
`active_connections_num` and clears the last live slot. The model keeps that behaviour
(`ConnectionTable.RemovedSlots`, `ConnectionTable.RemoveAbsent`).

No two live records share a connection handle as long as the stack never reports a connection
opened under a handle that is still open. The model takes that promise as a hypothesis on the
events (`CentralProperties.OpensFresh`) and proves uniqueness for every run from `app_init` under it.

## Model

| member | source | states |
|---|---|---|
| Bytes.DecodeHumidity | si7021_central_client/src/lci_si7021_app.c:404-406 | a value decodes exactly when it holds at least two bytes; the humidity's little-endian encoding is those two bytes |
| Bytes.DecodeTemperature | si7021_central_client/src/lci_si7021_app.c:404-410 | a value decodes exactly when it holds at least two bytes; the two's-complement temperature's little-endian encoding is those two bytes |
| Bytes.DecodeEncodeHumidity | si7021_central_client/src/lci_si7021_app.c:414-415 | encoding a humidity reading and decoding it, with any trailing bytes, gives the reading back |
| Bytes.DecodeEncodeTemperature | si7021_central_client/src/lci_si7021_app.c:409-410 | encoding a signed temperature and decoding it, with any trailing bytes, gives the temperature back |
| Bytes.DecodeIgnoresTrailingBytes | si7021_central_client/src/lci_si7021_app.c:405-415 | bytes after the second change neither decoded reading |
| Bytes.Signed16RoundTrip | si7021_central_client/src/lci_si7021_app.c:54 | the `int16_t` field's bit pattern determines its value |
| Bytes.LittleEndian16RoundTrip | si7021_central_client/src/lci_si7021_app.c:55 | a `uint16_t` is recovered from its two stored bytes |
| Advertising.NextCursor | si7021_central_client/src/lci_si7021_app.c:127 | the walk always moves forward, past the length byte |
| Advertising.AdvertisesFrom | si7021_central_client/src/lci_si7021_app.c:117-129 | the walk from a cursor as a recursion; `AdvertisesIffVisitedMatch` proves it holds exactly when one visited structure matches, and `FindServiceInAdvertisement` is proved equal to it from 0 |
| Advertising.Visited | si7021_central_client/src/lci_si7021_app.c:115-128 | the offsets the walk visits; `VisitedIsTheWalk` characterises them by start, bounds, step and exit |
| Advertising.VisitedIsTheWalk | si7021_central_client/src/lci_si7021_app.c:115-128 | the visited offsets start at the cursor, all lie inside the payload with a type byte, each is the previous one plus its length plus one, and the walk leaves the payload after the last |
| Advertising.AdvertisesIffVisitedMatch | si7021_central_client/src/lci_si7021_app.c:111-130 | the filter succeeds if and only if one of the visited structures is a 16-bit UUID list whose first UUID is 0x181A |
| Advertising.FindServiceInAdvertisement | si7021_central_client/src/lci_si7021_app.c:111-130 | the bounds-checked loop returns true exactly when the advertisement carries the service |
| Advertising.SingleServiceListIsFound | si7021_central_client/src/lci_si7021_app.c:117-123 | `[0x03, 0x03, 0x1A, 0x18]` is accepted |
| Advertising.SecondUuidIsMissed | si7021_central_client/src/lci_si7021_app.c:120-127 | only the first UUID of a list is compared: 0x181A in second place is not found |
| Advertising.WrappedCursorAgreesBelow256 | si7021_central_client/src/lci_si7021_app.c:115-127 | the source's `uint8_t` cursor step agrees with the unbounded walk exactly when the step stays below 256 |
| Advertising.WrappedCursorStalls | si7021_central_client/src/lci_si7021_app.c:117-127 | a first structure of length 0xFF that is not a UUID list sends the wrapped cursor back to 0, though the walk has left the payload and the service is absent |
| Advertising.WrappedCursorStallsExample | si7021_central_client/src/lci_si7021_app.c:117-127 | `[0xFF, 0x00]` with length 2 brings the wrapped cursor back to 0 |
| ConnectionTable.Cleared | si7021_central_client/src/lci_si7021_app.c:93-100 | a reset slot has every sentinel and keeps its server address |
| ConnectionTable.Handles | si7021_central_client/src/lci_si7021_app.c:141-142 | the live handles, one per live record, in table order |
| ConnectionTable.InitialSlots | si7021_central_client/src/lci_si7021_app.c:93-100 | the slots `init_properties` leaves; `InitEmptiesTable` proves them all cleared, addresses kept, the table valid and the reset idempotent |
| ConnectionTable.InitEmptiesTable | si7021_central_client/src/lci_si7021_app.c:88-101 | after `init_properties` the table is empty and valid, every slot has the sentinel handle, service and characteristic handles and zero readings, addresses survive, and a second reset changes nothing |
| ConnectionTable.FindIndexFrom | si7021_central_client/src/lci_si7021_app.c:141-146 | the scan from an index returns the first live matching index from there, or 0xFF exactly when none matches |
| ConnectionTable.FindIndex | si7021_central_client/src/lci_si7021_app.c:139-147 | 0xFF exactly when the handle is not live; otherwise the smallest live index holding it, always below the count |
| ConnectionTable.AddedSlots | si7021_central_client/src/lci_si7021_app.c:157-161 | the slots `add_connection` leaves; `AddAppends` proves the live prefix extended by a fresh record, every other slot kept and the invariant kept |
| ConnectionTable.AddAppends | si7021_central_client/src/lci_si7021_app.c:157-162 | adding to a table with room appends a fresh record with the handle and address, leaves every other slot, extends the handle list by the handle, and keeps the invariant |
| ConnectionTable.RemovedCount | si7021_central_client/src/lci_si7021_app.c:176-178 | the count `remove_connection` leaves: one less, never below zero; `RemovePresent` and `RemoveAbsent` use it |
| ConnectionTable.RemovedSlots | si7021_central_client/src/lci_si7021_app.c:171-190 | the slots `remove_connection` leaves, as written; `RemoveKeepsInv`, `RemovePresent`, `RemoveAbsent` and `RemoveDropsHandle` state its properties |
| ConnectionTable.RemoveKeepsInv | si7021_central_client/src/lci_si7021_app.c:171-190 | removal of any handle leaves a valid table; every slot from the new count on is reset, keeping its address |
| ConnectionTable.RemovePresent | si7021_central_client/src/lci_si7021_app.c:171-190 | removing a live handle decrements the count and deletes exactly its record from the live prefix; the survivors keep their order and fields |
| ConnectionTable.RemoveAbsent | si7021_central_client/src/lci_si7021_app.c:174-189 | removing a handle that is not live keeps the records below the decremented count, dropping the last live one |
| ConnectionTable.RemovedSlotFrom | si7021_central_client/src/lci_si7021_app.c:179-181 | after the shift, live slot i holds the old record i below the removed index and record i+1 from it on |
| ConnectionTable.RemoveDropsHandle | si7021_central_client/src/lci_si7021_app.c:171-190 | with unique handles, removing a live handle leaves exactly the other handles, still unique |
| ConnectionTable.CloseFirstOfTwo | si7021_central_client/src/lci_si7021_app.c:157-190 | two connections opened into an empty table, then the first closed: the second record, with its discovered handles, is at index 0 and the count is 1 |
| CentralProperties.StepKeepsInv | si7021_central_client/src/lci_si7021_app.c:260-441 | every event keeps the table invariant and the capacity, and only appends commands |
| Central.AfterInit | si7021_central_client/src/lci_si7021_app.c:246-252 | the state `app_init` leaves; `AfterInitIsValid` proves it valid and empty |
| Central.ShortAddress | si7021_central_client/src/lci_si7021_app.c:329 | the last two address bytes packed high byte first; `OpenedRule` states the record carries it |
| Central.OnBoot | si7021_central_client/src/lci_si7021_app.c:272-300 | the boot arm; `BootStartsScanning` states its commands and state |
| Central.OnScanReport | si7021_central_client/src/lci_si7021_app.c:304-324 | the scan-report arm; `ScanReportRule` states it over the visited structures |
| Central.OnConnectionOpened | si7021_central_client/src/lci_si7021_app.c:327-343 | the connection-opened arm; `OpenedRule` states it |
| Central.OnGattService | si7021_central_client/src/lci_si7021_app.c:346-352 | the service arm; `ServiceStored` and `UnknownConnectionIgnored` state it |
| Central.OnGattCharacteristic | si7021_central_client/src/lci_si7021_app.c:355-366 | the characteristic arm; `CharacteristicStored` and `UnknownConnectionIgnored` state it |
| Central.OnProcedureCompleted | si7021_central_client/src/lci_si7021_app.c:370-400 | the procedure-completed arm; `ProcedureCompletedRule`, `ReadCycle` and `ReadsTargetStoredHandles` state it |
| Central.OnCharacteristicValue | si7021_central_client/src/lci_si7021_app.c:403-424 | the characteristic-value arm; `ValueStored` and `UnknownConnectionIgnored` state it |
| Central.OnConnectionClosed | si7021_central_client/src/lci_si7021_app.c:427-437 | the connection-closed arm; `ClosedRule` and `DisconnectMidDiscovery` state it |
| Central.Step | si7021_central_client/src/lci_si7021_app.c:260-441 | one call of `sl_bt_on_event`; `StepKeepsInv` and the per-event rules state it, and `CentralClient.Client.OnEvent` is proved equal to it |
| CentralProperties.AfterInitIsValid | si7021_central_client/src/lci_si7021_app.c:246-252 | `app_init` leaves a valid, empty table with every slot reset |
| CentralProperties.BootStartsScanning | si7021_central_client/src/lci_si7021_app.c:272-300 | boot issues set-mode, set-timing, default connection parameters and scanner-start, enters `scanning` and leaves the table alone |
| CentralProperties.ScanReportRule | si7021_central_client/src/lci_si7021_app.c:304-324 | a connectable report that passes the filter stops the scan, and opens a connection and enters `opening` exactly when the table has room; any other report changes nothing; the table is never touched |
| CentralProperties.SingleTargetAdvertisement | si7021_central_client/src/lci_si7021_app.c:304-324 | a connectable report carrying only the 0x181A list, with a free slot, stops the scan and opens the connection |
| CentralProperties.OpenedRule | si7021_central_client/src/lci_si7021_app.c:327-343 | an opened connection is appended with address `addr[1] * 256 + addr[0]`; service discovery for 0x181A and power reporting are requested; the state is `discover_services` |
| CentralProperties.ClosedRule | si7021_central_client/src/lci_si7021_app.c:427-437 | a closed connection is removed as `remove_connection` does; the state ends `scanning` and scanner-start is issued exactly when it was not scanning; for a live handle its record is deleted from the live prefix |
| CentralProperties.DisconnectMidDiscovery | si7021_central_client/src/lci_si7021_app.c:427-437 | a disconnect during characteristic discovery restarts the scan, returns to `scanning` and drops the handle from the table |
| CentralProperties.UnknownConnectionIgnored | si7021_central_client/src/lci_si7021_app.c:346-424 | service, characteristic, procedure-completed and value events for a handle not in the table change nothing |
| CentralProperties.RecordEventsStayInTheirRecord | si7021_central_client/src/lci_si7021_app.c:346-424 | discovery and value events change only their own connection's record, never its handle or address, and issue no command |
| CentralProperties.ServiceStored | si7021_central_client/src/lci_si7021_app.c:346-352 | a discovered service handle is stored in its connection's record |
| CentralProperties.CharacteristicStored | si7021_central_client/src/lci_si7021_app.c:355-366 | a characteristic whose UUID starts with 0x6F becomes the humidity handle, 0x6E the temperature handle, anything else is ignored |
| CentralProperties.ProcedureCompletedRule | si7021_central_client/src/lci_si7021_app.c:370-400 | in `discover_services` with a service handle it requests characteristic discovery and moves on; in `discover_characteristics` it stops the scan and reads humidity or temperature as the flag says, when that handle is known, flipping the flag; otherwise nothing changes; the table never changes |
| CentralProperties.ReadCycle | si7021_central_client/src/lci_si7021_app.c:384-399 | with both handles known, two completions read humidity and then temperature and restore the flag |
| CentralProperties.ReadsTargetStoredHandles | si7021_central_client/src/lci_si7021_app.c:370-400 | every read request is for a live connection and the stored handle the flag selects, never the 0xFFFF sentinel |
| CentralProperties.ValueStored | si7021_central_client/src/lci_si7021_app.c:403-424 | a value shorter than two bytes changes nothing; otherwise the temperature or humidity whose handle matches takes the first two bytes little-endian, signed or unsigned, and the other fields stay |
| CentralProperties.UnusedStatesStayUnused | si7021_central_client/src/lci_si7021_app.c:39-46 | no event enters `enable_indication` or `running` |
| CentralProperties.RunKeepsInv | si7021_central_client/src/lci_si7021_app.c:260-441 | over any run of events the invariant and capacity hold, commands only accumulate, and the unused states stay unused |
| CentralProperties.UnusedStatesUnreachable | si7021_central_client/src/lci_si7021_app.c:39-46 | from `app_init`, no run of events reaches `enable_indication` or `running` |
| CentralProperties.OpenedKeepsUniqueHandles | si7021_central_client/src/lci_si7021_app.c:327-331 | opening a connection under a handle that is not live keeps the live handles unique |
| CentralProperties.ClosedKeepsUniqueHandles | si7021_central_client/src/lci_si7021_app.c:427-429 | closing any connection, live or not, keeps the live handles unique |
| CentralProperties.StepKeepsUniqueHandles | si7021_central_client/src/lci_si7021_app.c:260-441 | every event whose opened handle is fresh keeps the invariant and unique live handles |
| CentralProperties.RunKeepsUniqueHandles | si7021_central_client/src/lci_si7021_app.c:260-441 | over a run whose opened handles are fresh, every event can be taken and the live handles stay unique |
| CentralProperties.ReachableHandlesUnique | si7021_central_client/src/lci_si7021_app.c:246-441 | every state reached from `app_init` with fresh opens has unique live handles, and closing a live connection there drops its handle |
| CentralClient.Client.constructor | si7021_central_client/src/lci_si7021_app.c:58-70 | static storage starts zeroed: N zero records, no connections, `scanning`, the flag false, no commands |
| CentralClient.Client.InitProperties | si7021_central_client/src/lci_si7021_app.c:88-101 | the reset loop leaves the array the initial slots of the old one and the count zero, touching nothing else |
| CentralClient.Client.AppInit | si7021_central_client/src/lci_si7021_app.c:246-252 | the flag is cleared and the table reset; nothing else changes |
| CentralClient.Client.FindIndexByConnectionHandle | si7021_central_client/src/lci_si7021_app.c:139-147 | the loop returns `FindIndex` of the array: the first live matching index, or 0xFF exactly when no live record matches |
| CentralClient.Client.AddConnection | si7021_central_client/src/lci_si7021_app.c:157-162 | writes handle and address at index count and increments it, as `AddedSlots` says, keeping the invariant |
| CentralClient.Client.RemoveConnection | si7021_central_client/src/lci_si7021_app.c:171-190 | decrement, shift loop and reset loop leave the array and count exactly as `RemovedSlots` and `RemovedCount` say |
| CentralClient.Client.ShiftDown | si7021_central_client/src/lci_si7021_app.c:179-181 | each slot in the range takes its successor's old record; all other slots are unchanged |
| CentralClient.Client.ClearFrom | si7021_central_client/src/lci_si7021_app.c:182-189 | every slot from the index on is reset, keeping its address; the others are unchanged |
| CentralClient.Client.OnEvent | si7021_central_client/src/lci_si7021_app.c:260-441 | handling an event in place leaves exactly the state `Step` gives and keeps the invariant |
| CentralClient.Client.OnScanReportEvent | si7021_central_client/src/lci_si7021_app.c:304-324 | the scan-report arm leaves the state `OnScanReport` gives |
| CentralClient.Client.OnConnectionOpenedEvent | si7021_central_client/src/lci_si7021_app.c:327-343 | the connection-opened arm leaves the state `OnConnectionOpened` gives |
| CentralClient.Client.OnGattServiceEvent | si7021_central_client/src/lci_si7021_app.c:346-352 | the service arm leaves the state `OnGattService` gives |
| CentralClient.Client.OnGattCharacteristicEvent | si7021_central_client/src/lci_si7021_app.c:355-366 | the characteristic arm leaves the state `OnGattCharacteristic` gives |
| CentralClient.Client.OnProcedureCompletedEvent | si7021_central_client/src/lci_si7021_app.c:370-400 | the procedure-completed arm leaves the state `OnProcedureCompleted` gives |
| CentralClient.Client.OnCharacteristicValueEvent | si7021_central_client/src/lci_si7021_app.c:403-424 | the characteristic-value arm leaves the state `OnCharacteristicValue` gives |
| CentralClient.Client.OnConnectionClosedEvent | si7021_central_client/src/lci_si7021_app.c:427-437 | the connection-closed arm leaves the state `OnConnectionClosed` gives |

## Left out

- `si7021_peripheral_server/src/lci_si7021_app.c` is not part of this model. It is advertiser, timer, LED and sensor plumbing around foreign calls.
- `read_and_cache_bluetooth_address` and `print_bluetooth_address` (lines 199-238): a foreign stack call and logging.
- All logging, including the `/ 100.0f` float scaling of the readings (lines 411, 416). The model stores the raw integers.
- The timing and mode arguments of the scanner and connection commands (lines 16-25, 282-296). Commands are recorded without them.
- The failure paths of `app_assert_status`. They halt the firmware; every command is taken to succeed.
- Concurrency and radio behaviour of the Bluetooth stack. Events are an arbitrary sequence handled one at a time.
- Advertising.FindServiceInAdvertisement: the source reads `data[i + 1]` to `data[i + 3]` without a bounds check. The model reads nothing past the payload. A structure whose type byte is past the end ends the walk. A structure too short to hold a UUID does not match.
- Advertising.FindServiceInAdvertisement: the cursor is unbounded; the `uint8_t` wrap is shown by `WrappedCursorStalls` (see Findings).
- CentralProperties.ValueStored: when the value is longer than two bytes, the source copies all of it and overruns the two-byte field into the next memory. The model stores only the first two bytes.
- CentralProperties.CharacteristicStored: the source reads the first UUID byte even when the UUID is empty. The model takes an empty UUID to match neither characteristic.
- CentralClient.Client.OnConnectionOpenedEvent: requires a free slot, as `add_connection` writes at index `count` unchecked. A connection opened into a full table is not modelled.
- CentralClient.Client.constructor: requires N <= 255. A larger N would make 0xFF a valid index; it is not modelled.
- `enable_indication` and `running` are declared but never assigned. The model keeps them; `UnusedStatesUnreachable` proves they are never reached.

## Findings

| source | as written | input that shows it | evidently intended | confidence | as-written member | corrected member |
|---|---|---|---|---|---|---|
| si7021_central_client/src/lci_si7021_app.c:115-127 | the cursor is a `uint8_t`, so `i + ad_field_length + 1` wraps modulo 256 | payload `[0xFF, 0x00]` with length 2: the cursor goes from 0 to 0x100, which wraps back to 0, and the loop never ends | the walk leaves the payload and reports that the service is absent | not executed | Advertising.WrappedCursorStalls | Advertising.FindServiceInAdvertisement |
