# LED Control: BLE connection controller

This project models `BLEManager`, the Bluetooth Low Energy controller of the
LED-control iOS app. The controller scans for an ESP32 peripheral that
advertises one known service, connects to it, finds its LED characteristic,
and switches the LED by writing one byte. It is an event-driven state
machine. User intents (`startScanning`, `stopScanning`, `connect`,
`disconnect`, `setLEDState`) and the platform's delegate callbacks (radio
state, discovery, connect, disconnect, connect failure, service and
characteristic discovery, write acknowledgment) update a handful of fields.

The model is the class `LEDControl.BLEManager` (file `ble_manager.dfy`). Its
fields are the observable state (`isScanning`, `isConnected`,
`discoveredPeripherals`, `statusMessage`, `ledState`) and the connection
context (`connectedPeripheral`, `ledCharacteristic`). Two fields stand in
for the platform:

- `radio` holds the radio state the central manager last reported.
- `effects` is an append-only log of every call the controller makes into
  CoreBluetooth or the dispatch queue.

Each method's `modifies` clause names exactly the fields the Swift method
assigns, so every other field is provably unchanged. Its `ensures` clauses
give the new value of each field it names, for every branch of its guards.
The object invariant `Valid()` says the discovered list never holds two
entries with the same identifier. Every method preserves it.

Supporting modules:

- `bluetooth.dfy` holds the platform values. Peripherals are an identifier
  plus an optional name. Services and characteristics are a UUID plus an
  object handle. It also holds the two UUIDs, the 10-second scan timeout,
  the effect log's entries and the one-byte LED payload.
- `status.dfy` models status messages. Each message is a constructor of
  `Status`, and an interpolated name or error text is its argument. `Text`
  renders a status as the exact string the app shows. `TextInjective`
  proves that no two statuses render the same string.
- `scenarios.dfy` holds client methods. Each one drives a fresh controller
  through a documented sequence and asserts the outcome from the contracts
  alone: a timed-out empty scan, a refused scan, a repeat discovery, the
  connect/discover flow, switching the LED and disconnecting, a failed
  second connection, and a characteristic stored without a connection.

Three behaviours of the code are worth knowing:

- The code does not guarantee that `ledCharacteristic` is set only while
  `isConnected` holds. The characteristic-discovery callback never checks
  the connection flag. Suppose the controller connects to two peripherals
  in turn and the first one disconnects: the flag is cleared, and the
  second one's characteristics, arriving afterwards, are still stored (see
  `Scenarios.StaleCharacteristic`). The model states the property as the
  predicate `Coherent()`. The constructor, `DidConnect` and `DidDisconnect`
  establish it. `DidDiscoverCharacteristics` provably breaks it whenever it
  stores a characteristic while not connected.
- `setLEDState`'s guard is on `ledCharacteristic` and
  `connectedPeripheral`, not on `isConnected`. After a failed second
  connection attempt, `isConnected` is still true but the LED can no longer
  be switched (see `Scenarios.FailedSecondConnect`).
- Each `startScanning` schedules one more stop and never cancels the
  earlier one. In the model, each `StartScanning` logs another
  `StopScanScheduled(10)`.

## Model

| member | source | states |
|---|---|---|
| LEDControl.BLEManager.constructor | mobile/LEDControl/BLEManager.swift:25-39 | A new controller is not scanning, not connected, has an empty list, shows "Ready to scan", has the LED off and has no connection context. Its only platform call so far is creating its central manager. |
| LEDControl.BLEManager.StartScanning | mobile/LEDControl/BLEManager.swift:42-57 | Radio not powered on: only the status changes, to "Bluetooth is not available". The list, `isScanning` and the effect log are unchanged. Powered on: the list is emptied, `isScanning` is set, the status becomes "Scanning for ESP32-LED...", and exactly one scan filtered to the service UUID is issued, then a stop after 10 seconds is scheduled. |
| LEDControl.BLEManager.StopScanning | mobile/LEDControl/BLEManager.swift:59-65 | Always clears `isScanning` and logs one stop-scan. When not connected, the status is "No devices found" for an empty list and "Scan complete" otherwise. When connected, the status is untouched. |
| LEDControl.BLEManager.Connect | mobile/LEDControl/BLEManager.swift:68-74 | Stops the scan (with its status effect), then records `p` as the connection candidate, shows "Connecting to <name or device>..." and logs exactly a stop-scan followed by a connect request for `p`. |
| LEDControl.BLEManager.Disconnect | mobile/LEDControl/BLEManager.swift:77-80 | With no candidate it is a no-op: no effect, and no field changes. Otherwise it logs exactly one cancel request for the candidate and changes no state. |
| LEDControl.BLEManager.SetLEDState | mobile/LEDControl/BLEManager.swift:83-95 | Missing characteristic or candidate: status "Not connected to device", `ledState` unchanged, no write. Otherwise: exactly one write-with-response of the one-byte payload, `ledState` set at once, status "LED turned ON/OFF". |
| LEDControl.BLEManager.DidUpdateState | mobile/LEDControl/BLEManager.swift:100-113 | Records the reported radio state and shows its message. Only the radio field and the status change. |
| LEDControl.BLEManager.DidDiscover | mobile/LEDControl/BLEManager.swift:115-121 | When no listed entry has `p`'s identifier, appends `p` and shows "Found <name or Unknown>". Otherwise list and status are unchanged. Afterwards the identifier is listed and the list stays duplicate-free. |
| LEDControl.BLEManager.DidConnect | mobile/LEDControl/BLEManager.swift:123-127 | Sets `isConnected`, shows "Connected to <name or device>", and logs one service discovery of that peripheral restricted to the service UUID. |
| LEDControl.BLEManager.DidDisconnect | mobile/LEDControl/BLEManager.swift:129-135 | Whatever the peripheral or error: not connected, no characteristic, no candidate, LED off, status "Disconnected". |
| LEDControl.BLEManager.DidFailToConnect | mobile/LEDControl/BLEManager.swift:137-140 | Only the candidate is dropped and the status shows the error text, or "Unknown error". `isConnected` and the characteristic are untouched. |
| LEDControl.BLEManager.DidDiscoverServices | mobile/LEDControl/BLEManager.swift:145-153 | No service list: nothing happens. Otherwise the loop's effects are exactly `CharacteristicDiscoveries` of the list. |
| LEDControl.BLEManager.DidDiscoverCharacteristics | mobile/LEDControl/BLEManager.swift:155-164 | With no list or no LED-UUID entry, nothing changes. Otherwise the last LED-UUID characteristic is stored and the status is "Ready to control LED". Storing one while not connected breaks `Coherent()`. |
| LEDControl.BLEManager.DidWriteValue | mobile/LEDControl/BLEManager.swift:166-170 | An error sets only the status, to "Write error: <text>". Without an error nothing changes. `ledState` is never rolled back. |
| LEDControl.HasId | mobile/LEDControl/BLEManager.swift:117 | True exactly when some index of the list holds an entry with that identifier. |
| LEDControl.CharacteristicDiscoveries | mobile/LEDControl/BLEManager.swift:148-152 | Every request is a characteristic discovery for peripheral `p`. It is restricted to the LED characteristic UUID and targets a listed service with the LED service UUID. Every such service gets at least one. There are at most as many requests as services. |
| LEDControl.CharacteristicDiscoveriesCount | mobile/LEDControl/BLEManager.swift:148-152 | Each LED service gets exactly as many requests as it has occurrences in the service list. |
| LEDControl.CharacteristicDiscoveriesStep | mobile/LEDControl/BLEManager.swift:148-152 | Visiting one more service adds a request exactly when that service has the LED service UUID. |
| LEDControl.LastLedCharacteristic | mobile/LEDControl/BLEManager.swift:158-163 | Absent exactly when no characteristic has the LED UUID. Otherwise it is a listed characteristic with that UUID, and no later entry has that UUID, so the loop's last assignment wins. |
| Bluetooth.NameOr | mobile/LEDControl/BLEManager.swift:72 | Swift's `name ?? fallback`, also used at lines 119, 125 and 138: the name when present, otherwise the fallback. |
| Bluetooth.LedPayload | mobile/LEDControl/BLEManager.swift:90-91 | The payload is exactly one byte. It is 1 exactly when switching on and 0 exactly when switching off. |
| StatusMessages.Text | mobile/LEDControl/BLEManager.swift:28-168 | Renders each status as the exact string the code assigns to `statusMessage` (lines 28, 44, 50, 63, 72, 86, 94, 103-111, 119, 125, 134, 138, 161, 168). Its own contract states only that the text is never empty; `TextInjective` states the property that matters. |
| StatusMessages.RadioStatus | mobile/LEDControl/BLEManager.swift:100-112 | Each radio state maps to one of the five radio messages. The message is "Bluetooth is ready" exactly when the radio is powered on. |
| StatusMessages.RadioStatusInjective | mobile/LEDControl/BLEManager.swift:100-112 | Distinct radio states give distinct messages. |
| StatusMessages.RecoverText | mobile/LEDControl/BLEManager.swift:44-168 | Every rendered status message, including one with an interpolated name or error, determines the status that produced it. |
| StatusMessages.TextInjective | mobile/LEDControl/BLEManager.swift:44-168 | No two statuses render the same text, so modelling the messages as constructors loses nothing the user can see. |

## Left out

- CoreBluetooth itself (`CBCentralManager`, `CBPeripheral`, scanning, connecting, writing) is not modelled. Each call the controller makes is one entry of the effect log; what the framework then does is up to the environment, which may deliver any callback in any order.
- The 10-second auto-stop timer is recorded as the effect `StopScanScheduled(10)`. Its firing is the environment calling `StopScanning`; real time and the dispatch queue are not modelled.
- The radio state is the last state delivered through `DidUpdateState`. It starts as `Other`, standing for CoreBluetooth's "unknown". The framework's own `state` property is not modelled separately.
- `peripheral.delegate = self` in `connect(to:)` (line 71) is delegate wiring and has no counterpart; the model lets the environment deliver peripheral callbacks at any time.
- The callback arguments the code ignores (`advertisementData`, `rssi`, the error of service and characteristic discovery) are not parameters of the model; the disconnect error is a parameter and is ignored, as in the code.
- Peripheral names are fixed at discovery; CoreBluetooth may update a peripheral's name later.
- UUIDs are compared as canonical lower-case strings, not as `CBUUID` byte values.
- `MockBLEManager` (lines 174-238) is preview scaffolding driven by timed delays and is not part of this model; nor is the `BLEManagerProtocol` interface beyond the operations it lists.
- `ContentView.swift` (the SwiftUI view; its `batteryVoltage` reading refers to a property that does not exist in the controller) and `LEDControlApp.swift` (app start-up) are not part of this model; there is no battery logic to model.
- `esp32/stepper_test/stepper_test.cpp` is hardware I/O in a fixed loop and is not part of this model.
