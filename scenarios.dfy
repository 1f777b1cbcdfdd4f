/**
 * Clients of the controller. Each method drives a fresh controller through a
 * sequence of intents and callbacks and asserts what the contracts alone
 * guarantee at the end.
 */
module Scenarios {
  import opened Wrappers
  import opened Bluetooth
  import opened StatusMessages
  import opened LEDControl

  /** A scan with the radio on that finds nothing ends, when the timer fires, in "No devices found". */
  method ScanTimesOutEmpty()
  {
    var m := new BLEManager();
    m.DidUpdateState(PoweredOn);
    m.StartScanning();
    assert m.isScanning && m.effects == [CentralManagerCreated, ScanStarted([ServiceUuid]), StopScanScheduled(10)];
    m.StopScanning();
    assert !m.isScanning && m.statusMessage == NoDevicesFound;
    assert Text(m.statusMessage) == "No devices found";
  }

  /** Scanning is refused, and nothing but the status changes, while the radio is off. */
  method ScanRefusedWhenPoweredOff(p: Peripheral)
  {
    var m := new BLEManager();
    m.DidUpdateState(PoweredOff);
    m.DidDiscover(p);
    m.StartScanning();
    assert m.statusMessage == BluetoothNotAvailable && !m.isScanning;
    assert m.discoveredPeripherals == [p] && m.effects == [CentralManagerCreated];
  }

  /** Rediscovering a listed peripheral, even under another name, adds nothing. */
  method RepeatDiscovery(id: PeripheralId)
  {
    var m := new BLEManager();
    m.DidDiscover(Peripheral(id, Some("ESP32-LED")));
    assert m.statusMessage == Found("ESP32-LED");
    m.StopScanning();
    m.DidDiscover(Peripheral(id, None));
    assert m.discoveredPeripherals == [Peripheral(id, Some("ESP32-LED"))];
    assert m.statusMessage == ScanComplete;
  }

  /**
   * Connect, then discover the LED service and characteristic: service
   * discovery is restricted to the LED service, characteristic discovery
   * to the LED characteristic, and the controller ends ready.
   */
  method ConnectAndDiscover(p: Peripheral)
  {
    var m := new BLEManager();
    m.Connect(p);
    m.DidConnect(p);
    assert m.effects == [CentralManagerCreated, ScanStopped, ConnectRequested(p.id), DiscoverServices(p.id, [ServiceUuid])];
    var service := Service(ServiceUuid, 0);
    m.DidDiscoverServices(p, Some([service]));
    assert DiscoverCharacteristics(p.id, [CharacteristicUuid], service) in m.effects;
    var led := Characteristic(CharacteristicUuid, 1);
    m.DidDiscoverCharacteristics(p, service, Some([led]));
    assert m.statusMessage == ReadyToControlLed && m.ledCharacteristic == Some(led);
    assert Text(m.statusMessage) == "Ready to control LED";
  }

  /**
   * Switching the LED on sends the byte 1 and sets `ledState` before any
   * acknowledgment; a failed acknowledgment does not switch it back; a
   * disconnect does, and after it the LED can no longer be switched.
   */
  method SwitchThenDisconnect(p: Peripheral)
  {
    var m := new BLEManager();
    m.Connect(p);
    m.DidConnect(p);
    var led := Characteristic(CharacteristicUuid, 1);
    m.DidDiscoverCharacteristics(p, Service(ServiceUuid, 0), Some([led]));
    var before := m.effects;
    m.SetLEDState(true);
    assert m.effects == before + [Wrote(p.id, led, [1], true)];
    assert m.ledState && m.statusMessage == LedTurned(true);
    m.DidWriteValue(p, led, Some("timeout"));
    assert m.ledState && m.statusMessage == WriteError("timeout");
    m.Disconnect();
    assert m.effects[|m.effects| - 1] == CancelRequested(p.id);
    assert m.ledState;
    m.DidDisconnect(p, None);
    assert !m.isConnected && !m.ledState && m.ledCharacteristic == None;
    m.SetLEDState(true);
    assert !m.ledState && m.statusMessage == NotConnectedToDevice;
  }

  /**
   * A failed second connection attempt drops the candidate but leaves the
   * first connection flagged as up and its characteristic stored; the LED
   * can then no longer be switched.
   */
  method FailedSecondConnect(p: Peripheral, q: Peripheral)
  {
    var m := new BLEManager();
    m.Connect(p);
    m.DidConnect(p);
    var led := Characteristic(CharacteristicUuid, 0);
    m.DidDiscoverCharacteristics(p, Service(ServiceUuid, 1), Some([led]));
    m.Connect(q);
    m.DidFailToConnect(q, None);
    assert m.statusMessage == FailedToConnect("Unknown error");
    assert m.isConnected && m.ledCharacteristic == Some(led) && m.connectedPeripheral == None;
    m.SetLEDState(true);
    assert m.statusMessage == NotConnectedToDevice && !m.ledState;
  }

  /**
   * Characteristic discovery does not check the connection flag. When the
   * first of two connected peripherals disconnects, the connection flag is
   * cleared, and the second one's characteristics arriving afterwards are
   * stored without a connection.
   */
  method StaleCharacteristic(p: Peripheral, q: Peripheral)
  {
    var m := new BLEManager();
    m.Connect(p);
    m.DidConnect(p);
    m.Connect(q);
    m.DidConnect(q);
    m.DidDisconnect(p, None);
    var led := Characteristic(CharacteristicUuid, 0);
    m.DidDiscoverCharacteristics(q, Service(ServiceUuid, 1), Some([led]));
    assert !m.isConnected && m.ledCharacteristic == Some(led);
    assert !m.Coherent();
  }

  /**
   * Characteristic discovery does not check the connection flag, so a
   * callback delivered while disconnected stores a characteristic without a
   * connection.
   */
  method CharacteristicWithoutConnection(p: Peripheral)
  {
    var m := new BLEManager();
    m.DidDiscoverCharacteristics(p, Service(ServiceUuid, 0), Some([Characteristic(CharacteristicUuid, 1)]));
    assert m.ledCharacteristic.Some? && !m.isConnected;
    assert !m.Coherent();
  }
}
