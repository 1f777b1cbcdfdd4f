/**
 * The BLE connection controller of the LED-control app: a class whose fields
 * are the app's observable state plus the active connection context, whose
 * methods are the user intents and the platform's delegate callbacks, and
 * which records every framework call it makes in an append-only effect log.
 * The environment may invoke the callbacks in any order.
 */
module LEDControl {
  import opened Wrappers
  import opened Bluetooth
  import opened StatusMessages

  /** Some entry of `ps` carries identifier `id`. */
  function HasId(ps: seq<Peripheral>, id: PeripheralId): (r: bool)
    ensures r <==> exists i :: 0 <= i < |ps| && ps[i].id == id
  {
    if ps == [] then false else ps[0].id == id || HasId(ps[1..], id)
  }

  /** No two entries of `ps` share an identifier. */
  predicate IdsDistinct(ps: seq<Peripheral>)
  {
    forall i, j :: 0 <= i < j < |ps| ==> ps[i].id != ps[j].id
  }

  /**
   * The characteristic-discovery requests issued for the services `ss` of
   * peripheral `p`, in order: exactly one for each occurrence of a service
   * with the LED service UUID, each restricted to the LED characteristic UUID.
   */
  function CharacteristicDiscoveries(p: PeripheralId, ss: seq<Service>): (r: seq<Effect>)
    ensures |r| <= |ss|
    ensures forall e :: e in r ==>
      e.DiscoverCharacteristics? && e.peripheral == p && e.characteristics == [CharacteristicUuid]
      && e.service in ss && e.service.uuid == ServiceUuid
    ensures forall s :: s in ss && s.uuid == ServiceUuid ==>
      DiscoverCharacteristics(p, [CharacteristicUuid], s) in r
  {
    if ss == [] then []
    else
      var s := ss[|ss| - 1];
      assert ss == ss[..|ss| - 1] + [s];
      CharacteristicDiscoveries(p, ss[..|ss| - 1])
      + (if s.uuid == ServiceUuid then [DiscoverCharacteristics(p, [CharacteristicUuid], s)] else [])
  }

  /**
   * Each occurrence of an LED service in `ss` yields exactly one request for
   * it: the request appears as often as the service does.
   */
  lemma {:induction false} CharacteristicDiscoveriesCount(p: PeripheralId, ss: seq<Service>, s: Service)
    requires s.uuid == ServiceUuid
    ensures multiset(CharacteristicDiscoveries(p, ss))[DiscoverCharacteristics(p, [CharacteristicUuid], s)]
      == multiset(ss)[s]
  {
    if ss != [] {
      var prefix := ss[..|ss| - 1];
      assert ss == prefix + [ss[|ss| - 1]];
      CharacteristicDiscoveriesCount(p, prefix, s);
    }
  }

  /** One more service visited by the discovery loop. */
  lemma CharacteristicDiscoveriesStep(p: PeripheralId, ss: seq<Service>, i: nat)
    requires i < |ss|
    ensures CharacteristicDiscoveries(p, ss[..i + 1]) == CharacteristicDiscoveries(p, ss[..i])
      + (if ss[i].uuid == ServiceUuid then [DiscoverCharacteristics(p, [CharacteristicUuid], ss[i])] else [])
  {
    assert ss[..i + 1][..i] == ss[..i];
  }

  /**
   * The characteristic the discovery loop leaves stored after visiting `cs`:
   * the last one carrying the LED characteristic UUID, if there is one.
   */
  function LastLedCharacteristic(cs: seq<Characteristic>): (r: Option<Characteristic>)
    ensures r.None? <==> forall i :: 0 <= i < |cs| ==> cs[i].uuid != CharacteristicUuid
    ensures r.Some? ==> exists i :: (0 <= i < |cs| && cs[i] == r.value && r.value.uuid == CharacteristicUuid
      && forall j :: i < j < |cs| ==> cs[j].uuid != CharacteristicUuid)
  {
    if cs == [] then None
    else if cs[|cs| - 1].uuid == CharacteristicUuid then Some(cs[|cs| - 1])
    else LastLedCharacteristic(cs[..|cs| - 1])
  }

  class BLEManager {
    // Observable state
    var isScanning: bool
    var isConnected: bool
    var discoveredPeripherals: seq<Peripheral>
    var statusMessage: Status
    var ledState: bool
    // Connection context
    var connectedPeripheral: Option<Peripheral>
    var ledCharacteristic: Option<Characteristic>
    // The radio state last reported by the central manager
    var radio: RadioState
    // Every call made into the platform, oldest first
    var effects: seq<Effect>

    /** The object invariant: the discovered list is deduplicated by identifier. */
    ghost predicate Valid()
      reads this
    {
      IdsDistinct(discoveredPeripherals)
    }

    /** A characteristic is stored only while a connection is up. */
    ghost predicate Coherent()
      reads this
    {
      ledCharacteristic.Some? ==> isConnected
    }

    /**
     * A new controller. It creates its central manager, with itself as the
     * delegate, which starts in an unknown radio state.
     */
    constructor ()
      ensures Valid() && Coherent()
      ensures !isScanning && !isConnected && discoveredPeripherals == []
      ensures statusMessage == ReadyToScan && !ledState
      ensures connectedPeripheral == None && ledCharacteristic == None
      ensures radio == Other && effects == [CentralManagerCreated]
    {
      isScanning := false;
      isConnected := false;
      discoveredPeripherals := [];
      statusMessage := ReadyToScan;
      ledState := false;
      connectedPeripheral := None;
      ledCharacteristic := None;
      radio := Other;
      effects := [CentralManagerCreated];
    }

    /**
     * User intent: scan for the LED service. Refused, with a status, unless
     * the radio is powered on; the automatic stop is scheduled on the
     * dispatch queue.
     */
    method StartScanning()
      requires Valid()
      modifies this`discoveredPeripherals, this`isScanning, this`statusMessage, this`effects
      ensures Valid()
      ensures radio != PoweredOn ==>
        statusMessage == BluetoothNotAvailable && discoveredPeripherals == old(discoveredPeripherals)
        && isScanning == old(isScanning) && effects == old(effects)
      ensures radio == PoweredOn ==>
        discoveredPeripherals == [] && isScanning && statusMessage == ScanningForDevice
        && effects == old(effects) + [ScanStarted([ServiceUuid]), StopScanScheduled(ScanTimeoutSeconds)]
    {
      if radio != PoweredOn {
        statusMessage := BluetoothNotAvailable;
        return;
      }
      discoveredPeripherals := [];
      isScanning := true;
      statusMessage := ScanningForDevice;
      effects := effects + [ScanStarted([ServiceUuid])];
      effects := effects + [StopScanScheduled(ScanTimeoutSeconds)];
    }

    /**
     * User intent, also run when the scan timer fires: stop scanning. While
     * not connected the status reports whether anything was found.
     */
    method StopScanning()
      requires Valid()
      modifies this`isScanning, this`statusMessage, this`effects
      ensures Valid()
      ensures !isScanning && effects == old(effects) + [ScanStopped]
      ensures isConnected ==> statusMessage == old(statusMessage)
      ensures !isConnected && discoveredPeripherals == [] ==> statusMessage == NoDevicesFound
      ensures !isConnected && discoveredPeripherals != [] ==> statusMessage == ScanComplete
    {
      isScanning := false;
      effects := effects + [ScanStopped];
      if !isConnected {
        statusMessage := if discoveredPeripherals == [] then NoDevicesFound else ScanComplete;
      }
    }

    /** User intent: stop scanning and ask the platform to connect to `p`. */
    method Connect(p: Peripheral)
      requires Valid()
      modifies this`isScanning, this`statusMessage, this`effects, this`connectedPeripheral
      ensures Valid()
      ensures !isScanning && connectedPeripheral == Some(p)
      ensures statusMessage == Connecting(NameOr(p.name, "device"))
      ensures effects == old(effects) + [ScanStopped, ConnectRequested(p.id)]
    {
      StopScanning();
      connectedPeripheral := Some(p);
      statusMessage := Connecting(NameOr(p.name, "device"));
      effects := effects + [ConnectRequested(p.id)];
    }

    /**
     * User intent: ask the platform to cancel the connection. Without a
     * connection candidate it does nothing; state is cleared only by the
     * disconnect callback.
     */
    method Disconnect()
      requires Valid()
      modifies this`effects
      ensures Valid()
      ensures connectedPeripheral.None? ==> effects == old(effects)
      ensures connectedPeripheral.Some? ==> effects == old(effects) + [CancelRequested(connectedPeripheral.value.id)]
    {
      if connectedPeripheral.None? {
        return;
      }
      effects := effects + [CancelRequested(connectedPeripheral.value.id)];
    }

    /**
     * User intent: switch the LED. Needs both a stored characteristic and a
     * connection candidate; writes one byte with response and updates
     * `ledState` without waiting for the acknowledgment.
     */
    method SetLEDState(state: bool)
      requires Valid()
      modifies this`ledState, this`statusMessage, this`effects
      ensures Valid()
      ensures ledCharacteristic.None? || connectedPeripheral.None? ==>
        statusMessage == NotConnectedToDevice && ledState == old(ledState) && effects == old(effects)
      ensures ledCharacteristic.Some? && connectedPeripheral.Some? ==>
        effects == old(effects) + [Wrote(connectedPeripheral.value.id, ledCharacteristic.value, LedPayload(state), true)]
        && ledState == state && statusMessage == LedTurned(state)
    {
      if ledCharacteristic.None? || connectedPeripheral.None? {
        statusMessage := NotConnectedToDevice;
        return;
      }
      var characteristic := ledCharacteristic.value;
      var peripheral := connectedPeripheral.value;
      effects := effects + [Wrote(peripheral.id, characteristic, LedPayload(state), true)];
      ledState := state;
      statusMessage := LedTurned(state);
    }

    /** Callback: the central manager reports a new radio state. */
    method DidUpdateState(state: RadioState)
      requires Valid()
      modifies this`radio, this`statusMessage
      ensures Valid()
      ensures radio == state && statusMessage == RadioStatus(state)
    {
      radio := state;
      statusMessage := RadioStatus(state);
    }

    /**
     * Callback: a scan found `p`. It is appended, and announced, only if no
     * listed entry has its identifier; a repeat discovery changes nothing.
     */
    method DidDiscover(p: Peripheral)
      requires Valid()
      modifies this`discoveredPeripherals, this`statusMessage
      ensures Valid()
      ensures HasId(discoveredPeripherals, p.id)
      ensures HasId(old(discoveredPeripherals), p.id) ==>
        discoveredPeripherals == old(discoveredPeripherals) && statusMessage == old(statusMessage)
      ensures !HasId(old(discoveredPeripherals), p.id) ==>
        discoveredPeripherals == old(discoveredPeripherals) + [p]
        && statusMessage == Found(NameOr(p.name, "Unknown"))
    {
      if !HasId(discoveredPeripherals, p.id) {
        discoveredPeripherals := discoveredPeripherals + [p];
        assert discoveredPeripherals[|discoveredPeripherals| - 1].id == p.id;
        statusMessage := Found(NameOr(p.name, "Unknown"));
      }
    }

    /** Callback: `p` connected; discover its LED service. */
    method DidConnect(p: Peripheral)
      requires Valid()
      modifies this`isConnected, this`statusMessage, this`effects
      ensures Valid() && Coherent()
      ensures isConnected && statusMessage == ConnectedTo(NameOr(p.name, "device"))
      ensures effects == old(effects) + [DiscoverServices(p.id, [ServiceUuid])]
    {
      isConnected := true;
      statusMessage := ConnectedTo(NameOr(p.name, "device"));
      effects := effects + [DiscoverServices(p.id, [ServiceUuid])];
    }

    /**
     * Callback: a peripheral disconnected. The connection context and the
     * LED state are reset whichever peripheral it was and whatever the error.
     */
    method DidDisconnect(p: Peripheral, error: Option<string>)
      requires Valid()
      modifies this`isConnected, this`ledCharacteristic, this`connectedPeripheral, this`ledState, this`statusMessage
      ensures Valid() && Coherent()
      ensures !isConnected && ledCharacteristic == None && connectedPeripheral == None
      ensures !ledState && statusMessage == Disconnected
    {
      isConnected := false;
      ledCharacteristic := None;
      connectedPeripheral := None;
      ledState := false;
      statusMessage := Disconnected;
    }

    /** Callback: a connection attempt failed; only the candidate is dropped. */
    method DidFailToConnect(p: Peripheral, error: Option<string>)
      requires Valid()
      modifies this`statusMessage, this`connectedPeripheral
      ensures Valid()
      ensures statusMessage == FailedToConnect(NameOr(error, "Unknown error"))
      ensures connectedPeripheral == None
    {
      statusMessage := FailedToConnect(NameOr(error, "Unknown error"));
      connectedPeripheral := None;
    }

    /**
     * Callback: the services of `p` were discovered (`services` is the
     * peripheral's service list, absent if the discovery produced none).
     * Asks for the LED characteristic of every LED service.
     */
    method DidDiscoverServices(p: Peripheral, services: Option<seq<Service>>)
      requires Valid()
      modifies this`effects
      ensures Valid()
      ensures services.None? ==> effects == old(effects)
      ensures services.Some? ==> effects == old(effects) + CharacteristicDiscoveries(p.id, services.value)
    {
      if services.None? {
        return;
      }
      var ss := services.value;
      var i := 0;
      while i < |ss|
        invariant 0 <= i <= |ss|
        invariant effects == old(effects) + CharacteristicDiscoveries(p.id, ss[..i])
      {
        CharacteristicDiscoveriesStep(p.id, ss, i);
        if ss[i].uuid == ServiceUuid {
          effects := effects + [DiscoverCharacteristics(p.id, [CharacteristicUuid], ss[i])];
        }
        i := i + 1;
      }
      assert ss[..|ss|] == ss;
    }

    /**
     * Callback: the characteristics of `service` were discovered. Each one
     * with the LED characteristic UUID is stored in turn, so the last such
     * one stays; any match sets the "ready" status.
     */
    method DidDiscoverCharacteristics(p: Peripheral, service: Service, characteristics: Option<seq<Characteristic>>)
      requires Valid()
      modifies this`ledCharacteristic, this`statusMessage
      ensures Valid()
      ensures characteristics.None? || LastLedCharacteristic(characteristics.value).None? ==>
        ledCharacteristic == old(ledCharacteristic) && statusMessage == old(statusMessage)
      ensures characteristics.Some? && LastLedCharacteristic(characteristics.value).Some? ==>
        ledCharacteristic == LastLedCharacteristic(characteristics.value) && statusMessage == ReadyToControlLed
      ensures !isConnected && characteristics.Some? && LastLedCharacteristic(characteristics.value).Some? ==>
        !Coherent()
    {
      if characteristics.None? {
        return;
      }
      var cs := characteristics.value;
      var i := 0;
      while i < |cs|
        invariant 0 <= i <= |cs|
        invariant LastLedCharacteristic(cs[..i]).None? ==>
          ledCharacteristic == old(ledCharacteristic) && statusMessage == old(statusMessage)
        invariant LastLedCharacteristic(cs[..i]).Some? ==>
          ledCharacteristic == LastLedCharacteristic(cs[..i]) && statusMessage == ReadyToControlLed
      {
        if cs[i].uuid == CharacteristicUuid {
          ledCharacteristic := Some(cs[i]);
          statusMessage := ReadyToControlLed;
        }
        assert cs[..i + 1][..i] == cs[..i];
        i := i + 1;
      }
      assert cs[..|cs|] == cs;
    }

    /**
     * Callback: the platform acknowledged a write. An error is shown; the
     * optimistic `ledState` is never rolled back.
     */
    method DidWriteValue(p: Peripheral, characteristic: Characteristic, error: Option<string>)
      requires Valid()
      modifies this`statusMessage
      ensures Valid()
      ensures error.Some? ==> statusMessage == WriteError(error.value)
      ensures error.None? ==> statusMessage == old(statusMessage)
    {
      if error.Some? {
        statusMessage := WriteError(error.value);
      }
    }
  }
}
