/**
 * The values the controller receives from, and hands to, the platform's
 * Bluetooth Low Energy stack. Framework objects (peripherals, services,
 * characteristics) are modelled as immutable values carrying their identity;
 * every call the controller makes into the framework is an `Effect`.
 */
module Bluetooth {
  import opened Wrappers

  /** A 128-bit BLE UUID, written in its canonical lower-case text form. */
  type Uuid = string

  /** The advertised service of the ESP32 LED controller. */
  const ServiceUuid: Uuid := "4fafc201-1fb5-459e-8fcc-c5c9c331914b"
  /** The one-byte LED control characteristic of that service. */
  const CharacteristicUuid: Uuid := "beb5483e-36e1-4688-b7f5-ea07361b26a8"

  /** Seconds after `startScanning` at which the automatic stop is scheduled. */
  const ScanTimeoutSeconds: nat := 10

  /** Swift's `UInt8`. */
  newtype UInt8 = x: int | 0 <= x < 0x100

  /** The platform's identity token for a peripheral (its `identifier`). */
  type PeripheralId = Uuid

  /** A discovered peripheral: identity plus the advertised name, if any. */
  datatype Peripheral = Peripheral(id: PeripheralId, name: Option<string>)

  /** A service object of a peripheral; `handle` tells apart two objects with the same UUID. */
  datatype Service = Service(uuid: Uuid, handle: nat)

  /** A characteristic object; `handle` tells apart two objects with the same UUID. */
  datatype Characteristic = Characteristic(uuid: Uuid, handle: nat)

  /** The radio state the central manager reports. `Other` covers "unknown" and "resetting". */
  datatype RadioState = PoweredOn | PoweredOff | Unauthorized | Unsupported | Other

  /** One call from the controller into the platform (or its dispatch queue). */
  datatype Effect =
    | CentralManagerCreated
    | ScanStarted(services: seq<Uuid>)
    | StopScanScheduled(afterSeconds: nat)
    | ScanStopped
    | ConnectRequested(peripheral: PeripheralId)
    | CancelRequested(peripheral: PeripheralId)
    | DiscoverServices(peripheral: PeripheralId, services: seq<Uuid>)
    | DiscoverCharacteristics(peripheral: PeripheralId, characteristics: seq<Uuid>, service: Service)
    | Wrote(peripheral: PeripheralId, characteristic: Characteristic, data: seq<UInt8>, withResponse: bool)

  /** The one-byte LED command: 1 turns the LED on, 0 turns it off. */
  function LedPayload(on: bool): (data: seq<UInt8>)
    ensures |data| == 1
    ensures data[0] == 1 <==> on
    ensures data[0] == 0 <==> !on
  {
    [if on then 1 else 0]
  }

  /** Swift's `name ?? fallback`. */
  function NameOr(name: Option<string>, fallback: string): (r: string)
    ensures name.Some? ==> r == name.value
    ensures name.None? ==> r == fallback
  {
    match name
    case Some(n) => n
    case None => fallback
  }
}
