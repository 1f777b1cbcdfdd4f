/**
 * The controller's user-visible status message. Every message the controller
 * can show is a constructor; the interpolated name or error text is its
 * argument. `Text` renders a status as the exact string the app displays.
 */
module StatusMessages {
  import opened Bluetooth

  datatype Status =
    | ReadyToScan
    | BluetoothNotAvailable
    | ScanningForDevice
    | NoDevicesFound
    | ScanComplete
    | Connecting(name: string)
    | NotConnectedToDevice
    | LedTurned(on: bool)
    | BluetoothReady
    | BluetoothPoweredOff
    | BluetoothPermissionDenied
    | BluetoothNotSupported
    | BluetoothUnavailable
    | Found(name: string)
    | ConnectedTo(name: string)
    | Disconnected
    | FailedToConnect(reason: string)
    | ReadyToControlLed
    | WriteError(reason: string)

  /** The displayed string of a status; never empty. */
  function Text(s: Status): (t: string)
    ensures |t| > 0
  {
    match s
    case ReadyToScan => "Ready to scan"
    case BluetoothNotAvailable => "Bluetooth is not available"
    case ScanningForDevice => "Scanning for ESP32-LED..."
    case NoDevicesFound => "No devices found"
    case ScanComplete => "Scan complete"
    case Connecting(n) => "Connecting to " + n + "..."
    case NotConnectedToDevice => "Not connected to device"
    case LedTurned(on) => "LED turned " + (if on then "ON" else "OFF")
    case BluetoothReady => "Bluetooth is ready"
    case BluetoothPoweredOff => "Bluetooth is powered off"
    case BluetoothPermissionDenied => "Bluetooth permission denied"
    case BluetoothNotSupported => "Bluetooth not supported"
    case BluetoothUnavailable => "Bluetooth unavailable"
    case Found(n) => "Found " + n
    case ConnectedTo(n) => "Connected to " + n
    case Disconnected => "Disconnected"
    case FailedToConnect(m) => "Failed to connect: " + m
    case ReadyToControlLed => "Ready to control LED"
    case WriteError(m) => "Write error: " + m
  }

  /** The statuses a radio-state change can produce. */
  predicate IsRadioStatus(s: Status)
  {
    s.BluetoothReady? || s.BluetoothPoweredOff? || s.BluetoothPermissionDenied?
    || s.BluetoothNotSupported? || s.BluetoothUnavailable?
  }

  /**
   * The status shown after the radio reports a new state. It announces
   * readiness exactly when the radio is powered on, i.e. exactly when a
   * scan may start.
   */
  function RadioStatus(state: RadioState): (s: Status)
    ensures IsRadioStatus(s)
    ensures s == BluetoothReady <==> state == PoweredOn
  {
    match state
    case PoweredOn => BluetoothReady
    case PoweredOff => BluetoothPoweredOff
    case Unauthorized => BluetoothPermissionDenied
    case Unsupported => BluetoothNotSupported
    case Other => BluetoothUnavailable
  }

  /** Distinct radio states give distinct messages. */
  lemma RadioStatusInjective(a: RadioState, b: RadioState)
    requires RadioStatus(a) == RadioStatus(b)
    ensures a == b
  {
  }

  /** The character at position `i` of `t`, or a space past its end. */
  function At(t: string, i: nat): char
  {
    if i < |t| then t[i] else ' '
  }

  /**
   * Reads a displayed message back into its status, telling the messages
   * apart by a few characters each. Only messages that `Text` produces are
   * read correctly.
   */
  ghost function Recover(t: string): Status
  {
    match At(t, 0)
    case 'R' => if At(t, 9) == 's' then ReadyToScan else ReadyToControlLed
    case 'B' =>
      (match At(t, 10)
       case 'p' => BluetoothPermissionDenied
       case 'n' => BluetoothNotSupported
       case 'u' => BluetoothUnavailable
       case _ =>
         (match At(t, 13)
          case 'n' => BluetoothNotAvailable
          case 'r' => BluetoothReady
          case _ => BluetoothPoweredOff))
    case 'S' => if At(t, 4) == 'n' then ScanningForDevice else ScanComplete
    case 'N' => if At(t, 2) == 't' then NotConnectedToDevice else NoDevicesFound
    case 'C' =>
      if At(t, 7) == 'i' && 17 <= |t| then Connecting(t[14..|t| - 3])
      else if 13 <= |t| then ConnectedTo(t[13..]) else Disconnected
    case 'L' => LedTurned(At(t, 12) == 'N')
    case 'F' =>
      if At(t, 1) == 'o' && 6 <= |t| then Found(t[6..])
      else if 19 <= |t| then FailedToConnect(t[19..]) else Disconnected
    case 'D' => Disconnected
    case _ => if 13 <= |t| then WriteError(t[13..]) else Disconnected
  }

  /** The messages that interpolate nothing. */
  predicate IsFixed(s: Status)
  {
    !(s.Connecting? || s.Found? || s.ConnectedTo? || s.FailedToConnect? || s.WriteError? || s.LedTurned?)
  }

  /** The fixed messages whose first letter is shared with another message. */
  lemma RecoverSharedInitial(s: Status)
    requires IsFixed(s) && At(Text(s), 0) in {'R', 'S', 'N'}
    ensures Recover(Text(s)) == s
  {
  }

  /** The "Bluetooth ..." and "Disconnected" messages. */
  lemma RecoverBluetooth(s: Status)
    requires IsFixed(s) && At(Text(s), 0) in {'B', 'D'}
    ensures Recover(Text(s)) == s
  {
  }

  /** Every displayed message can be read back into the status that produced it. */
  lemma {:induction false} RecoverText(s: Status)
    ensures Recover(Text(s)) == s
  {
    var t := Text(s);
    match s
    case Connecting(n) =>
      assert t[0] == 'C' && t[7] == 'i';
      assert t[14..|t| - 3] == n;
    case Found(n) =>
      assert t[0] == 'F' && t[1] == 'o';
      assert t[6..] == n;
    case ConnectedTo(n) =>
      assert t[0] == 'C' && t[7] == 'e';
      assert t[13..] == n;
    case FailedToConnect(n) =>
      assert t[0] == 'F' && t[1] == 'a';
      assert t[19..] == n;
    case WriteError(n) =>
      assert t[0] == 'W';
      assert t[13..] == n;
    case LedTurned(on) =>
      assert t[0] == 'L' && t[12] == (if on then 'N' else 'F');
    case ReadyToScan => RecoverSharedInitial(s);
    case ReadyToControlLed => RecoverSharedInitial(s);
    case ScanningForDevice => RecoverSharedInitial(s);
    case ScanComplete => RecoverSharedInitial(s);
    case NoDevicesFound => RecoverSharedInitial(s);
    case NotConnectedToDevice => RecoverSharedInitial(s);
    case _ => RecoverBluetooth(s);
  }

  /**
   * No two statuses display the same string: modelling the messages as
   * constructors loses nothing a user could see.
   */
  lemma TextInjective(a: Status, b: Status)
    requires Text(a) == Text(b)
    ensures a == b
  {
    RecoverText(a);
    RecoverText(b);
  }
}
