/** Messages, ports and the button coder: the values that travel between the
    netplay clients. The protocol-buffer definitions are not part of the
    repository, so only the fields that the client code touches appear here. */
module NetplayTypes {

  datatype Option<+T> = None | Some(value: T)

  /** The controller ports. `Unknown` and `PortAny` are the two enumerators that
      stand for no particular port. */
  datatype Port = Unknown | PortAny | Port1 | Port2 | Port3 | Port4

  /** The digital fields of a controller: flags in a message, numbers in an emulator.
      They are grouped here; the originals are flat. */
  datatype Cross<T> = Cross(right: T, left: T, down: T, up: T)
  datatype Face<T> = Face(start: T, z: T, b: T, a: T)
  datatype Others<T> = Others(leftTrigger: T, rightTrigger: T, reserved1: T, reserved2: T)

  /** The part of a KeyStatePB that a coder reads and writes. */
  datatype Pad = Pad(
    dPad: Cross<bool>, cButtons: Cross<bool>, face: Face<bool>, others: Others<bool>, xAxis: int, yAxis: int)

  /** KeyStatePB: the buttons of one port for one (delay-adjusted) frame. */
  datatype KeyState = KeyState(consoleId: int, port: Port, frame: int, pad: Pad)

  /** StartGamePB::ConnectedPortPB. */
  datatype ConnectedPort = ConnectedPort(port: Port, delayFrames: int)

  datatype StartGame = StartGame(consoleId: int, connectedPorts: seq<ConnectedPort>)

  /** IncomingEventPB. Nothing stops a server from filling several fields at once. */
  datatype IncomingEvent = IncomingEvent(
    stopConsole: bool, startGame: Option<StartGame>, invalidData: bool, keyPresses: seq<KeyState>)

  /** What one `stream_->Read` answers: an event, or `None` when it returns false. */
  type Read = Option<IncomingEvent>

  /** One `stream_->Write` of key presses and the answer it got. A write that
      returned false may or may not have reached the server. */
  datatype Write = Write(keys: seq<KeyState>, succeeded: bool)

  /** ButtonCoderInterface: `None` is the `false` return. */
  datatype Coder<!B> = Coder(encode: B -> Option<Pad>, decode: Pad -> Option<B>) {
    function Encode(b: B): Option<Pad> {
      encode(b)
    }

    function Decode(pad: Pad): Option<B> {
      decode(pad)
    }
  }

  /** Decoding undoes encoding. */
  ghost predicate RoundTrips<B(!new)>(coder: Coder<B>) {
    forall b: B :: coder.Encode(b).Some? ==> coder.Decode(coder.Encode(b).value) == Some(b)
  }

  /** Buttons for one port and one frame, as a caller hands them to `PutButtons`. */
  datatype ButtonsFrame<B> = ButtonsFrame(port: Port, frame: int, buttons: B)
}
