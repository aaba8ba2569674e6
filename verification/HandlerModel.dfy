/** The event stream handler as functions on values: what each of its methods does
    to the queues, to the incoming stream and to the outgoing one. The class
    EventStreamHandler is proved against these functions, and the results about
    runs and about systems of clients are proved for them. */
module HandlerModel {
  import opened NetplayTypes
  import opened DelayLine

  type Queues<B> = map<Port, QueueState<B>>

  /** What a handler is constructed with and never changes. */
  datatype Setup<!B> = Setup(consoleId: int, localPorts: set<Port>, coder: Coder<B>, blank: B)

  /** `incoming` is what the reads to come will answer, `outgoing` what was written. */
  datatype Handler<B> = Handler(queues: Queues<B>, incoming: seq<Read>, outgoing: seq<Write>)

  // ---------------------------------------------------------------------------
  // Starting

  function PortSet(ports: seq<ConnectedPort>): set<Port> {
    set i | 0 <= i < |ports| :: ports[i].port
  }

  /** What `InitializeQueues` is there to check. */
  predicate WellFormed(localPorts: set<Port>, ports: seq<ConnectedPort>) {
    && |ports| <= 4
    && (forall i | 0 <= i < |ports| :: ports[i].port != PortAny)
    && (forall i, j | 0 <= i < j < |ports| :: ports[i].port != ports[j].port)
    && localPorts <= PortSet(ports)
  }

  function NewQueue<B>(localPorts: set<Port>, port: ConnectedPort): QueueState<B> {
    EmptyQueue(if port.port in localPorts then port.delayFrames else 0, port.delayFrames)
  }

  /** `emplace`: a queue that is already there stays. */
  function Emplace<B>(localPorts: set<Port>, queues: Queues<B>, port: ConnectedPort): Queues<B> {
    if port.port in queues then queues else queues[port.port := NewQueue(localPorts, port)]
  }

  function Connect<B>(localPorts: set<Port>, queues: Queues<B>, ports: seq<ConnectedPort>): Queues<B>
    decreases |ports|
  {
    if ports == [] then queues
    else Connect(localPorts, Emplace(localPorts, queues, ports[0]), ports[1..])
  }

  datatype StartOutcome<B> = StartOutcome(state: Handler<B>, ok: bool)

  /** A refused configuration empties the queues; every earlier failure leaves them. */
  function WaitForConsoleStart<B>(su: Setup<B>, h: Handler<B>): StartOutcome<B> {
    if h.incoming == [] then StartOutcome(h, false)
    else
      var h1 := h.(incoming := h.incoming[1..]);
      match h.incoming[0]
      case None => StartOutcome(h1, false)
      case Some(event) =>
        if event.stopConsole || event.startGame.None? then StartOutcome(h1, false)
        else
          var start := event.startGame.value;
          if start.consoleId <= 0 || start.consoleId != su.consoleId then StartOutcome(h1, false)
          else if WellFormed(su.localPorts, start.connectedPorts)
          then StartOutcome(h1.(queues := Connect(su.localPorts, h.queues, start.connectedPorts)), true)
          else StartOutcome(h1.(queues := map[]), false)
  }

  // ---------------------------------------------------------------------------
  // Putting

  datatype PutStatus =
    | PutSuccess
    | NoSuchPort
    | RejectedByQueue
    | FailedToTransmitRemote
    | FailedToEncode
    | InternalError

  /** `keys` is the outgoing event, which only a successful pass transmits;
      `queued` counts the tuples that entered their queue. */
  datatype PutPass<B> = PutPass(queues: Queues<B>, keys: seq<KeyState>, queued: nat, status: PutStatus)

  function InsertInto<B>(queues: Queues<B>, t: ButtonsFrame<B>): Queues<B> {
    if t.port in queues then queues[t.port := Insert(queues[t.port], t.frame, t.buttons)] else queues
  }

  /** DelayFramesForPort: -1 for a disconnected port. */
  function DelayFrames<B>(queues: Queues<B>, port: Port): int {
    if port in queues then queues[port].delay else -1
  }

  /** One turn of the loop in PutButtons; `queued` is 0 or 1. */
  function PutTuple<B>(su: Setup<B>, queues: Queues<B>, t: ButtonsFrame<B>): (pass: PutPass<B>)
    ensures pass.queues.Keys == queues.Keys
  {
    if t.port !in queues then PutPass(queues, [], 0, NoSuchPort)
    else if !Accepts(queues[t.port], t.frame) then PutPass(queues, [], 0, RejectedByQueue)
    else
      var queues1 := InsertInto(queues, t);
      var delay := DelayFrames(queues1, t.port);
      if t.port !in su.localPorts then PutPass(queues1, [], 1, PutSuccess)
      else if delay < 0 then PutPass(queues1, [], 1, InternalError)
      else match su.coder.Encode(t.buttons)
        case None => PutPass(queues1, [], 1, FailedToEncode)
        case Some(pad) => PutPass(queues1, [KeyState(su.consoleId, t.port, t.frame + delay, pad)], 1, PutSuccess)
  }

  function PutTuples<B>(su: Setup<B>, queues: Queues<B>, tuples: seq<ButtonsFrame<B>>): (pass: PutPass<B>)
    ensures pass.queues.Keys == queues.Keys
    ensures pass.queued <= |tuples|
    decreases |tuples|
  {
    if tuples == [] then PutPass(queues, [], 0, PutSuccess)
    else
      var one := PutTuple(su, queues, tuples[0]);
      if one.status != PutSuccess then one
      else
        var rest := PutTuples(su, one.queues, tuples[1..]);
        PutPass(rest.queues, one.keys + rest.keys, 1 + rest.queued, rest.status)
  }

  datatype PutOutcome<B> = PutOutcome(state: Handler<B>, status: PutStatus)

  /** `writeSucceeds` is what the stream answers if there is something to write. */
  function PutButtons<B>(su: Setup<B>, h: Handler<B>, tuples: seq<ButtonsFrame<B>>, writeSucceeds: bool): PutOutcome<B> {
    var pass := PutTuples(su, h.queues, tuples);
    var h1 := h.(queues := pass.queues);
    if pass.status != PutSuccess then PutOutcome(h1, pass.status)
    else if pass.keys == [] then PutOutcome(h1, PutSuccess)
    else PutOutcome(h1.(outgoing := h.outgoing + [Write(pass.keys, writeSucceeds)]),
                    if writeSucceeds then PutSuccess else FailedToTransmitRemote)
  }

  // ---------------------------------------------------------------------------
  // Getting

  datatype ReadStatus =
    | GotButtons
    | RpcReadFailure
    | NonButtonMessage
    | InvalidButtonsMessage
    | ReadRejectedByQueue
    | ConsoleTerminated

  /** The queues after some key presses, and what stopped them, if anything did. */
  datatype KeyPass<B> = KeyPass(queues: Queues<B>, error: Option<ReadStatus>)

  function ApplyKey<B>(su: Setup<B>, queues: Queues<B>, key: KeyState): (pass: KeyPass<B>)
    ensures pass.queues.Keys == queues.Keys
  {
    if key.port !in queues then KeyPass(queues, Some(InvalidButtonsMessage))
    else match su.coder.Decode(key.pad)
      case None => KeyPass(queues, Some(InvalidButtonsMessage))
      case Some(b) =>
        if !Accepts(queues[key.port], key.frame) then KeyPass(queues, Some(ReadRejectedByQueue))
        else KeyPass(queues[key.port := Insert(queues[key.port], key.frame, b)], None)
  }

  function ApplyKeys<B>(su: Setup<B>, queues: Queues<B>, keys: seq<KeyState>): (pass: KeyPass<B>)
    ensures pass.queues.Keys == queues.Keys
    decreases |keys|
  {
    if keys == [] then KeyPass(queues, None)
    else
      var one := ApplyKey(su, queues, keys[0]);
      if one.error.Some? then one else ApplyKeys(su, one.queues, keys[1..])
  }

  predicate HasKey(keys: seq<KeyState>, port: Port, frame: int) {
    exists i | 0 <= i < |keys| :: keys[i].port == port && keys[i].frame == frame
  }

  datatype ReadOutcome<B> = ReadOutcome(queues: Queues<B>, incoming: seq<Read>, status: ReadStatus)

  function ReadUntilButtons<B>(su: Setup<B>, queues: Queues<B>, incoming: seq<Read>, port: Port, frame: int)
    : (read: ReadOutcome<B>)
    ensures read.queues.Keys == queues.Keys
    decreases |incoming|
  {
    if incoming == [] then ReadOutcome(queues, [], RpcReadFailure)
    else match incoming[0]
      case None => ReadOutcome(queues, incoming[1..], RpcReadFailure)
      case Some(event) =>
        if event.stopConsole then ReadOutcome(queues, incoming[1..], ConsoleTerminated)
        else if event.startGame.Some? || event.invalidData then ReadOutcome(queues, incoming[1..], NonButtonMessage)
        else
          var pass := ApplyKeys(su, queues, event.keyPresses);
          if pass.error.Some? then ReadOutcome(pass.queues, incoming[1..], pass.error.value)
          else if HasKey(event.keyPresses, port, frame) then ReadOutcome(pass.queues, incoming[1..], GotButtons)
          else ReadUntilButtons(su, pass.queues, incoming[1..], port, frame)
  }

  datatype GetStatus<B> = GetSuccess(buttons: B) | GetNoSuchPort | GetFailure
  datatype GetOutcome<B> = GetOutcome(state: Handler<B>, status: GetStatus<B>)

  /** One get from the queue of a connected port. */
  function GetNow<B>(su: Setup<B>, h: Handler<B>, port: Port, frame: int): GetOutcome<B>
    requires port in h.queues
  {
    GetOutcome(h.(queues := h.queues[port := AfterGet(h.queues[port], frame)]),
               match Answer(h.queues[port], frame, su.blank)
               case Success(b) => GetSuccess(b)
               case _ => GetFailure)
  }

  function GetRemoteButtons<B>(su: Setup<B>, h: Handler<B>, port: Port, frame: int): GetOutcome<B>
    requires port in h.queues
  {
    if Answer(h.queues[port], frame, su.blank) != Timeout then GetNow(su, h, port, frame)
    else
      var read := ReadUntilButtons(su, h.queues, h.incoming, port, frame);
      var h1 := h.(queues := read.queues, incoming := read.incoming);
      if read.status != GotButtons then GetOutcome(h1, GetFailure)
      else GetNow(su, h1, port, frame)
  }

  function GetButtons<B>(su: Setup<B>, h: Handler<B>, port: Port, frame: int): GetOutcome<B> {
    if port !in h.queues then GetOutcome(h, GetNoSuchPort)
    else if port in su.localPorts then GetNow(su, h, port, frame)
    else GetRemoteButtons(su, h, port, frame)
  }

  function RemotePorts<B>(su: Setup<B>, h: Handler<B>): set<Port> {
    h.queues.Keys - su.localPorts
  }
}
