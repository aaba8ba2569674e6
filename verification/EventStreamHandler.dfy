/** The per-client protocol engine. The queues are objects that its methods update
    in place; `Model()` is the value they stand for. */
module EventStreamHandlers {
  import opened NetplayTypes
  import opened DelayLine
  import opened HandlerModel
  import opened InputQueues

  class EventStreamHandler<B> {
    const consoleId: int
    const clientId: int
    const localPorts: set<Port>
    const coder: Coder<B>
    const blank: B

    var inputQueues: map<Port, InputQueue<B>>
    /** The queue objects in the map. */
    ghost var repr: set<InputQueue<B>>
    /** What the coming reads of the stream answer. */
    var incoming: seq<Read>
    /** The writes made so far. */
    var outgoing: seq<Write>

    ghost predicate Valid()
      reads this`inputQueues, this`repr
    {
      && (forall p <- inputQueues :: inputQueues[p] in repr && inputQueues[p].blank == blank)
      && forall p, q | p in inputQueues && q in inputQueues && p != q :: inputQueues[p] != inputQueues[q]
    }

    ghost function QueueStates(): Queues<B>
      requires Valid()
      reads this`inputQueues, this`repr, repr
    {
      map p | p in inputQueues :: inputQueues[p].State()
    }

    ghost function Model(): Handler<B>
      requires Valid()
      reads this, repr
    {
      Handler(QueueStates(), incoming, outgoing)
    }

    ghost function SetupOf(): Setup<B> {
      Setup(consoleId, localPorts, coder, blank)
    }

    /** The source aborts the program unless these hold. */
    constructor (consoleId: int, clientId: int, localPorts: seq<Port>, coder: Coder<B>, blank: B, incoming: seq<Read>)
      requires 0 < consoleId && 0 < clientId
      requires |localPorts| <= 4 && PortAny !in localPorts
      requires forall i, j | 0 <= i < j < |localPorts| :: localPorts[i] != localPorts[j]
      ensures Valid() && Model() == Handler(map[], incoming, [])
      ensures SetupOf() == Setup(consoleId, (set p | p in localPorts), coder, blank)
    {
      this.consoleId, this.clientId, this.coder, this.blank := consoleId, clientId, coder, blank;
      this.localPorts := set p | p in localPorts;
      this.inputQueues, this.repr, this.incoming, this.outgoing := map[], {}, incoming, [];
    }

    // -------------------------------------------------------------------------
    // Starting

    method WaitForConsoleStart() returns (ok: bool)
      requires Valid()
      modifies this
      ensures Valid() && fresh(repr - old(repr))
      ensures var expected := HandlerModel.WaitForConsoleStart(SetupOf(), old(Model()));
              Model() == expected.state && ok == expected.ok
    {
      if incoming == [] {
        return false;
      }
      var read := incoming[0];
      incoming := incoming[1..];
      if read.None? {
        return false;
      }
      var event := read.value;
      if event.stopConsole {
        return false;
      }
      if event.startGame.None? {
        return false;
      }
      var startGame := event.startGame.value;
      if startGame.consoleId <= 0 || startGame.consoleId != consoleId {
        return false;
      }
      ghost var handled;
      ok, handled := InitializeQueues(startGame.connectedPorts);
      assert startGame.connectedPorts[..|startGame.connectedPorts|] == startGame.connectedPorts;
      if !ok {
        inputQueues, repr := map[], {};
      }
    }

    /** Decides the well-formedness of the configuration; that all local ports are
        connected it sees only by counting them. `handled` is how many ports got their
        queues. */
    method InitializeQueues(ports: seq<ConnectedPort>) returns (ok: bool, ghost handled: nat)
      requires Valid()
      modifies this`inputQueues, this`repr
      ensures Valid() && fresh(repr - old(repr))
      ensures ok == WellFormed(localPorts, ports)
      ensures ok ==> handled == |ports|
      ensures StopsAt(ports, handled)
      ensures QueueStates() == Connect(localPorts, old(QueueStates()), ports[..handled])
    {
      if |ports| > 4 {
        return false, 0;
      }
      ghost var start := QueueStates();
      var handledPorts: set<Port> := {};
      var localPortsConnected := 0;
      var i := 0;
      while i < |ports|
        invariant 0 <= i <= |ports|
        invariant Valid() && fresh(repr - old(repr))
        invariant HandledSoFar(localPorts, start, ports, i, handledPorts, localPortsConnected, QueueStates())
      {
        var port := ports[i].port;
        HandledTurn(localPorts, start, ports, i, handledPorts, localPortsConnected, QueueStates());
        if port == PortAny {
          return false, i;
        }
        if port in handledPorts {
          return false, i;
        }
        EmplaceQueue(ports[i]);
        if port in localPorts {
          localPortsConnected := localPortsConnected + 1;
        }
        handledPorts := handledPorts + {port};
        i := i + 1;
      }
      AllHandled(localPorts, start, ports, handledPorts, localPortsConnected, QueueStates());
      return |localPorts| == localPortsConnected, |ports|;
    }

    static ghost predicate GoodSoFar(ports: seq<ConnectedPort>, i: nat)
      requires i <= |ports|
    {
      && (forall j | 0 <= j < i :: ports[j].port != PortAny)
      && (forall j, k | 0 <= j < k < i :: ports[j].port != ports[k].port)
    }

    /** The loop handles this many ports: none of more than four, and otherwise all of
        them or those before the first bad one. */
    static ghost predicate StopsAt(ports: seq<ConnectedPort>, n: nat) {
      && n <= |ports| && GoodSoFar(ports, n)
      && if |ports| > 4 then n == 0 else n == |ports| || !GoodSoFar(ports, n + 1)
    }

    /** The first i ports are good and handled, with these results. */
    static ghost predicate HandledSoFar(
      localPorts: set<Port>, start: Queues<B>, ports: seq<ConnectedPort>, i: nat,
      handled: set<Port>, connected: int, queues: Queues<B>)
      requires i <= |ports|
    {
      && handled == PortSet(ports[..i]) && GoodSoFar(ports, i)
      && connected == |handled * localPorts|
      && queues == Connect(localPorts, start, ports[..i])
    }

    static lemma HandledTurn(
        localPorts: set<Port>, start: Queues<B>, ports: seq<ConnectedPort>, i: nat,
        handled: set<Port>, connected: int, queues: Queues<B>)
      requires i < |ports| && HandledSoFar(localPorts, start, ports, i, handled, connected, queues)
      ensures var port := ports[i].port;
              if port == PortAny || port in handled then !GoodSoFar(ports, i + 1)
              else HandledSoFar(localPorts, start, ports, i + 1, handled + {port},
                                if port in localPorts then connected + 1 else connected,
                                Emplace(localPorts, queues, ports[i]))
    {
      ConnectLast(localPorts, start, ports[..i], ports[i]);
      assert ports[..i + 1] == ports[..i] + [ports[i]];
      OneMoreGood(ports, i);
      if ports[i].port !in handled {
        OneMoreLocal(handled, localPorts, ports[i].port);
      }
    }

    static lemma OneMoreGood(ports: seq<ConnectedPort>, i: nat)
      requires i < |ports| && GoodSoFar(ports, i)
      ensures PortSet(ports[..i + 1]) == PortSet(ports[..i]) + {ports[i].port}
      ensures GoodSoFar(ports, i + 1) <==> ports[i].port != PortAny && ports[i].port !in PortSet(ports[..i])
    {
      if ports[i].port in PortSet(ports[..i]) {
        var j :| 0 <= j < i && ports[..i][j].port == ports[i].port;
        assert ports[j].port == ports[i].port;
      } else {
        assert forall j | 0 <= j < i :: ports[j] == ports[..i][j];
      }
    }

    static lemma OneMoreLocal(handled: set<Port>, localPorts: set<Port>, port: Port)
      requires port !in handled
      ensures |(handled + {port}) * localPorts| == |handled * localPorts| + if port in localPorts then 1 else 0
    {
      assert (handled + {port}) * localPorts == handled * localPorts + if port in localPorts then {port} else {};
    }

    static lemma AllHandled(
        localPorts: set<Port>, start: Queues<B>, ports: seq<ConnectedPort>,
        handled: set<Port>, connected: int, queues: Queues<B>)
      requires HandledSoFar(localPorts, start, ports, |ports|, handled, connected, queues)
      ensures |ports| <= 4 ==> (|localPorts| == connected <==> WellFormed(localPorts, ports))
      ensures queues == Connect(localPorts, start, ports)
    {
      assert ports[..|ports|] == ports;
      SubsetOfSameSize(handled * localPorts, localPorts);
    }

    static lemma {:induction false} ConnectLast(
        localPorts: set<Port>, queues: Queues<B>, ports: seq<ConnectedPort>, last: ConnectedPort)
      ensures Connect(localPorts, queues, ports + [last])
           == Emplace(localPorts, Connect(localPorts, queues, ports), last)
      decreases |ports|
    {
      if ports == [] {
        assert ([last])[1..] == [] && ports + [last] == [last];
      } else {
        assert (ports + [last])[1..] == ports[1..] + [last];
        ConnectLast(localPorts, Emplace(localPorts, queues, ports[0]), ports[1..], last);
      }
    }

    /** `input_queues_.emplace` of a new queue of the right kind. */
    method EmplaceQueue(port: ConnectedPort)
      requires Valid()
      modifies this`inputQueues, this`repr
      ensures Valid() && fresh(repr - old(repr))
      ensures QueueStates() == Emplace(localPorts, old(QueueStates()), port)
    {
      var queue: InputQueue<B>;
      if port.port in localPorts {
        queue := new InputQueue.MakeLocalQueue(port.delayFrames, blank);
      } else {
        queue := new InputQueue.MakeRemoteQueue(port.delayFrames, blank);
      }
      if port.port !in inputQueues {
        inputQueues, repr := inputQueues[port.port := queue], repr + {queue};
      }
    }

    static lemma SubsetOfSameSize(a: set<Port>, b: set<Port>)
      requires a <= b
      ensures |a| == |b| <==> b <= a
    {
      assert b == a + (b - a);
    }

    // -------------------------------------------------------------------------
    // Putting

    method PutButtons(tuples: seq<ButtonsFrame<B>>, writeSucceeds: bool) returns (status: PutStatus)
      requires Valid()
      modifies this`outgoing, repr
      ensures Valid()
      ensures var expected := HandlerModel.PutButtons(SetupOf(), old(Model()), tuples, writeSucceeds);
              Model() == expected.state && status == expected.status
    {
      var event;
      status, event := PutTuples(tuples);
      if status != PutSuccess {
        return;
      }
      if event != [] {
        outgoing := outgoing + [Write(event, writeSucceeds)];
        if !writeSucceeds {
          return FailedToTransmitRemote;
        }
      }
    }

    /** The loop of PutButtons: fills the queues and the outgoing event. */
    method PutTuples(tuples: seq<ButtonsFrame<B>>) returns (status: PutStatus, event: seq<KeyState>)
      requires Valid()
      modifies repr
      ensures Valid()
      ensures var expected := HandlerModel.PutTuples(SetupOf(), old(QueueStates()), tuples);
              && QueueStates() == expected.queues && status == expected.status
              && (status == PutSuccess ==> event == expected.keys)
    {
      ghost var su := SetupOf();
      ghost var pass := HandlerModel.PutTuples(su, QueueStates(), tuples);
      event := [];
      var i := 0;
      while i < |tuples|
        invariant 0 <= i <= |tuples|
        invariant Valid()
        invariant SameEnd(HandlerModel.PutTuples(su, QueueStates(), tuples[i..]), pass, event)
      {
        var keys;
        PutTuplesTurn(su, QueueStates(), tuples, i);
        status, keys := PutTuple(tuples[i]);
        if status != PutSuccess {
          return;
        }
        SameEndTurn(keys, HandlerModel.PutTuples(su, QueueStates(), tuples[i + 1..]), pass, event);
        event := event + keys;
        i := i + 1;
      }
      assert tuples[i..] == [] && event + [] == event;
      return PutSuccess, event;
    }

    static ghost predicate SameEnd(todo: PutPass<B>, pass: PutPass<B>, event: seq<KeyState>) {
      && pass.queues == todo.queues && pass.status == todo.status
      && (pass.status == PutSuccess ==> pass.keys == event + todo.keys)
    }

    static lemma SameEndTurn(keys: seq<KeyState>, rest: PutPass<B>, pass: PutPass<B>, event: seq<KeyState>)
      requires SameEnd(rest.(keys := keys + rest.keys, queued := 1 + rest.queued), pass, event)
      ensures SameEnd(rest, pass, event + keys)
    {
      assert event + (keys + rest.keys) == event + keys + rest.keys;
    }

    static lemma PutTuplesTurn(su: Setup<B>, queues: Queues<B>, tuples: seq<ButtonsFrame<B>>, i: nat)
      requires i < |tuples|
      ensures var one := HandlerModel.PutTuple(su, queues, tuples[i]);
              var todo := HandlerModel.PutTuples(su, queues, tuples[i..]);
              if one.status != PutSuccess then todo == one
              else
                var rest := HandlerModel.PutTuples(su, one.queues, tuples[i + 1..]);
                todo == PutPass(rest.queues, one.keys + rest.keys, 1 + rest.queued, rest.status)
    {
      assert tuples[i..][1..] == tuples[i + 1..];
    }

    /** One turn of the loop in PutButtons: the status it returns with, unless that
        is `PutSuccess`, and the keys it attaches to the outgoing event. */
    method PutTuple(t: ButtonsFrame<B>) returns (status: PutStatus, keys: seq<KeyState>)
      requires Valid()
      modifies repr
      ensures Valid()
      ensures var expected := HandlerModel.PutTuple(SetupOf(), old(QueueStates()), t);
              && status == expected.status && keys == expected.keys
              && QueueStates() == expected.queues
    {
      keys := [];
      if t.port !in inputQueues {
        return NoSuchPort, keys;
      }
      var accepted := PutIntoQueue(t);
      if !accepted {
        return RejectedByQueue, keys;
      }
      if t.port in localPorts {
        var delay := DelayFramesForPort(t.port);
        if delay < 0 {
          return InternalError, keys;
        }
        var encoded := coder.Encode(t.buttons);
        if encoded.None? {
          return FailedToEncode, keys;
        }
        keys := [KeyState(consoleId, t.port, t.frame + delay, encoded.value)];
      }
      return PutSuccess, keys;
    }

    /** The call of the queue's own PutButtons, and what it does to all queues. */
    method PutIntoQueue(t: ButtonsFrame<B>) returns (accepted: bool)
      requires Valid() && t.port in inputQueues
      modifies inputQueues[t.port]
      ensures Valid()
      ensures accepted == Accepts(old(QueueStates())[t.port], t.frame)
      ensures QueueStates() == InsertInto(old(QueueStates()), t)
    {
      accepted := inputQueues[t.port].PutButtons(t.frame, t.buttons);
      forall p | p in inputQueues && p != t.port
        ensures inputQueues[p].State() == old(inputQueues[p].State())
      {
      }
    }

    // -------------------------------------------------------------------------
    // Getting

    method GetButtons(port: Port, frame: int) returns (status: GetStatus<B>)
      requires Valid()
      modifies this`incoming, repr
      ensures Valid()
      ensures var expected := HandlerModel.GetButtons(SetupOf(), old(Model()), port, frame);
              Model() == expected.state && status == expected.status
    {
      if port in localPorts {
        status := GetLocalButtons(port, frame);
      } else {
        status := GetRemoteButtons(port, frame);
      }
    }

    method GetLocalButtons(port: Port, frame: int) returns (status: GetStatus<B>)
      requires Valid() && port in localPorts
      modifies repr
      ensures Valid()
      ensures var expected := HandlerModel.GetButtons(SetupOf(), old(Model()), port, frame);
              Model() == expected.state && status == expected.status
    {
      if port !in inputQueues {
        return GetNoSuchPort;
      }
      var result := GetFromQueue(port, frame);
      match result
      case Success(buttons) => return GetSuccess(buttons);
      case _ => return GetFailure;
    }

    method GetRemoteButtons(port: Port, frame: int) returns (status: GetStatus<B>)
      requires Valid() && port !in localPorts
      modifies this`incoming, repr
      ensures Valid()
      ensures var expected := HandlerModel.GetButtons(SetupOf(), old(Model()), port, frame);
              Model() == expected.state && status == expected.status
    {
      if port !in inputQueues {
        return GetNoSuchPort;
      }
      var result := GetFromQueue(port, frame);
      if result.Success? {
        return GetSuccess(result.buttons);
      } else if result != Timeout {
        return GetFailure;
      }
      assert QueueStates() == old(QueueStates());
      var read := ReadUntilButtons(port, frame);
      if read != GotButtons {
        return GetFailure;
      }
      result := GetFromQueue(port, frame);
      if !result.Success? {
        return GetFailure;  // "Probable logic error."
      }
      return GetSuccess(result.buttons);
    }

    method ReadUntilButtons(port: Port, frame: int) returns (status: ReadStatus)
      requires Valid()
      modifies this`incoming, repr
      ensures Valid()
      ensures var expected := HandlerModel.ReadUntilButtons(
                SetupOf(), old(QueueStates()), old(incoming), port, frame);
              && status == expected.status
              && QueueStates() == expected.queues && incoming == expected.incoming
    {
      ghost var su := SetupOf();
      ghost var expected := HandlerModel.ReadUntilButtons(su, QueueStates(), incoming, port, frame);
      var foundButtons := false;
      while !foundButtons
        invariant Valid()
        invariant expected == if foundButtons then ReadOutcome(QueueStates(), incoming, GotButtons)
                              else HandlerModel.ReadUntilButtons(su, QueueStates(), incoming, port, frame)
        decreases !foundButtons, |incoming|
      {
        if incoming == [] {
          return RpcReadFailure;
        }
        var read := incoming[0];
        incoming := incoming[1..];
        if read.None? {
          return RpcReadFailure;
        }
        var event := read.value;
        if event.stopConsole {
          return ConsoleTerminated;
        }
        if event.startGame.Some? || event.invalidData {
          return NonButtonMessage;
        }
        var error;
        error, foundButtons := ApplyEvent(event.keyPresses, port, frame);
        if error.Some? {
          return error.value;
        }
      }
      return GotButtons;
    }

    /** The inner loop of ReadUntilButtons, over the key presses of one event. */
    method ApplyEvent(keys: seq<KeyState>, port: Port, frame: int) returns (error: Option<ReadStatus>, found: bool)
      requires Valid()
      modifies repr
      ensures Valid()
      ensures var pass := ApplyKeys(SetupOf(), old(QueueStates()), keys);
              QueueStates() == pass.queues && error == pass.error
      ensures error.None? ==> found == HasKey(keys, port, frame)
    {
      ghost var su := SetupOf();
      ghost var pass := ApplyKeys(su, QueueStates(), keys);
      found := false;
      var i := 0;
      while i < |keys|
        invariant 0 <= i <= |keys|
        invariant Valid()
        invariant ApplyKeys(su, QueueStates(), keys[i..]) == pass
        invariant found == HasKey(keys[..i], port, frame)
      {
        var key := keys[i];
        ApplyKeysTurn(su, QueueStates(), keys, i);
        error := ApplyKey(key);
        if error.Some? {
          return;
        }
        HasKeyTurn(keys, i, port, frame);
        if !found && key.port == port && key.frame == frame {
          found := true;
        }
        i := i + 1;
      }
      assert keys[..|keys|] == keys;
      return None, found;
    }

    static lemma ApplyKeysTurn(su: Setup<B>, queues: Queues<B>, keys: seq<KeyState>, i: nat)
      requires i < |keys|
      ensures var one := HandlerModel.ApplyKey(su, queues, keys[i]);
              ApplyKeys(su, queues, keys[i..])
              == if one.error.Some? then one else ApplyKeys(su, one.queues, keys[i + 1..])
    {
      assert keys[i..][1..] == keys[i + 1..];
    }

    method ApplyKey(key: KeyState) returns (error: Option<ReadStatus>)
      requires Valid()
      modifies repr
      ensures Valid()
      ensures var pass := HandlerModel.ApplyKey(SetupOf(), old(QueueStates()), key);
              QueueStates() == pass.queues && error == pass.error
    {
      if key.port !in inputQueues {
        return Some(InvalidButtonsMessage);
      }
      var decoded := coder.Decode(key.pad);
      if decoded.None? {
        return Some(InvalidButtonsMessage);
      }
      var accepted := PutIntoQueue(ButtonsFrame(key.port, key.frame, decoded.value));
      if !accepted {
        return Some(ReadRejectedByQueue);
      }
      return None;
    }

    static lemma HasKeyTurn(keys: seq<KeyState>, i: nat, port: Port, frame: int)
      requires i < |keys|
      ensures HasKey(keys[..i + 1], port, frame)
              <==> HasKey(keys[..i], port, frame) || (keys[i].port == port && keys[i].frame == frame)
    {
      var before, after := keys[..i], keys[..i + 1];
      assert after == before + [keys[i]];
      if HasKey(before, port, frame) {
        var j :| 0 <= j < |before| && before[j].port == port && before[j].frame == frame;
        assert after[j] == before[j];
      }
      assert after[i] == keys[i];
    }

    /** The call of the queue's own GetButtons, and what it does to all queues. */
    method GetFromQueue(port: Port, frame: int) returns (result: GetResult<B>)
      requires Valid() && port in inputQueues
      modifies inputQueues[port]
      ensures Valid()
      ensures var q := old(QueueStates())[port];
              && result == Answer(q, frame, blank)
              && QueueStates() == old(QueueStates())[port := AfterGet(q, frame)]
    {
      result := inputQueues[port].GetButtons(frame);
      forall p | p in inputQueues && p != port
        ensures inputQueues[p].State() == old(inputQueues[p].State())
      {
      }
    }

    // -------------------------------------------------------------------------
    // Accessors

    method LocalPorts() returns (ports: set<Port>)
      ensures ports == SetupOf().localPorts
    {
      ports := localPorts;
    }

    method RemotePorts() returns (ports: set<Port>)
      requires Valid()
      ensures ports == HandlerModel.RemotePorts(SetupOf(), Model())
    {
      ports := {};
      var todo := inputQueues.Keys;
      while todo != {}
        invariant todo <= inputQueues.Keys
        invariant ports == inputQueues.Keys - todo - localPorts
        decreases |todo|
      {
        var p :| p in todo;
        if p !in localPorts {
          ports := ports + {p};
        }
        todo := todo - {p};
      }
    }

    method DelayFramesForPort(port: Port) returns (delay: int)
      requires Valid()
      ensures delay == DelayFrames(QueueStates(), port)
    {
      if port !in inputQueues {
        return -1;
      }
      return inputQueues[port].delayFrames;
    }
  }
}
