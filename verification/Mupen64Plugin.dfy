/** The mupen64plus plugin: it numbers the ports from 0 to 3, batches the emulator's
    puts, and fills in the table of controllers that the emulator works with. */
module Mupen64Plugin {
  import opened NetplayTypes
  import opened HandlerModel
  import opened HandlerResults
  import opened EventStreamHandlers

  /** NETPLAY_CONTROLLER. A channel is an index into the input plugin's controls. */
  datatype Controller = Controller(present: bool, remote: bool, delay: int, channel: int)

  /** CONTROL: what an input plugin says about one of its four channels. */
  datatype Control = Control(present: bool, rawData: bool)

  /** m64p_netplay_frame_update. */
  datatype FrameUpdate<B> = FrameUpdate(port: int, frame: int, buttons: B)

  const ABSENT := Controller(false, false, -1, -1)
  const NUMBERED_PORTS := [Port1, Port2, Port3, Port4]

  predicate Numbered(port: Port) {
    port.Port1? || port.Port2? || port.Port3? || port.Port4?
  }

  function PortToM64Port(port: Port): int {
    match port
    case Port1 => 0
    case Port2 => 1
    case Port3 => 2
    case Port4 => 3
    case _ => -1
  }

  function M64PortToPort(number: int): Port {
    if number == 0 then Port1
    else if number == 1 then Port2
    else if number == 2 then Port3
    else if number == 3 then Port4
    else Unknown
  }

  /** The numbers 0 to 3 and the four ports stand for each other, in this order, and
      nothing else is the number of a port or the port of a number. */
  lemma PortsAndNumbers(port: Port, number: int)
    ensures M64PortToPort(number) == port && Numbered(port) <==> PortToM64Port(port) == number && 0 <= number < 4
    ensures 0 <= number < 4 ==> M64PortToPort(number) == NUMBERED_PORTS[number]
    ensures !(0 <= number < 4) ==> M64PortToPort(number) == Unknown
    ensures !Numbered(port) ==> PortToM64Port(port) == -1
  {
  }

  // ---------------------------------------------------------------------------
  // Putting and getting

  ghost predicate AllPortsValid<B>(updates: seq<FrameUpdate<B>>) {
    forall i | 0 <= i < |updates| :: 0 <= updates[i].port < 4
  }

  function TupleOf<B>(update: FrameUpdate<B>): ButtonsFrame<B> {
    ButtonsFrame(M64PortToPort(update.port), update.frame, update.buttons)
  }

  function Tuples<B>(updates: seq<FrameUpdate<B>>): seq<ButtonsFrame<B>> {
    seq(|updates|, i requires 0 <= i < |updates| => TupleOf(updates[i]))
  }

  /** The whole batch is handed on, or none of it: an invalid port number anywhere
      refuses it before anything has been put. */
  method PutButtons<B>(handler: EventStreamHandler<B>, updates: seq<FrameUpdate<B>>, writeSucceeds: bool)
      returns (ok: bool)
    requires handler.Valid()
    modifies handler`outgoing, handler.repr
    ensures handler.Valid()
    ensures !AllPortsValid(updates) ==> !ok && handler.Model() == old(handler.Model())
    ensures AllPortsValid(updates) ==>
              var put := HandlerModel.PutButtons(handler.SetupOf(), old(handler.Model()), Tuples(updates), writeSucceeds);
              handler.Model() == put.state && (ok <==> put.status == PutSuccess)
  {
    var tuples := [];
    var i := 0;
    while i < |updates|
      invariant 0 <= i <= |updates|
      invariant AllPortsValid(updates[..i])
      invariant tuples == Tuples(updates)[..i]
    {
      var port := M64PortToPort(updates[i].port);
      if port == Unknown {
        return false;
      }
      tuples := tuples + [ButtonsFrame(port, updates[i].frame, updates[i].buttons)];
      i := i + 1;
    }
    assert updates[..i] == updates && Tuples(updates)[..i] == Tuples(updates);
    var status := handler.PutButtons(tuples, writeSucceeds);
    return status == PutSuccess;
  }

  method GetButtons<B>(handler: EventStreamHandler<B>, port: int, frame: int) returns (buttons: Option<B>)
    requires handler.Valid()
    modifies handler`incoming, handler.repr
    ensures handler.Valid()
    ensures !(0 <= port < 4) ==> buttons == None && handler.Model() == old(handler.Model())
    ensures 0 <= port < 4 ==>
              var get := HandlerModel.GetButtons(handler.SetupOf(), old(handler.Model()), M64PortToPort(port), frame);
              && handler.Model() == get.state
              && buttons == if get.status.GetSuccess? then Some(get.status.buttons) else None
  {
    var which := M64PortToPort(port);
    if which == Unknown {
      return None;
    }
    var status := handler.GetButtons(which, frame);
    return if status.GetSuccess? then Some(status.buttons) else None;
  }

  // ---------------------------------------------------------------------------
  // The controller table

  predicate Available(controls: seq<Control>, channel: int) {
    0 <= channel < |controls| && controls[channel].present
  }

  function ChannelSet(controls: seq<Control>): set<int> {
    set i | 0 <= i < |controls| && controls[i].present
  }

  /** The entry of a port. */
  function EntryOf(table: seq<Controller>, port: Port): Controller
    requires |table| == 4 && Numbered(port)
  {
    table[PortToM64Port(port)]
  }

  ghost predicate Ascending(numbers: seq<int>) {
    forall j, k | 0 <= j < k < |numbers| :: numbers[j] < numbers[k]
  }

  function Numbers(ports: seq<Port>): seq<int> {
    seq(|ports|, k requires 0 <= k < |ports| => PortToM64Port(ports[k]))
  }

  /** The local ports and the available channels, matched in order: a bijection. */
  ghost predicate ChannelsMatched(table: seq<Controller>, controls: seq<Control>, localPorts: set<Port>)
    requires |table| == 4 && forall p <- localPorts :: Numbered(p)
  {
    && (forall p <- localPorts :: Available(controls, EntryOf(table, p).channel))
    && (forall p, q | p in localPorts && q in localPorts ::
          PortToM64Port(p) < PortToM64Port(q) ==> EntryOf(table, p).channel < EntryOf(table, q).channel)
    && (forall i | Available(controls, i) :: exists p :: p in localPorts && EntryOf(table, p).channel == i)
  }

  /** What the table says of a port with this server-announced delay. */
  predicate Reflects(entry: Controller, local: bool, delay: int) {
    && entry.present && entry.remote == !local
    && entry.delay == (if local then delay else 0)
    && (!local ==> entry.channel == -1)
  }

  /** The table says exactly what the start message and the input plugin say. */
  ghost predicate Faithful(
    table: seq<Controller>, controls: seq<Control>, localPorts: set<Port>, ports: seq<ConnectedPort>)
  {
    && |table| == 4
    && (forall p <- localPorts :: Numbered(p)) && (forall i | 0 <= i < |ports| :: Numbered(ports[i].port))
    && ChannelsMatched(table, controls, localPorts)
    && (forall i | 0 <= i < |ports| ::
          Reflects(EntryOf(table, ports[i].port), ports[i].port in localPorts, ports[i].delayFrames))
    && forall p | Numbered(p) && p !in PortSet(ports) :: EntryOf(table, p) == ABSENT
  }

  method ResetControllers(table: array<Controller>)
    requires table.Length == 4
    modifies table
    ensures table[..] == [ABSENT, ABSENT, ABSENT, ABSENT]
  {
    for i := 0 to 4
      invariant forall j | 0 <= j < i :: table[j] == ABSENT
    {
      table[i] := Controller(false, false, -1, -1);
    }
  }

  method AvailableChannels(controls: seq<Control>) returns (channels: seq<int>)
    requires |controls| == 4
    ensures Ascending(channels) && |channels| == |ChannelSet(controls)|
    ensures forall i :: i in channels <==> Available(controls, i)
  {
    channels := [];
    for i := 0 to 4
      invariant Ascending(channels) && |channels| == |ChannelSet(controls[..i])|
      invariant forall j :: j in channels <==> Available(controls[..i], j)
    {
      assert ChannelSet(controls[..i + 1]) == ChannelSet(controls[..i]) + if controls[i].present then {i} else {};
      assert forall j | 0 <= j < |channels| :: channels[j] in channels;
      if controls[i].present {
        channels := channels + [i];
      }
    }
    assert controls[..4] == controls;
  }

  /** These ports in ascending order. */
  ghost predicate Sorts(sorted: seq<Port>, ports: set<Port>) {
    Ascending(Numbers(sorted)) && |sorted| == |ports| && forall p :: p in sorted <==> p in ports
  }

  function PortsBelow(ports: set<Port>, n: int): set<Port> {
    set p | p in ports && PortToM64Port(p) < n
  }

  /** A std::set of ports is iterated in the order of the ports. */
  method InOrder(ports: set<Port>) returns (sorted: seq<Port>)
    requires forall p <- ports :: Numbered(p)
    ensures Sorts(sorted, ports)
  {
    sorted := [];
    for i := 0 to 4
      invariant Sorts(sorted, PortsBelow(ports, i))
    {
      InOrderTurn(sorted, ports, i);
      if NUMBERED_PORTS[i] in ports {
        sorted := sorted + [NUMBERED_PORTS[i]];
      }
    }
    assert PortsBelow(ports, 4) == ports;
  }

  lemma InOrderTurn(sorted: seq<Port>, ports: set<Port>, i: nat)
    requires i < 4 && Sorts(sorted, PortsBelow(ports, i)) && forall p <- ports :: Numbered(p)
    ensures Sorts(if NUMBERED_PORTS[i] in ports then sorted + [NUMBERED_PORTS[i]] else sorted, PortsBelow(ports, i + 1))
  {
    var port := NUMBERED_PORTS[i];
    assert PortsBelow(ports, i + 1) == PortsBelow(ports, i) + if port in ports then {port} else {};
    forall k | 0 <= k < |sorted| ensures Numbers(sorted)[k] < i {
      assert sorted[k] in sorted;
      assert sorted[k] in PortsBelow(ports, i);
    }
    assert Numbers(sorted + [port]) == Numbers(sorted) + [i];
  }

  /** The first n of these ports have got their channels, and nothing else has changed. */
  ghost predicate Allocated<B>(
    before: seq<Controller>, table: seq<Controller>, queues: Queues<B>, ports: seq<Port>, channels: seq<int>)
  {
    && |before| == |table| == 4 && |ports| <= |channels| && (forall k | 0 <= k < |ports| :: Numbered(ports[k]))
    && (forall k | 0 <= k < |ports| ::
          EntryOf(table, ports[k]) == Controller(true, false, DelayFrames(queues, ports[k]), channels[k]))
    && forall p | Numbered(p) && p !in ports :: EntryOf(table, p) == EntryOf(before, p)
  }

  /** The entries of these remote ports are set up, and nothing else has changed. */
  ghost predicate Opened<B>(before: seq<Controller>, table: seq<Controller>, queues: Queues<B>, ports: seq<Port>) {
    && |before| == |table| == 4
    && forall p | Numbered(p) ::
         EntryOf(table, p) == if p in ports then Controller(true, true, DelayFrames(queues, p), -1) else EntryOf(before, p)
  }

  method AllocateLocalPorts<B>(
      handler: EventStreamHandler<B>, channels: seq<int>, ports: seq<Port>, table: array<Controller>)
    requires handler.Valid() && table.Length == 4 && |channels| == |ports|
    requires Ascending(Numbers(ports)) && forall p <- ports :: Numbered(p)
    modifies table
    ensures handler.QueueStates() == old(handler.QueueStates())
    ensures Allocated(old(table[..]), table[..], handler.QueueStates(), ports, channels)
  {
    var channel, port := 0, 0;
    ghost var queues := handler.QueueStates();
    while channel != |channels| && port != |ports|
      invariant 0 <= channel == port <= |ports|
      invariant Allocated(old(table[..]), table[..], queues, ports[..port], channels)
      decreases |ports| - port
    {
      assert ports[port] in ports;
      var delay := handler.DelayFramesForPort(ports[port]);
      AllocateOne(old(table[..]), table[..], queues, ports, port, channels);
      table[PortToM64Port(ports[port])] := Controller(true, false, delay, channels[channel]);
      channel, port := channel + 1, port + 1;
    }
    assert ports[..port] == ports;
  }

  lemma AllocateOne<B>(
      before: seq<Controller>, table: seq<Controller>, queues: Queues<B>, ports: seq<Port>, n: nat, channels: seq<int>)
    requires n < |ports| == |channels| && Ascending(Numbers(ports)) && Numbered(ports[n])
    requires Allocated(before, table, queues, ports[..n], channels)
    ensures var entry := Controller(true, false, DelayFrames(queues, ports[n]), channels[n]);
            Allocated(before, table[PortToM64Port(ports[n]) := entry], queues, ports[..n + 1], channels)
  {
    assert ports[..n + 1] == ports[..n] + [ports[n]];
    forall k | 0 <= k < n ensures ports[..n][k] == ports[k] && PortToM64Port(ports[k]) < PortToM64Port(ports[n]) {
      assert Numbers(ports)[k] < Numbers(ports)[n];
    }
  }

  method OpenRemotePorts<B>(handler: EventStreamHandler<B>, ports: seq<Port>, table: array<Controller>)
    requires handler.Valid() && table.Length == 4 && forall p <- ports :: Numbered(p)
    modifies table
    ensures handler.QueueStates() == old(handler.QueueStates())
    ensures Opened(old(table[..]), table[..], handler.QueueStates(), ports)
  {
    ghost var queues := handler.QueueStates();
    for i := 0 to |ports|
      invariant Opened(old(table[..]), table[..], queues, ports[..i])
    {
      assert ports[i] in ports;
      var delay := handler.DelayFramesForPort(ports[i]);
      OpenOne(old(table[..]), table[..], queues, ports[..i], ports[i]);
      assert ports[..i + 1] == ports[..i] + [ports[i]];
      table[PortToM64Port(ports[i])] := Controller(true, true, delay, -1);
    }
    assert ports[..|ports|] == ports;
  }

  lemma OpenOne<B>(before: seq<Controller>, table: seq<Controller>, queues: Queues<B>, ports: seq<Port>, port: Port)
    requires Opened(before, table, queues, ports) && Numbered(port)
    ensures Opened(before, table[PortToM64Port(port) := Controller(true, true, DelayFrames(queues, port), -1)],
                   queues, ports + [port])
  {
  }

  method PermuteNetplayControllers<B>(handler: EventStreamHandler<B>, controls: seq<Control>, table: array<Controller>)
      returns (ok: bool)
    requires handler.Valid() && |controls| == 4 && table.Length == 4
    requires forall p | p in handler.localPorts || p in handler.inputQueues :: Numbered(p)
    modifies table
    ensures ok <==> |ChannelSet(controls)| == |handler.localPorts|
    ensures !ok ==> table[..] == old(table[..])
    ensures ok ==> Permuted(old(table[..]), table[..], controls, handler.localPorts, handler.QueueStates())
  {
    var channels := AvailableChannels(controls);
    var localPorts := handler.LocalPorts();
    if |channels| != |localPorts| {
      return false;
    }
    var ports := InOrder(localPorts);
    var remotePorts := handler.RemotePorts();
    var remotes := InOrder(remotePorts);
    ghost var queues := handler.QueueStates();
    assert remotePorts == queues.Keys - localPorts;
    AllocateLocalPorts(handler, channels, ports, table);
    ghost var middle := table[..];
    OpenRemotePorts(handler, remotes, table);
    IsPermuted(old(table[..]), middle, table[..], controls, localPorts, queues, ports, channels, remotes);
    return true;
  }

  /** What a successful permutation makes of a table. */
  ghost predicate Permuted<B>(
    before: seq<Controller>, table: seq<Controller>, controls: seq<Control>, localPorts: set<Port>, queues: Queues<B>)
  {
    && |before| == |table| == 4 && (forall p <- localPorts :: Numbered(p))
    && ChannelsMatched(table, controls, localPorts)
    && forall p | Numbered(p) ::
         var entry := EntryOf(table, p);
         if p in localPorts then entry == Controller(true, false, DelayFrames(queues, p), entry.channel)
         else if p in queues then entry == Controller(true, true, DelayFrames(queues, p), -1)
         else entry == EntryOf(before, p)
  }

  lemma IsPermuted<B>(
      before: seq<Controller>, middle: seq<Controller>, table: seq<Controller>, controls: seq<Control>,
      localPorts: set<Port>, queues: Queues<B>, ports: seq<Port>, channels: seq<int>, remotes: seq<Port>)
    requires Ascending(channels) && forall i :: i in channels <==> Available(controls, i)
    requires Sorts(ports, localPorts) && Sorts(remotes, queues.Keys - localPorts)
    requires |ports| == |channels| && Allocated(before, middle, queues, ports, channels)
    requires Opened(middle, table, queues, remotes)
    ensures Permuted(before, table, controls, localPorts, queues)
  {
    forall k | 0 <= k < |ports|
      ensures Numbers(ports)[k] == PortToM64Port(ports[k])
      ensures ports[k] in localPorts && EntryOf(table, ports[k]).channel == channels[k]
    {
      assert ports[k] in ports;
    }
    AreMatched(table, controls, localPorts, ports, channels);
    forall p <- localPorts
      ensures EntryOf(table, p) == Controller(true, false, DelayFrames(queues, p), EntryOf(table, p).channel)
    {
      assert p in ports;
    }
  }

  lemma AreMatched(
      table: seq<Controller>, controls: seq<Control>, localPorts: set<Port>, ports: seq<Port>, channels: seq<int>)
    requires |table| == 4 && |ports| == |channels| && forall p <- localPorts :: Numbered(p)
    requires Ascending(channels) && forall i :: i in channels <==> Available(controls, i)
    requires Ascending(Numbers(ports)) && forall p :: p in ports <==> p in localPorts
    requires forall k | 0 <= k < |ports| ::
               ports[k] in localPorts && EntryOf(table, ports[k]).channel == channels[k]
    ensures ChannelsMatched(table, controls, localPorts)
  {
    forall p <- localPorts ensures Available(controls, EntryOf(table, p).channel) {
      var k :| 0 <= k < |ports| && ports[k] == p;
      assert channels[k] in channels;
    }
    forall p, q | p in localPorts && q in localPorts && PortToM64Port(p) < PortToM64Port(q)
      ensures EntryOf(table, p).channel < EntryOf(table, q).channel
    {
      var j :| 0 <= j < |ports| && ports[j] == p;
      var k :| 0 <= k < |ports| && ports[k] == q;
      assert Numbers(ports)[j] < Numbers(ports)[k];
    }
    forall i | Available(controls, i)
      ensures exists p :: p in localPorts && EntryOf(table, p).channel == i
    {
      var k :| 0 <= k < |channels| && channels[k] == i;
      assert ports[k] in localPorts;
    }
  }

  /** A permutation after a first start turns the reset table into a faithful one. */
  lemma PermutedIsFaithful<B>(su: Setup<B>, h: Handler<B>, table: seq<Controller>, controls: seq<Control>)
    requires h.queues == map[] && HandlerModel.WaitForConsoleStart(su, h).ok
    requires forall i | 0 <= i < |Announced(h.incoming)| :: Numbered(Announced(h.incoming)[i].port)
    requires Permuted([ABSENT, ABSENT, ABSENT, ABSENT], table, controls, su.localPorts,
                      HandlerModel.WaitForConsoleStart(su, h).state.queues)
    ensures Faithful(table, controls, su.localPorts, Announced(h.incoming))
  {
    FreshStart(su, h);
    QueuesAreReflected(su.localPorts, HandlerModel.WaitForConsoleStart(su, h).state.queues, Announced(h.incoming),
                       table, controls);
  }

  lemma QueuesAreReflected<B>(
      localPorts: set<Port>, queues: Queues<B>, ports: seq<ConnectedPort>, table: seq<Controller>, controls: seq<Control>)
    requires localPorts <= PortSet(ports) == queues.Keys
    requires forall i | 0 <= i < |ports| :: Numbered(ports[i].port)
    requires forall i | 0 <= i < |ports| :: queues[ports[i].port] == NewQueue(localPorts, ports[i])
    requires Permuted([ABSENT, ABSENT, ABSENT, ABSENT], table, controls, localPorts, queues)
    ensures Faithful(table, controls, localPorts, ports)
  {
  }

  ghost predicate NoRawData(controls: seq<Control>) {
    forall i | 0 <= i < |controls| :: !controls[i].rawData
  }

  /** `handler` is the one that the client hands out, before its first start;
      `connected` is whether everything that comes before waiting for the start went
      through. If netplay is on and this succeeds the table is faithful to the start
      message, and in all other cases it is as it was reset. */
  method InitiateNetplay<B>(
      handler: EventStreamHandler<B>, enabled: bool, controls: seq<Control>, connected: bool, table: array<Controller>)
      returns (ok: bool, netplayEnabled: bool)
    requires handler.Valid() && handler.inputQueues == map[] && |controls| == 4 && table.Length == 4
    requires 0 < handler.consoleId && forall p <- handler.localPorts :: Numbered(p)
    requires forall i | 0 <= i < |Announced(handler.incoming)| :: Numbered(Announced(handler.incoming)[i].port)
    modifies table, handler
    ensures handler.Valid() && netplayEnabled == enabled
    ensures var start := HandlerModel.WaitForConsoleStart(handler.SetupOf(), old(handler.Model()));
            && handler.Model() == (if enabled && NoRawData(controls) && connected then start.state else old(handler.Model()))
            && (ok <==> !enabled || (NoRawData(controls) && connected && start.ok
                                     && |ChannelSet(controls)| == |handler.localPorts|))
    ensures if enabled && ok
            then Faithful(table[..], controls, handler.localPorts, Announced(old(handler.incoming)))
            else table[..] == [ABSENT, ABSENT, ABSENT, ABSENT]
  {
    ResetControllers(table);
    netplayEnabled := enabled;
    if !enabled {
      return true, netplayEnabled;
    }
    var raw := AnyRawData(controls);
    if raw || !connected {
      return false, netplayEnabled;
    }
    ok := StartAndPermute(handler, controls, table);
  }

  method StartAndPermute<B>(handler: EventStreamHandler<B>, controls: seq<Control>, table: array<Controller>)
      returns (ok: bool)
    requires handler.Valid() && handler.inputQueues == map[] && |controls| == 4 && table.Length == 4
    requires 0 < handler.consoleId && forall p <- handler.localPorts :: Numbered(p)
    requires forall i | 0 <= i < |Announced(handler.incoming)| :: Numbered(Announced(handler.incoming)[i].port)
    requires table[..] == [ABSENT, ABSENT, ABSENT, ABSENT]
    modifies table, handler
    ensures handler.Valid()
    ensures var start := HandlerModel.WaitForConsoleStart(handler.SetupOf(), old(handler.Model()));
            && handler.Model() == start.state
            && (ok <==> start.ok && |ChannelSet(controls)| == |handler.localPorts|)
    ensures if ok then Faithful(table[..], controls, handler.localPorts, Announced(old(handler.incoming)))
            else table[..] == [ABSENT, ABSENT, ABSENT, ABSENT]
  {
    ghost var su, h := handler.SetupOf(), handler.Model();
    ok := handler.WaitForConsoleStart();
    if !ok {
      return;
    }
    ghost var started := handler.Model();
    FreshStart(su, h);
    assert forall p <- handler.inputQueues :: p in started.queues;
    ok := PermuteNetplayControllers(handler, controls, table);
    assert handler.Model() == started;
    if ok {
      PermutedIsFaithful(su, h, table[..], controls);
    }
  }

  method AnyRawData(controls: seq<Control>) returns (raw: bool)
    ensures raw <==> !NoRawData(controls)
  {
    for i := 0 to |controls|
      invariant NoRawData(controls[..i])
    {
      if controls[i].rawData {
        return true;
      }
    }
    assert controls[..|controls|] == controls;
    return false;
  }
}
