/** What holds over every run of one handler. */
module HandlerRuns {
  import opened NetplayTypes
  import opened DelayLine
  import opened HandlerModel
  import opened HandlerResults

  datatype Call<B> =
    | Start
    | Put(tuples: seq<ButtonsFrame<B>>, writeSucceeds: bool)
    | Get(port: Port, frame: int)

  function Do<B>(su: Setup<B>, h: Handler<B>, call: Call<B>): Handler<B> {
    match call
    case Start => WaitForConsoleStart(su, h).state
    case Put(tuples, writeSucceeds) => PutButtons(su, h, tuples, writeSucceeds).state
    case Get(port, frame) => GetButtons(su, h, port, frame).state
  }

  function Run<B>(su: Setup<B>, h: Handler<B>, calls: seq<Call<B>>): Handler<B> {
    if calls == [] then h else Do(su, Run(su, h, calls[..|calls| - 1]), calls[|calls| - 1])
  }

  // ---------------------------------------------------------------------------
  // Local queues shift, the others do not

  ghost predicate Classified<B>(su: Setup<B>, queues: Queues<B>) {
    forall p <- queues ::
      && QueueInv(queues[p])
      && queues[p].delay == if p in su.localPorts then queues[p].initial else 0
  }

  /** Every configuration still to be read asks for non-negative delays on local ports. */
  ghost predicate NonNegativeDelays(localPorts: set<Port>, script: seq<Read>) {
    forall i | 0 <= i < |script| && script[i].Some? && script[i].value.startGame.Some? ::
      NonNegativePorts(localPorts, script[i].value.startGame.value.connectedPorts)
  }

  ghost predicate NonNegativePorts(localPorts: set<Port>, ports: seq<ConnectedPort>) {
    forall j | 0 <= j < |ports| && ports[j].port in localPorts :: 0 <= ports[j].delayFrames
  }

  ghost predicate NonNegativeQueues<B>(localPorts: set<Port>, queues: Queues<B>) {
    forall p <- queues | p in localPorts :: 0 <= DelayFrames(queues, p)
  }

  ghost predicate NonNegative<B>(localPorts: set<Port>, h: Handler<B>) {
    NonNegativeDelays(localPorts, h.incoming) && NonNegativeQueues(localPorts, h.queues)
  }

  lemma {:induction false} ConnectKeepsClassified<B>(su: Setup<B>, queues: Queues<B>, ports: seq<ConnectedPort>)
    requires Classified(su, queues)
    ensures Classified(su, Connect(su.localPorts, queues, ports))
    ensures NonNegativeQueues(su.localPorts, queues) && NonNegativePorts(su.localPorts, ports)
            ==> NonNegativeQueues(su.localPorts, Connect(su.localPorts, queues, ports))
    decreases |ports|
  {
    if ports != [] {
      ConnectKeepsClassified(su, Emplace(su.localPorts, queues, ports[0]), ports[1..]);
    }
  }

  /** Nothing is read twice: what is left of the script is a suffix of it. */
  ghost predicate IsSuffix(rest: seq<Read>, script: seq<Read>) {
    |rest| <= |script| && rest == script[|script| - |rest|..]
  }

  ghost predicate SameShape<B>(queues: Queues<B>, queues': Queues<B>) {
    && queues'.Keys == queues.Keys
    && forall p <- queues ::
         && queues'[p].delay == queues[p].delay && queues'[p].initial == queues[p].initial
         && (QueueInv(queues[p]) ==> QueueInv(queues'[p]))
  }

  lemma GetNowKeepsShape<B>(su: Setup<B>, h: Handler<B>, port: Port, frame: int)
    requires port in h.queues
    ensures SameShape(h.queues, GetNow(su, h, port, frame).state.queues)
  {
  }

  lemma GetKeepsShape<B>(su: Setup<B>, h: Handler<B>, port: Port, frame: int)
    ensures var after := GetButtons(su, h, port, frame).state;
            && SameShape(h.queues, after.queues)
            && IsSuffix(after.incoming, h.incoming)
            && after.outgoing == h.outgoing
  {
    if port in h.queues {
      GetNowKeepsShape(su, h, port, frame);
      if port !in su.localPorts && Answer(h.queues[port], frame, su.blank) == Timeout {
        ReadsASuffix(su, h.queues, h.incoming, port, frame);
        var read := ReadUntilButtons(su, h.queues, h.incoming, port, frame);
        GetNowKeepsShape(su, h.(queues := read.queues, incoming := read.incoming), port, frame);
      }
    }
  }

  /** What reading does: it eats events and fills queues. */
  ghost predicate OnlyReads<B>(queues: Queues<B>, queues': Queues<B>, script: seq<Read>, script': seq<Read>) {
    IsSuffix(script', script) && SameShape(queues, queues') && OnlyPendingDiffers(queues, queues')
  }

  lemma {:induction false} ReadsASuffix<B>(su: Setup<B>, queues: Queues<B>, script: seq<Read>, port: Port, frame: int)
    ensures var read := ReadUntilButtons(su, queues, script, port, frame);
            OnlyReads(queues, read.queues, script, read.incoming)
    decreases |script|
  {
    if script != [] && ButtonEvent(script[0]) {
      var pass := ApplyKeys(su, queues, script[0].value.keyPresses);
      EventIsRead(su, queues, script);
      if pass.error.None? && !HasKey(script[0].value.keyPresses, port, frame) {
        ReadsASuffix(su, pass.queues, script[1..], port, frame);
        var read := ReadUntilButtons(su, pass.queues, script[1..], port, frame);
        ReadsOn(queues, pass.queues, read.queues, script, script[1..], read.incoming);
      }
    } else {
      assert ReadUntilButtons(su, queues, script, port, frame).queues == queues;
      assert OnlyReads(queues, queues, script, script) && (script != [] ==> OnlyReads(queues, queues, script, script[1..]));
    }
  }

  lemma EventIsRead<B>(su: Setup<B>, queues: Queues<B>, script: seq<Read>)
    requires script != [] && ButtonEvent(script[0])
    ensures OnlyReads(queues, ApplyKeys(su, queues, script[0].value.keyPresses).queues, script, script[1..])
  {
    ApplyKeysOnlyAdds(su, queues, script[0].value.keyPresses);
  }

  lemma ReadsOn<B>(
      queues: Queues<B>, queues1: Queues<B>, queues2: Queues<B>, script: seq<Read>, script1: seq<Read>, script2: seq<Read>)
    requires OnlyReads(queues, queues1, script, script1) && OnlyReads(queues1, queues2, script1, script2)
    ensures OnlyReads(queues, queues2, script, script2)
  {
  }

  lemma DoKeepsClassified<B>(su: Setup<B>, h: Handler<B>, call: Call<B>)
    requires Classified(su, h.queues)
    ensures Classified(su, Do(su, h, call).queues)
    ensures NonNegative(su.localPorts, h) ==> NonNegative(su.localPorts, Do(su, h, call))
  {
    match call
    case Start =>
      if h.incoming != [] && h.incoming[0].Some? && h.incoming[0].value.startGame.Some? {
        ConnectKeepsClassified(su, h.queues, h.incoming[0].value.startGame.value.connectedPorts);
      }
    case Put(tuples, _) =>
      PutTuplesOnlyAdds(su, h.queues, tuples);
    case Get(port, frame) =>
      GetKeepsShape(su, h, port, frame);
  }

  /** However often the handler is started, and whatever fails on the way: each queue
      shifts by its initial delay if its port is local, and does not shift otherwise. */
  lemma {:induction false} AlwaysClassified<B>(su: Setup<B>, incoming: seq<Read>, calls: seq<Call<B>>)
    ensures var h := Run(su, Handler(map[], incoming, []), calls);
            && Classified(su, h.queues)
            && (NonNegativeDelays(su.localPorts, incoming) ==> NonNegative(su.localPorts, h))
  {
    if calls != [] {
      AlwaysClassified(su, incoming, calls[..|calls| - 1]);
      DoKeepsClassified(su, Run(su, Handler(map[], incoming, []), calls[..|calls| - 1]), calls[|calls| - 1]);
    }
  }

  ghost predicate NoStartSucceeds<B>(su: Setup<B>, h: Handler<B>, calls: seq<Call<B>>) {
    forall i | 0 <= i < |calls| && calls[i].Start? :: !WaitForConsoleStart(su, Run(su, h, calls[..i])).ok
  }

  /** A handler that was never started successfully has no ports, whatever else was
      called on it. */
  lemma {:induction false} NoPortsBeforeTheFirstStart<B>(su: Setup<B>, incoming: seq<Read>, calls: seq<Call<B>>)
    requires NoStartSucceeds(su, Handler(map[], incoming, []), calls)
    ensures var h := Run(su, Handler(map[], incoming, []), calls);
            h.queues == map[] && RemotePorts(su, h) == {}
  {
    if calls != [] {
      var prefix := calls[..|calls| - 1];
      forall i | 0 <= i < |prefix| ensures calls[..i] == prefix[..i] {
      }
      assert calls[..|prefix|] == prefix;
      NoPortsBeforeTheFirstStart(su, incoming, prefix);
    }
  }

  /** The start message arrived for this console, with an unacceptable configuration. */
  ghost predicate ConfigurationRefused<B>(su: Setup<B>, h: Handler<B>) {
    StartArrives(su, h) && !WellFormed(su.localPorts, Announced(h.incoming))
  }

  /** But a start that fails after an earlier one succeeded leaves no remote ports
      only if it got as far as refusing the configuration, or there were none. */
  lemma FailedRestart<B>(su: Setup<B>, h: Handler<B>)
    requires !WaitForConsoleStart(su, h).ok
    ensures RemotePorts(su, WaitForConsoleStart(su, h).state) == {}
            <==> ConfigurationRefused(su, h) || RemotePorts(su, h) == {}
  {
    EveryStart(su, h);
  }

  /** For instance, when the stream breaks before the second start message. */
  lemma BrokenRestart<B>(coder: Coder<B>, blank: B)
    ensures var su := Setup(1, {}, coder, blank);
            var start := IncomingEvent(false, Some(StartGame(1, [ConnectedPort(Port1, 0)])), false, []);
            var h := WaitForConsoleStart(su, Handler(map[], [Some(start), None], [])).state;
            !WaitForConsoleStart(su, h).ok && RemotePorts(su, WaitForConsoleStart(su, h).state) == {Port1}
  {
    var su := Setup(1, {}, coder, blank);
    var ports := [ConnectedPort(Port1, 0)];
    FreshStart(su, Handler(map[], [Some(IncomingEvent(false, Some(StartGame(1, ports)), false, [])), None], []));
    assert ports[0].port in PortSet(ports);
  }

  /** PutButtons can return INTERNAL_ERROR exactly if the queue of some local port has a
      negative delay: with enough frames to choose from, one will be accepted there. */
  lemma InternalErrorIffNegativeDelay<B(!new)>(su: Setup<B>, h: Handler<B>)
    requires Classified(su, h.queues)
    ensures (forall tuples, writeSucceeds :: PutButtons(su, h, tuples, writeSucceeds).status != InternalError)
            <==> NonNegativeQueues(su.localPorts, h.queues)
  {
    if NonNegativeQueues(su.localPorts, h.queues) {
      forall tuples, writeSucceeds ensures PutButtons(su, h, tuples, writeSucceeds).status != InternalError {
        NoNegativeDelayNoInternalError(su, h, tuples, writeSucceeds);
      }
    } else {
      var p :| p in h.queues && p in su.localPorts && DelayFrames(h.queues, p) < 0;
      var frame := FrameBeyond(h.queues[p]);
      NegativeDelayIsAnInternalError(su, h, ButtonsFrame(p, frame, su.blank), true);
    }
  }

  lemma NoNegativeDelayNoInternalError<B>(
      su: Setup<B>, h: Handler<B>, tuples: seq<ButtonsFrame<B>>, writeSucceeds: bool)
    requires NonNegativeQueues(su.localPorts, h.queues)
    ensures PutButtons(su, h, tuples, writeSucceeds).status != InternalError
  {
    var k := BatchStopsAtFirstCause(su, h.queues, tuples);
    if k < |tuples| {
      InsertAllOnlyAdds(h.queues, tuples[..k]);
    }
  }

  /** There is always a frame that a queue still accepts. */
  lemma FrameBeyond<B>(q: QueueState<B>) returns (frame: int)
    ensures Accepts(q, frame)
  {
    var top := Above(q.buttons.Keys);
    frame := var least := if q.latest < q.initial then q.initial else q.latest + 1;
             var free := if least < top then top else least;
             if free < q.delay then 0 else free - q.delay;
  }

  lemma {:induction false} Above(frames: set<int>) returns (top: int)
    ensures forall g <- frames :: g < top
    decreases frames
  {
    top := 0;
    if g :| g in frames {
      var rest := frames - {g};
      top := Above(rest);
      assert forall x <- frames :: x == g || x in rest;
      top := if g < top then top else g + 1;
    }
  }

  /** No run in which local ports are given non-negative delays makes a put return
      INTERNAL_ERROR ... */
  lemma InternalErrorIsUnreachable<B>(
      su: Setup<B>, incoming: seq<Read>, calls: seq<Call<B>>, tuples: seq<ButtonsFrame<B>>, writeSucceeds: bool)
    requires NonNegativeDelays(su.localPorts, incoming)
    ensures PutButtons(su, Run(su, Handler(map[], incoming, []), calls), tuples, writeSucceeds).status != InternalError
  {
    AlwaysClassified(su, incoming, calls);
    NoNegativeDelayNoInternalError(su, Run(su, Handler(map[], incoming, []), calls), tuples, writeSucceeds);
  }

  /** ... and a run that starts a local port with delay -1 does, on a put of frame 1. */
  lemma InternalErrorIsReached<B>(coder: Coder<B>, blank: B, b: B, writeSucceeds: bool)
    ensures var su := Setup(1, {Port1}, coder, blank);
            var start := IncomingEvent(false, Some(StartGame(1, [ConnectedPort(Port1, -1)])), false, []);
            var h := Run(su, Handler(map[], [Some(start)], []), [Start]);
            PutButtons(su, h, [ButtonsFrame(Port1, 1, b)], writeSucceeds).status == InternalError
  {
    var su, ports := Setup(1, {Port1}, coder, blank), [ConnectedPort(Port1, -1)];
    var h0 := Handler(map[], [Some(IncomingEvent(false, Some(StartGame(1, ports)), false, []))], []);
    FreshStart(su, h0);
    assert [Call<B>.Start][..0] == [] && ports[0].port in PortSet(ports);
    var h := WaitForConsoleStart(su, h0).state;
    assert h.queues[ports[0].port] == NewQueue(su.localPorts, ports[0]);
    NegativeDelayIsAnInternalError(su, h, ButtonsFrame(Port1, 1, b), writeSucceeds);
  }

  /** What becomes of such a put: one accepted tuple for a local port returns
      INTERNAL_ERROR exactly if the delay there is negative, although the tuple is in
      the queue by then; nothing is sent. */
  lemma NegativeDelayIsAnInternalError<B>(su: Setup<B>, h: Handler<B>, t: ButtonsFrame<B>, writeSucceeds: bool)
    requires t.port in h.queues && t.port in su.localPorts && Accepts(h.queues[t.port], t.frame)
    ensures var put := PutButtons(su, h, [t], writeSucceeds);
            && (put.status == InternalError <==> h.queues[t.port].delay < 0)
            && t.frame + h.queues[t.port].delay in put.state.queues[t.port].buttons
            && (put.status == InternalError ==> put.state.outgoing == h.outgoing)
  {
    assert [t][1..] == [];
    assert PutTuples(su, PutTuple(su, h.queues, t).queues, [t][1..])
        == PutPass(PutTuple(su, h.queues, t).queues, [], 0, PutSuccess);
  }

  /** No run ever takes the branch marked "Probable logic error": if the read got the
      buttons, the get that follows it succeeds. */
  lemma LogicErrorIsUnreachable<B>(su: Setup<B>, incoming: seq<Read>, calls: seq<Call<B>>, port: Port, frame: int)
    ensures var h := Run(su, Handler(map[], incoming, []), calls);
            port in h.queues && port !in su.localPorts && Answer(h.queues[port], frame, su.blank) == Timeout
            && ReadUntilButtons(su, h.queues, h.incoming, port, frame).status == GotButtons
            ==> GetButtons(su, h, port, frame).status.GetSuccess?
  {
    var h := Run(su, Handler(map[], incoming, []), calls);
    AlwaysClassified(su, incoming, calls);
    if port in h.queues && port !in su.localPorts && Answer(h.queues[port], frame, su.blank) == Timeout
       && ReadUntilButtons(su, h.queues, h.incoming, port, frame).status == GotButtons {
      SecondGetSucceeds(su, h, port, frame);
    }
  }

  /** The event that a get has to wait for: the first one with the key, none of the
      key presses up to it being refused by the queues. */
  ghost predicate ArrivesAt<B>(su: Setup<B>, h: Handler<B>, port: Port, frame: int, m: nat) {
    && FirstHit(h.incoming, port, frame, m)
    && ApplyKeys(su, h.queues, Keys(h.incoming[..m])).error.None?
  }

  /** A get of a remote port succeeds exactly if it is for the next frame and that is
      in the initial delay, pending, or still to arrive. */
  lemma RemoteGetSucceedsIff<B>(su: Setup<B>, h: Handler<B>, port: Port, frame: int)
    requires Classified(su, h.queues) && port in h.queues && port !in su.localPorts
    ensures var q := h.queues[port];
            GetButtons(su, h, port, frame).status.GetSuccess?
            <==> frame == q.latest + 1
                 && (frame < q.initial || frame in q.buttons || exists m :: ArrivesAt(su, h, port, frame, m))
  {
    var q := h.queues[port];
    if Answer(q, frame, su.blank) == Timeout {
      if ReadUntilButtons(su, h.queues, h.incoming, port, frame).status == GotButtons {
        var m := GotIsFirstHit(su, h.queues, h.incoming, port, frame);
        assert ArrivesAt(su, h, port, frame, m);
        SecondGetSucceeds(su, h, port, frame);
      } else if m :| ArrivesAt(su, h, port, frame, m) {
        FirstHitIsGot(su, h.queues, h.incoming, port, frame, m);
      }
    }
  }

  /** What it then hands out for a frame that had yet to arrive: the decoded key. The
      stream goes on with the next event, and everything read is in the queues except
      for the frame that was taken. */
  lemma RemoteGetDecodesTheKey<B>(su: Setup<B>, h: Handler<B>, port: Port, frame: int, m: nat, key: KeyState)
    requires Classified(su, h.queues) && port in h.queues && port !in su.localPorts
    requires Answer(h.queues[port], frame, su.blank) == Timeout && ArrivesAt(su, h, port, frame, m)
    requires key in Keys(h.incoming[..m]) && key.port == port && key.frame == frame
    ensures var get := GetButtons(su, h, port, frame);
            && get.status.GetSuccess? && su.coder.Decode(key.pad) == Some(get.status.buttons)
            && var queues := InsertAll(h.queues, DecodedKeys(su, Keys(h.incoming[..m])));
               && port in queues
               && var q := queues[port];
                  get.state == Handler(queues[port := q.(latest := frame, buttons := q.buttons - {frame})],
                                       h.incoming[m..], h.outgoing)
  {
    var keys := Keys(h.incoming[..m]);
    var i :| 0 <= i < |keys| && keys[i] == key;
    FirstHitIsGot(su, h.queues, h.incoming, port, frame, m);
    AppliedKeysArePending(su, h.queues, keys, i);
    ApplyKeysOnlyAdds(su, h.queues, keys);
    var k := KeysStopAtFirstRefused(su, h.queues, keys);
    assert keys[..k] == keys;
  }

  /** Exactly the ports without a queue are unknown, and asking for one changes nothing. */
  lemma UnknownPorts<B>(su: Setup<B>, h: Handler<B>, port: Port, frame: int)
    ensures GetButtons(su, h, port, frame).status == GetNoSuchPort <==> port !in h.queues
    ensures port !in h.queues ==> GetButtons(su, h, port, frame).state == h
  {
    if port in h.queues && port !in su.localPorts {
      var read := ReadUntilButtons(su, h.queues, h.incoming, port, frame);
      assert GetNow(su, h, port, frame).status != GetNoSuchPort;
      assert GetNow(su, h.(queues := read.queues, incoming := read.incoming), port, frame).status != GetNoSuchPort;
    }
  }

  /** The gets of a connected port that never read: the next frame, if it is there, is
      handed out and nothing else changes; a frame that is not the next one, and one
      that is absent from a local queue, fails and changes nothing at all. */
  lemma GetWithoutReading<B>(su: Setup<B>, h: Handler<B>, port: Port, frame: int)
    requires port in h.queues
    ensures var q, get := h.queues[port], GetButtons(su, h, port, frame);
            && (frame != q.latest + 1 ==> get == GetOutcome(h, GetFailure))
            && (frame == q.latest + 1 && frame < q.initial ==>
                  get == GetOutcome(h.(queues := h.queues[port := q.(latest := frame)]), GetSuccess(su.blank)))
            && (frame == q.latest + 1 && q.initial <= frame && frame in q.buttons ==>
                  get == GetOutcome(
                    h.(queues := h.queues[port := q.(latest := frame, buttons := q.buttons - {frame})]),
                    GetSuccess(q.buttons[frame])))
            && (frame == q.latest + 1 && q.initial <= frame && frame !in q.buttons && port in su.localPorts ==>
                  get == GetOutcome(h, GetFailure))
  {
    assert h.queues[port := h.queues[port]] == h.queues;
  }

  /** Any other get of a remote port reads. If it fails, it leaves the queues and the
      rest of the stream as the read did that failed, and says so. */
  lemma FailedRemoteGet<B>(su: Setup<B>, h: Handler<B>, port: Port, frame: int)
      returns (m: nat, cause: ReadStatus)
    requires Classified(su, h.queues) && port in h.queues && port !in su.localPorts
    requires frame == h.queues[port].latest + 1 && !GetButtons(su, h, port, frame).status.GetSuccess?
    ensures var get := GetButtons(su, h, port, frame);
            && get.status == GetFailure && get.state.outgoing == h.outgoing
            && Explains(su, h.queues, h.incoming, port, frame, m,
                        ReadOutcome(get.state.queues, get.state.incoming, cause))
  {
    var read := ReadUntilButtons(su, h.queues, h.incoming, port, frame);
    cause := read.status;
    if cause == GotButtons {
      SecondGetSucceeds(su, h, port, frame);
    } else {
      m := NotGotIsExplained(su, h.queues, h.incoming, port, frame);
    }
  }

  // ---------------------------------------------------------------------------
  // The queues and the wire agree

  /** Everything that was handed to the stream, whether or not the write succeeded. */
  function Written(writes: seq<Write>): seq<KeyState> {
    if writes == [] then [] else Written(writes[..|writes| - 1]) + writes[|writes| - 1].keys
  }

  /** The tuples of all puts of a run, in order. */
  function PutSoFar<B>(calls: seq<Call<B>>): seq<ButtonsFrame<B>> {
    if calls == [] then []
    else PutSoFar(calls[..|calls| - 1]) + PutBy(calls[|calls| - 1])
  }

  function PutBy<B>(call: Call<B>): seq<ButtonsFrame<B>> {
    match call case Put(tuples, _) => tuples case _ => []
  }

  ghost predicate NoRestart<B>(calls: seq<Call<B>>) {
    forall i | 0 <= i < |calls| :: !calls[i].Start?
  }

  ghost predicate AllPutsSucceed<B>(su: Setup<B>, h: Handler<B>, calls: seq<Call<B>>) {
    forall i | 0 <= i < |calls| && calls[i].Put? ::
      PutButtons(su, Run(su, h, calls[..i]), calls[i].tuples, calls[i].writeSucceeds).status == PutSuccess
  }

  lemma {:induction false} WireKeysConcat<B>(
      su: Setup<B>, delays: Port -> int, a: seq<ButtonsFrame<B>>, b: seq<ButtonsFrame<B>>)
    ensures WireKeys(su, delays, a + b) == WireKeys(su, delays, a) + WireKeys(su, delays, b)
  {
    if a == [] {
      assert a + b == b;
    } else {
      assert (a + b)[1..] == a[1..] + b;
      WireKeysConcat(su, delays, a[1..], b);
    }
  }

  /** What the puts of a run announce, each with the shifts in force when it is made. */
  ghost function Announcements<B>(su: Setup<B>, h: Handler<B>, calls: seq<Call<B>>): seq<KeyState> {
    if calls == [] then []
    else
      var prefix, last := calls[..|calls| - 1], calls[|calls| - 1];
      Announcements(su, h, prefix) + WireKeys(su, Shifts(Run(su, h, prefix)), PutBy(last))
  }

  lemma CallAgrees<B>(su: Setup<B>, h: Handler<B>, call: Call<B>)
    requires call.Put? ==> PutButtons(su, h, call.tuples, call.writeSucceeds).status == PutSuccess
    ensures Written(Do(su, h, call).outgoing) == Written(h.outgoing) + WireKeys(su, Shifts(h), PutBy(call))
  {
    match call
    case Start =>
    case Put(tuples, writeSucceeds) =>
      PutWrites(su, h, tuples, writeSucceeds);
      BatchKeysAreWireKeys(su, h.queues, Shifts(h), tuples);
    case Get(port, frame) =>
      GetKeepsShape(su, h, port, frame);
  }

  lemma Regrouped<T>(a: seq<T>, b: seq<T>, c: seq<T>)
    ensures a + b + c == a + (b + c)
  {
  }

  /** As long as every put succeeds, the keys written are exactly the local tuples that
      entered the queues, in order, shifted by their port's delay; restarts, which may
      change delays, can come anywhere in between. */
  lemma {:induction false} WireAgreesWithQueues<B>(su: Setup<B>, h: Handler<B>, calls: seq<Call<B>>)
    requires AllPutsSucceed(su, h, calls)
    ensures Written(Run(su, h, calls).outgoing) == Written(h.outgoing) + Announcements(su, h, calls)
  {
    if calls != [] {
      var prefix, last := calls[..|calls| - 1], calls[|calls| - 1];
      AlsoOfThePrefix(su, h, calls);
      WireAgreesWithQueues(su, h, prefix);
      CallAgrees(su, Run(su, h, prefix), last);
      Regrouped(Written(h.outgoing), Announcements(su, h, prefix),
                WireKeys(su, Shifts(Run(su, h, prefix)), PutBy(last)));
    }
  }

  lemma AlsoOfThePrefix<B>(su: Setup<B>, h: Handler<B>, calls: seq<Call<B>>)
    requires calls != [] && AllPutsSucceed(su, h, calls)
    ensures var prefix, last := calls[..|calls| - 1], calls[|calls| - 1];
            && AllPutsSucceed(su, h, prefix)
            && (last.Put? ==> PutButtons(su, Run(su, h, prefix), last.tuples, last.writeSucceeds).status == PutSuccess)
  {
    var prefix := calls[..|calls| - 1];
    forall i | 0 <= i < |prefix| ensures calls[..i] == prefix[..i] {
    }
  }

  /** Between two starts the delays stay as they are, and so the keys are those of all
      tuples put, each port shifted by one and the same delay. */
  lemma {:induction false} OneGameHasOneShift<B>(su: Setup<B>, h: Handler<B>, calls: seq<Call<B>>)
    requires NoRestart(calls)
    ensures SameShape(h.queues, Run(su, h, calls).queues)
    ensures Announcements(su, h, calls) == WireKeys(su, Shifts(h), PutSoFar(calls))
  {
    if calls != [] {
      var prefix, last := calls[..|calls| - 1], calls[|calls| - 1];
      OneGameHasOneShift(su, h, prefix);
      WireKeysConcat(su, Shifts(h), PutSoFar(prefix), PutBy(last));
      SameShifts(su, Shifts(h), Shifts(Run(su, h, prefix)), PutBy(last));
      CallKeepsShape(su, Run(su, h, prefix), last);
    }
  }

  lemma CallKeepsShape<B>(su: Setup<B>, h: Handler<B>, call: Call<B>)
    requires !call.Start?
    ensures SameShape(h.queues, Do(su, h, call).queues)
  {
    match call
    case Put(tuples, _) => PutTuplesOnlyAdds(su, h.queues, tuples);
    case Get(port, frame) => GetKeepsShape(su, h, port, frame);
  }

  lemma {:induction false} SameShifts<B>(
      su: Setup<B>, delays: Port -> int, delays': Port -> int, tuples: seq<ButtonsFrame<B>>)
    requires forall p :: delays(p) == delays'(p)
    ensures WireKeys(su, delays, tuples) == WireKeys(su, delays', tuples)
  {
    if tuples != [] {
      SameShifts(su, delays, delays', tuples[1..]);
    }
  }

  /** A put that succeeds, or fails only in the write, hands its keys to the stream;
      every other failing put hands nothing to it. */
  lemma PutWrites<B>(su: Setup<B>, h: Handler<B>, tuples: seq<ButtonsFrame<B>>, writeSucceeds: bool)
    ensures var put := PutButtons(su, h, tuples, writeSucceeds);
            && Written(put.state.outgoing)
               == Written(h.outgoing)
                  + (if put.status == PutSuccess || put.status == FailedToTransmitRemote
                     then PutTuples(su, h.queues, tuples).keys else [])
            && put.state.incoming == h.incoming
  {
    var pass := PutTuples(su, h.queues, tuples);
    var k := BatchStopsAtFirstCause(su, h.queues, tuples);
    var write := Write(pass.keys, writeSucceeds);
    assert (h.outgoing + [write])[..|h.outgoing|] == h.outgoing;
  }
}
