/** N clients joined by a relay that nobody vouches for.

    The server is not part of the repository. What is asked of it here is only
    that every client is started with the same list of ports, that the clients'
    local ports are disjoint, and that every key it delivers was written by some
    client and is not for a port of the receiver. It may lose, duplicate, delay,
    reorder and regroup keys, and end any stream. */
module Lockstep {
  import opened NetplayTypes
  import opened DelayLine
  import opened HandlerModel
  import opened HandlerResults
  import opened HandlerRuns

  datatype Config<!B> = Config(
    consoleId: int, coder: Coder<B>, blank: B, ports: seq<ConnectedPort>, locals: seq<set<Port>>)

  ghost predicate ValidConfig<B(!new)>(cfg: Config<B>) {
    && 0 < cfg.consoleId && RoundTrips(cfg.coder)
    && (forall c | 0 <= c < |cfg.locals| :: WellFormed(cfg.locals[c], cfg.ports))
    && (forall c, d | 0 <= c < d < |cfg.locals| :: cfg.locals[c] !! cfg.locals[d])
  }

  function SetupOf<B>(cfg: Config<B>, c: nat): Setup<B>
    requires c < |cfg.locals|
  {
    Setup(cfg.consoleId, cfg.locals[c], cfg.coder, cfg.blank)
  }

  /** The delay that the server announced for a port. */
  function Delay(ports: seq<ConnectedPort>, port: Port): int {
    if ports == [] then 0
    else if ports[0].port == port then ports[0].delayFrames
    else Delay(ports[1..], port)
  }

  /** What the owner of a port put for one of its own frames. */
  datatype Slot = Slot(port: Port, frame: int)

  datatype Obtained<B> = Obtained(port: Port, frame: int, buttons: B)

  /** `puts` and `got` only observe: what owners put and clients obtained so far. */
  datatype Net<B> = Net(clients: seq<Handler<B>>, puts: map<Slot, B>, got: seq<seq<Obtained<B>>>)

  datatype Step<B> =
    | Put(c: nat, tuples: seq<ButtonsFrame<B>>, writeSucceeds: bool)
    | Deliver(c: nat, event: Read)
    | Get(c: nat, port: Port, frame: int)

  ghost predicate Deliverable<B>(cfg: Config<B>, net: Net<B>, c: nat, event: Read)
    requires c < |cfg.locals|
  {
    event.Some? ==>
      forall key <- event.value.keyPresses ::
        && key.port !in cfg.locals[c]
        && exists d :: 0 <= d < |net.clients| && key in Written(net.clients[d].outgoing)
  }

  /** Clients put on their own ports only. */
  ghost predicate Enabled<B>(cfg: Config<B>, net: Net<B>, step: Step<B>) {
    && step.c < |cfg.locals| && step.c < |net.clients| && step.c < |net.got|
    && match step
       case Put(c, tuples, _) => forall t <- tuples :: t.port in cfg.locals[c]
       case Deliver(c, event) => Deliverable(cfg, net, c, event)
       case Get(_, _, _) => true
  }

  function RecordAll<B>(puts: map<Slot, B>, tuples: seq<ButtonsFrame<B>>): map<Slot, B>
    decreases |tuples|
  {
    if tuples == [] then puts
    else RecordAll(puts[Slot(tuples[0].port, tuples[0].frame) := tuples[0].buttons], tuples[1..])
  }

  ghost function Next<B>(cfg: Config<B>, net: Net<B>, step: Step<B>): (net': Net<B>)
    ensures |net'.clients| == |net.clients| && |net'.got| == |net.got|
  {
    if !Enabled(cfg, net, step) then net
    else
      var h, su := net.clients[step.c], SetupOf(cfg, step.c);
      match step
      case Put(c, tuples, writeSucceeds) =>
        net.(clients := net.clients[c := PutButtons(su, h, tuples, writeSucceeds).state],
        puts := RecordAll(net.puts, tuples[..PutTuples(su, h.queues, tuples).queued]))
      case Deliver(c, event) =>
        net.(clients := net.clients[c := h.(incoming := h.incoming + [event])])
      case Get(c, port, frame) =>
        var get := GetButtons(su, h, port, frame);
        net.(clients := net.clients[c := get.state],
        got := match get.status
          case GetSuccess(b) => net.got[c := net.got[c] + [Obtained(port, frame, b)]]
          case _ => net.got)
  }

  /** Every client was constructed and then read the same start message. */
  function Started<B>(cfg: Config<B>, c: nat): Handler<B>
    requires c < |cfg.locals|
  {
    var start := IncomingEvent(false, Some(StartGame(cfg.consoleId, cfg.ports)), false, []);
    WaitForConsoleStart(SetupOf(cfg, c), Handler(map[], [Some(start)], [])).state
  }

  function Init<B>(cfg: Config<B>): Net<B> {
    Net(seq(|cfg.locals|, c requires 0 <= c < |cfg.locals| => Started(cfg, c)), map[], seq(|cfg.locals|, _ => []))
  }

  ghost function Exec<B>(cfg: Config<B>, net: Net<B>, steps: seq<Step<B>>): (net': Net<B>)
    ensures |net'.clients| == |net.clients| && |net'.got| == |net.got|
  {
    if steps == [] then net
    else Next(cfg, Exec(cfg, net, steps[..|steps| - 1]), steps[|steps| - 1])
  }

  // ---------------------------------------------------------------------------
  // The invariant

  /** The slot that a delay-adjusted frame of a port comes from. */
  function Origin<B>(cfg: Config<B>, port: Port, frame: int): Slot {
    Slot(port, frame - Delay(cfg.ports, port))
  }

  ghost predicate WasPut<B>(cfg: Config<B>, puts: map<Slot, B>, port: Port, frame: int) {
    Origin(cfg, port, frame) in puts
  }

  ghost predicate TrueButtons<B>(cfg: Config<B>, puts: map<Slot, B>, port: Port, frame: int, b: B) {
    WasPut(cfg, puts, port, frame) && puts[Origin(cfg, port, frame)] == b
  }

  ghost predicate TrueKey<B>(cfg: Config<B>, puts: map<Slot, B>, key: KeyState) {
    && WasPut(cfg, puts, key.port, key.frame)
    && cfg.coder.Decode(key.pad) == Some(puts[Origin(cfg, key.port, key.frame)])
  }

  ghost predicate TrueKeys<B>(cfg: Config<B>, puts: map<Slot, B>, keys: seq<KeyState>) {
    forall key <- keys :: TrueKey(cfg, puts, key)
  }

  ghost predicate TrueQueue<B>(cfg: Config<B>, puts: map<Slot, B>, local: bool, port: Port, q: QueueState<B>) {
    && QueueInv(q)
    && q.initial == Delay(cfg.ports, port)
    && q.delay == (if local then q.initial else 0)
    && forall g <- q.buttons :: TrueButtons(cfg, puts, port, g, q.buttons[g])
  }

  /** A local queue remembers, as pending or as read, every frame it ever accepted. */
  ghost predicate Remembers<B>(cfg: Config<B>, puts: map<Slot, B>, port: Port, q: QueueState<B>) {
    forall g: int | WasPut(cfg, puts, port, g) :: g <= q.latest || g in q.buttons
  }

  ghost predicate TrueQueues<B>(cfg: Config<B>, puts: map<Slot, B>, locals: set<Port>, queues: Queues<B>) {
    forall p <- queues ::
      && TrueQueue(cfg, puts, p in locals, p, queues[p])
      && (p in locals ==> Remembers(cfg, puts, p, queues[p]))
  }

  /** All key presses in the stream are true and for somebody else's port. */
  ghost predicate TrueScript<B>(cfg: Config<B>, puts: map<Slot, B>, locals: set<Port>, script: seq<Read>) {
    forall i | 0 <= i < |script| && script[i].Some? ::
      forall key <- script[i].value.keyPresses :: TrueKey(cfg, puts, key) && key.port !in locals
  }

  ghost predicate TrueOutcome<B>(cfg: Config<B>, puts: map<Slot, B>, o: Obtained<B>) {
    if o.frame < Delay(cfg.ports, o.port) then o.buttons == cfg.blank
    else TrueButtons(cfg, puts, o.port, o.frame, o.buttons)
  }

  ghost predicate ClientInv<B>(cfg: Config<B>, puts: map<Slot, B>, locals: set<Port>, h: Handler<B>) {
    && TrueQueues(cfg, puts, locals, h.queues)
    && TrueScript(cfg, puts, locals, h.incoming)
    && TrueKeys(cfg, puts, Written(h.outgoing))
  }

  ghost predicate Inv<B>(cfg: Config<B>, net: Net<B>) {
    && |net.clients| == |cfg.locals| == |net.got|
    && (forall c | 0 <= c < |net.clients| :: ClientInv(cfg, net.puts, cfg.locals[c], net.clients[c]))
    && (forall c | 0 <= c < |net.got| :: forall o <- net.got[c] :: TrueOutcome(cfg, net.puts, o))
  }

  /** What was put once is never changed. */
  ghost predicate Grows<B>(puts: map<Slot, B>, puts': map<Slot, B>) {
    forall slot <- puts :: slot in puts' && puts'[slot] == puts[slot]
  }

  // ---------------------------------------------------------------------------
  // Putting

  lemma InsertIsTrue<B>(cfg: Config<B>, puts: map<Slot, B>, port: Port, q: QueueState<B>, frame: int, b: B)
    requires TrueQueue(cfg, puts, true, port, q) && Remembers(cfg, puts, port, q) && Accepts(q, frame)
    ensures Slot(port, frame) !in puts
    ensures TrueQueue(cfg, puts[Slot(port, frame) := b], true, port, Insert(q, frame, b))
    ensures Remembers(cfg, puts[Slot(port, frame) := b], port, Insert(q, frame, b))
  {
    var puts' := puts[Slot(port, frame) := b];
    assert !WasPut(cfg, puts, port, frame + q.delay);
    forall g: int ensures WasPut(cfg, puts', port, g) <==> WasPut(cfg, puts, port, g) || g == frame + q.delay {
    }
  }

  lemma InsertKeepsTruth<B>(cfg: Config<B>, puts: map<Slot, B>, locals: set<Port>, queues: Queues<B>, t: ButtonsFrame<B>)
    requires TrueQueues(cfg, puts, locals, queues)
    requires t.port in queues && t.port in locals && Accepts(queues[t.port], t.frame)
    ensures Slot(t.port, t.frame) !in puts
    ensures TrueQueues(cfg, puts[Slot(t.port, t.frame) := t.buttons], locals, InsertInto(queues, t))
  {
    var puts' := puts[Slot(t.port, t.frame) := t.buttons];
    InsertIsTrue(cfg, puts, t.port, queues[t.port], t.frame, t.buttons);
    forall p | p in queues && p != t.port
      ensures TrueQueue(cfg, puts', p in locals, p, queues[p])
      ensures p in locals ==> Remembers(cfg, puts', p, queues[p])
    {
      assert TrueQueue(cfg, puts, p in locals, p, queues[p]);
      forall g: int ensures WasPut(cfg, puts', p, g) <==> WasPut(cfg, puts, p, g) {
      }
    }
  }

  /** The key that announces a tuple is true as soon as the tuple is recorded. */
  lemma AnnouncementIsTrue<B(!new)>(cfg: Config<B>, puts: map<Slot, B>, c: nat, queues: Queues<B>, t: ButtonsFrame<B>)
    requires ValidConfig(cfg) && c < |cfg.locals| && t.port in cfg.locals[c]
    requires TrueQueues(cfg, puts, cfg.locals[c], queues)
    ensures TrueKeys(cfg, puts[Slot(t.port, t.frame) := t.buttons], PutTuple(SetupOf(cfg, c), queues, t).keys)
  {
    if t.port in queues && Accepts(queues[t.port], t.frame) && cfg.coder.Encode(t.buttons).Some? {
      assert TrueQueue(cfg, puts, true, t.port, queues[t.port]);
      assert Origin(cfg, t.port, t.frame + queues[t.port].delay) == Slot(t.port, t.frame);
    }
  }

  /** A batch turned `puts` into `puts'`, and left these queues and keys. */
  ghost predicate BatchIsTrue<B>(
    cfg: Config<B>, puts: map<Slot, B>, puts': map<Slot, B>, locals: set<Port>, queues: Queues<B>, keys: seq<KeyState>)
  {
    && Grows(puts, puts')
    && (forall slot <- puts' :: slot in puts || slot.port in locals)
    && TrueQueues(cfg, puts', locals, queues)
    && TrueKeys(cfg, puts', keys)
  }

  lemma TupleIsTrue<B(!new)>(
      cfg: Config<B>, puts: map<Slot, B>, c: nat, queues: Queues<B>, t: ButtonsFrame<B>)
    requires ValidConfig(cfg) && c < |cfg.locals| && t.port in cfg.locals[c]
    requires TrueQueues(cfg, puts, cfg.locals[c], queues)
    ensures var one := PutTuple(SetupOf(cfg, c), queues, t);
            BatchIsTrue(cfg, puts, if one.queued == 1 then puts[Slot(t.port, t.frame) := t.buttons] else puts,
                        cfg.locals[c], one.queues, one.keys)
  {
    if PutTuple(SetupOf(cfg, c), queues, t).queued == 1 {
      InsertKeepsTruth(cfg, puts, cfg.locals[c], queues, t);
      AnnouncementIsTrue(cfg, puts, c, queues, t);
    }
  }

  lemma RecordFirst<B>(puts: map<Slot, B>, tuples: seq<ButtonsFrame<B>>, n: nat)
    requires n < |tuples|
    ensures RecordAll(puts, tuples[..0]) == puts
    ensures RecordAll(puts, tuples[..n + 1])
         == RecordAll(puts[Slot(tuples[0].port, tuples[0].frame) := tuples[0].buttons], tuples[1..][..n])
  {
    assert tuples[..n + 1][1..] == tuples[1..][..n];
  }

  lemma {:induction false} BatchKeepsTruth<B(!new)>(
      cfg: Config<B>, puts: map<Slot, B>, c: nat, queues: Queues<B>, tuples: seq<ButtonsFrame<B>>)
    requires ValidConfig(cfg) && c < |cfg.locals|
    requires TrueQueues(cfg, puts, cfg.locals[c], queues)
    requires forall t <- tuples :: t.port in cfg.locals[c]
    ensures var pass := PutTuples(SetupOf(cfg, c), queues, tuples);
            BatchIsTrue(cfg, puts, RecordAll(puts, tuples[..pass.queued]), cfg.locals[c], pass.queues, pass.keys)
    decreases |tuples|
  {
    if tuples != [] {
      var t, one := tuples[0], PutTuple(SetupOf(cfg, c), queues, tuples[0]);
      assert t in tuples;
      TupleIsTrue(cfg, puts, c, queues, t);
      RecordFirst(puts, tuples, 0);
      if one.status == PutSuccess {
        var puts1 := puts[Slot(t.port, t.frame) := t.buttons];
        var rest := PutTuples(SetupOf(cfg, c), one.queues, tuples[1..]);
        BatchKeepsTruth(cfg, puts1, c, one.queues, tuples[1..]);
        RecordFirst(puts, tuples, rest.queued);
        FirstIsTrue(cfg, puts, puts1, RecordAll(puts1, tuples[1..][..rest.queued]), cfg.locals[c],
                    rest.queues, one.keys, rest.keys);
      }
    }
  }

  lemma FirstIsTrue<B>(
      cfg: Config<B>, puts: map<Slot, B>, puts1: map<Slot, B>, puts': map<Slot, B>, locals: set<Port>,
      queues: Queues<B>, first: seq<KeyState>, keys: seq<KeyState>)
    requires Grows(puts, puts1) && (forall slot <- puts1 :: slot in puts || slot.port in locals)
    requires TrueKeys(cfg, puts1, first)
    requires BatchIsTrue(cfg, puts1, puts', locals, queues, keys)
    ensures BatchIsTrue(cfg, puts, puts', locals, queues, first + keys)
  {
    forall key <- first ensures TrueKey(cfg, puts', key) {
      assert TrueKey(cfg, puts1, key);
    }
  }

  /** Truth survives when other clients put on their own ports. */
  lemma GrowthKeepsClients<B>(cfg: Config<B>, puts: map<Slot, B>, puts': map<Slot, B>, locals: set<Port>, h: Handler<B>)
    requires ClientInv(cfg, puts, locals, h) && Grows(puts, puts')
    requires forall slot <- puts' :: slot in puts || slot.port !in locals
    ensures ClientInv(cfg, puts', locals, h)
  {
    forall p <- h.queues ensures TrueQueue(cfg, puts', p in locals, p, h.queues[p]) {
      assert TrueQueue(cfg, puts, p in locals, p, h.queues[p]);
    }
  }

  lemma PutKeepsInv<B(!new)>(cfg: Config<B>, net: Net<B>, step: Step<B>)
    requires ValidConfig(cfg) && Inv(cfg, net) && Enabled(cfg, net, step) && step.Put?
    ensures Inv(cfg, Next(cfg, net, step)) && Grows(net.puts, Next(cfg, net, step).puts)
  {
    var net', c, h := Next(cfg, net, step), step.c, net.clients[step.c];
    var su := SetupOf(cfg, c);
    BatchKeepsTruth(cfg, net.puts, c, h.queues, step.tuples);
    PutWrites(su, h, step.tuples, step.writeSucceeds);
    forall d | 0 <= d < |net'.clients| ensures ClientInv(cfg, net'.puts, cfg.locals[d], net'.clients[d]) {
      if d != c {
        assert cfg.locals[c] !! cfg.locals[d];
        GrowthKeepsClients(cfg, net.puts, net'.puts, cfg.locals[d], net.clients[d]);
      }
    }
  }

  // ---------------------------------------------------------------------------
  // Getting

  lemma {:induction false} KeysKeepTruth<B>(
      cfg: Config<B>, puts: map<Slot, B>, c: nat, queues: Queues<B>, keys: seq<KeyState>)
    requires c < |cfg.locals| && TrueQueues(cfg, puts, cfg.locals[c], queues)
    requires forall key <- keys :: TrueKey(cfg, puts, key) && key.port !in cfg.locals[c]
    ensures TrueQueues(cfg, puts, cfg.locals[c], ApplyKeys(SetupOf(cfg, c), queues, keys).queues)
    decreases |keys|
  {
    if keys != [] {
      var one := ApplyKey(SetupOf(cfg, c), queues, keys[0]);
      assert TrueKey(cfg, puts, keys[0]);
      KeysKeepTruth(cfg, puts, c, one.queues, keys[1..]);
    }
  }

  lemma ScriptTail<B>(cfg: Config<B>, puts: map<Slot, B>, locals: set<Port>, script: seq<Read>)
    requires script != [] && TrueScript(cfg, puts, locals, script)
    ensures TrueScript(cfg, puts, locals, script[1..])
  {
    forall i | 0 <= i < |script[1..]| ensures script[1..][i] == script[i + 1] {
    }
  }

  lemma {:induction false} ReadKeepsTruth<B>(
      cfg: Config<B>, puts: map<Slot, B>, c: nat, queues: Queues<B>, script: seq<Read>, port: Port, frame: int)
    requires c < |cfg.locals| && TrueQueues(cfg, puts, cfg.locals[c], queues)
    requires TrueScript(cfg, puts, cfg.locals[c], script)
    ensures var read := ReadUntilButtons(SetupOf(cfg, c), queues, script, port, frame);
            TrueQueues(cfg, puts, cfg.locals[c], read.queues) && TrueScript(cfg, puts, cfg.locals[c], read.incoming)
    decreases |script|
  {
    if script != [] {
      ScriptTail(cfg, puts, cfg.locals[c], script);
    }
    if script != [] && ButtonEvent(script[0]) {
      var su, keys := SetupOf(cfg, c), script[0].value.keyPresses;
      KeysKeepTruth(cfg, puts, c, queues, keys);
      if ApplyKeys(su, queues, keys).error.None? && !HasKey(keys, port, frame) {
        ReadKeepsTruth(cfg, puts, c, ApplyKeys(su, queues, keys).queues, script[1..], port, frame);
      }
    }
  }

  lemma AfterGetIsTrue<B>(cfg: Config<B>, puts: map<Slot, B>, local: bool, port: Port, q: QueueState<B>, frame: int)
    requires TrueQueue(cfg, puts, local, port, q)
    ensures TrueQueue(cfg, puts, local, port, AfterGet(q, frame))
    ensures Remembers(cfg, puts, port, q) ==> Remembers(cfg, puts, port, AfterGet(q, frame))
    ensures match Answer(q, frame, cfg.blank)
            case Success(b) => TrueOutcome(cfg, puts, Obtained(port, frame, b))
            case _ => true
  {
  }

  lemma GetNowKeepsTruth<B>(cfg: Config<B>, puts: map<Slot, B>, c: nat, h: Handler<B>, port: Port, frame: int)
    requires c < |cfg.locals| && TrueQueues(cfg, puts, cfg.locals[c], h.queues) && port in h.queues
    ensures var get := GetNow(SetupOf(cfg, c), h, port, frame);
            && TrueQueues(cfg, puts, cfg.locals[c], get.state.queues)
            && (get.status.GetSuccess? ==> TrueOutcome(cfg, puts, Obtained(port, frame, get.status.buttons)))
  {
    AfterGetIsTrue(cfg, puts, port in cfg.locals[c], port, h.queues[port], frame);
  }

  lemma GetKeepsTruth<B>(cfg: Config<B>, puts: map<Slot, B>, c: nat, h: Handler<B>, port: Port, frame: int)
    requires c < |cfg.locals| && ClientInv(cfg, puts, cfg.locals[c], h)
    ensures var get := GetButtons(SetupOf(cfg, c), h, port, frame);
            && ClientInv(cfg, puts, cfg.locals[c], get.state)
            && (get.status.GetSuccess? ==> TrueOutcome(cfg, puts, Obtained(port, frame, get.status.buttons)))
  {
    if port in h.queues {
      var su := SetupOf(cfg, c);
      var read := ReadUntilButtons(su, h.queues, h.incoming, port, frame);
      ReadKeepsTruth(cfg, puts, c, h.queues, h.incoming, port, frame);
      GetNowKeepsTruth(cfg, puts, c, h, port, frame);
      GetNowKeepsTruth(cfg, puts, c, h.(queues := read.queues, incoming := read.incoming), port, frame);
    }
  }

  // ---------------------------------------------------------------------------
  // Every step, every run

  lemma DeliverKeepsInv<B>(cfg: Config<B>, net: Net<B>, step: Step<B>)
    requires Inv(cfg, net) && Enabled(cfg, net, step) && step.Deliver?
    ensures Inv(cfg, Next(cfg, net, step))
  {
    var net' := Next(cfg, net, step);
    if step.event.Some? {
      forall key <- step.event.value.keyPresses ensures TrueKey(cfg, net.puts, key) {
        var d :| 0 <= d < |net.clients| && key in Written(net.clients[d].outgoing);
        assert ClientInv(cfg, net.puts, cfg.locals[d], net.clients[d]);
      }
    }
    assert ClientInv(cfg, net.puts, cfg.locals[step.c], net.clients[step.c]);
    assert ClientInv(cfg, net.puts, cfg.locals[step.c], net'.clients[step.c]);
  }

  lemma NextKeepsInv<B(!new)>(cfg: Config<B>, net: Net<B>, step: Step<B>)
    requires ValidConfig(cfg) && Inv(cfg, net)
    ensures Inv(cfg, Next(cfg, net, step)) && Grows(net.puts, Next(cfg, net, step).puts)
  {
    if Enabled(cfg, net, step) {
      match step
      case Put(_, _, _) => PutKeepsInv(cfg, net, step);
      case Deliver(_, _) => DeliverKeepsInv(cfg, net, step);
      case Get(c, port, frame) => GetKeepsTruth(cfg, net.puts, c, net.clients[c], port, frame);
    }
  }

  lemma {:induction false} DelayIsListed(ports: seq<ConnectedPort>, i: nat)
    requires i < |ports| && forall j, k | 0 <= j < k < |ports| :: ports[j].port != ports[k].port
    ensures Delay(ports, ports[i].port) == ports[i].delayFrames
  {
    if i > 0 {
      assert ports[1..][i - 1] == ports[i];
      assert ports[0].port != ports[i].port;
      DelayIsListed(ports[1..], i - 1);
    }
  }

  lemma InitInv<B(!new)>(cfg: Config<B>)
    requires ValidConfig(cfg)
    ensures Inv(cfg, Init(cfg))
  {
    forall c | 0 <= c < |cfg.locals|
      ensures ClientInv(cfg, map[], cfg.locals[c], Started(cfg, c))
    {
      ConnectDescribed<B>(cfg.locals[c], map[], cfg.ports);
      var queues := Connect<B>(cfg.locals[c], map[], cfg.ports);
      forall p <- queues ensures TrueQueue(cfg, map[], p in cfg.locals[c], p, queues[p]) {
        var i :| 0 <= i < |cfg.ports| && cfg.ports[i].port == p;
        DelayIsListed(cfg.ports, i);
      }
      assert Started(cfg, c) == Handler(queues, [], []);
    }
  }

  lemma {:induction false} ExecKeepsInv<B(!new)>(cfg: Config<B>, net: Net<B>, steps: seq<Step<B>>)
    requires ValidConfig(cfg) && Inv(cfg, net)
    ensures Inv(cfg, Exec(cfg, net, steps)) && Grows(net.puts, Exec(cfg, net, steps).puts)
  {
    if steps != [] {
      ExecKeepsInv(cfg, net, steps[..|steps| - 1]);
      NextKeepsInv(cfg, Exec(cfg, net, steps[..|steps| - 1]), steps[|steps| - 1]);
    }
  }

  // ---------------------------------------------------------------------------
  // Main results

  /** Whatever a client obtains for a frame of a port is the blank during the port's
      initial delay, and otherwise what the owner put that many frames earlier. */
  lemma ObtainedIsWhatTheOwnerPut<B(!new)>(cfg: Config<B>, steps: seq<Step<B>>, c: nat, i: nat)
    requires ValidConfig(cfg) && c < |cfg.locals|
    requires i < |Exec(cfg, Init(cfg), steps).got[c]|
    ensures var net := Exec(cfg, Init(cfg), steps);
            var o, delay := net.got[c][i], Delay(cfg.ports, net.got[c][i].port);
            if o.frame < delay then o.buttons == cfg.blank
            else Slot(o.port, o.frame - delay) in net.puts && o.buttons == net.puts[Slot(o.port, o.frame - delay)]
  {
    ExecGotIsTrue(cfg, steps, c, i);
  }

  lemma ExecGotIsTrue<B(!new)>(cfg: Config<B>, steps: seq<Step<B>>, c: nat, i: nat)
    requires ValidConfig(cfg) && c < |cfg.locals|
    requires i < |Exec(cfg, Init(cfg), steps).got[c]|
    ensures var net := Exec(cfg, Init(cfg), steps); TrueOutcome(cfg, net.puts, net.got[c][i])
  {
    InitInv(cfg);
    ExecKeepsInv(cfg, Init(cfg), steps);
    GotIsTrue(cfg, Exec(cfg, Init(cfg), steps), c, i);
  }

  lemma GotIsTrue<B>(cfg: Config<B>, net: Net<B>, c: nat, i: nat)
    requires Inv(cfg, net) && c < |cfg.locals| && i < |net.got[c]|
    ensures TrueOutcome(cfg, net.puts, net.got[c][i])
  {
    assert net.got[c][i] in net.got[c];
  }

  /** Lockstep: two clients that both obtained buttons for the same frame of the same
      port obtained the same buttons, also at different times of the run. */
  lemma LockstepAgreement<B(!new)>(
      cfg: Config<B>, steps: seq<Step<B>>, later: seq<Step<B>>, c: nat, i: nat, d: nat, j: nat)
    requires ValidConfig(cfg) && c < |cfg.locals| && d < |cfg.locals|
    requires var net := Exec(cfg, Init(cfg), steps);
             var net' := Exec(cfg, net, later);
             && i < |net.got[c]| && j < |net'.got[d]|
             && net.got[c][i].port == net'.got[d][j].port && net.got[c][i].frame == net'.got[d][j].frame
    ensures var net := Exec(cfg, Init(cfg), steps);
            net.got[c][i].buttons == Exec(cfg, net, later).got[d][j].buttons
  {
    InitInv(cfg);
    ExecKeepsInv(cfg, Init(cfg), steps);
    var net := Exec(cfg, Init(cfg), steps);
    ExecKeepsInv(cfg, net, later);
    var net' := Exec(cfg, net, later);
    assert net.got[c][i] in net.got[c] && net'.got[d][j] in net'.got[d];
  }
}
