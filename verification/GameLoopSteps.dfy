/** Every move of the game loop keeps its invariant. */
module GameLoopSteps {
  import opened NetplayTypes
  import opened DelayLine
  import opened HandlerModel
  import opened HandlerResults
  import opened Lockstep
  import opened GameLoop

  // ---------------------------------------------------------------------------
  // Fresh keys are taken in without an error

  /** Keys that the queues will accept one after the other. */
  ghost predicate Fresh<B>(su: Setup<B>, queues: Queues<B>, keys: seq<KeyState>) {
    NoDuplicates(keys) && forall i | 0 <= i < |keys| :: FreshKey(su, queues, keys[i])
  }

  ghost predicate FreshKey<B>(su: Setup<B>, queues: Queues<B>, key: KeyState) {
    && key.port in queues && queues[key.port].delay == 0
    && su.coder.Decode(key.pad).Some?
    && Accepts(queues[key.port], key.frame)
  }

  lemma {:induction false} FreshKeysApply<B>(su: Setup<B>, queues: Queues<B>, keys: seq<KeyState>)
    requires Fresh(su, queues, keys)
    ensures var pass := ApplyKeys(su, queues, keys);
            && pass.error.None?
            && forall p <- queues, g: int ::
                 g in pass.queues[p].buttons <==> g in queues[p].buttons || HasKey(keys, p, g)
    decreases |keys|
  {
    if keys != [] {
      var one, rest := ApplyKey(su, queues, keys[0]).queues, keys[1..];
      FreshKeyApplies(su, queues, keys);
      FreshKeysApply(su, one, rest);
      forall p <- queues, g: int
        ensures HasKey(keys, p, g) <==> HasKey(rest, p, g) || (keys[0].port == p && keys[0].frame == g)
      {
        FirstKey(keys, p, g);
      }
    }
  }

  lemma FirstKey(keys: seq<KeyState>, p: Port, g: int)
    requires keys != []
    ensures HasKey(keys, p, g) <==> HasKey(keys[1..], p, g) || (keys[0].port == p && keys[0].frame == g)
  {
    HasKeyConcat([keys[0]], keys[1..], p, g);
    assert [keys[0]] + keys[1..] == keys && [keys[0]][0] == keys[0];
  }

  lemma FreshKeyApplies<B>(su: Setup<B>, queues: Queues<B>, keys: seq<KeyState>)
    requires keys != [] && Fresh(su, queues, keys)
    ensures var key, one := keys[0], ApplyKey(su, queues, keys[0]);
            && one.error.None? && Fresh(su, one.queues, keys[1..])
            && forall p <- queues, g: int ::
                 g in one.queues[p].buttons <==> g in queues[p].buttons || (key.port == p && key.frame == g)
  {
    var one, rest := ApplyKey(su, queues, keys[0]).queues, keys[1..];
    forall i | 0 <= i < |rest| ensures FreshKey(su, one, rest[i]) {
      assert rest[i] == keys[i + 1] && FreshKey(su, queues, keys[i + 1]);
    }
    assert forall i, j | 0 <= i < j < |rest| :: rest[i] == keys[i + 1] && rest[j] == keys[j + 1];
  }

  lemma DuplicatesSplit(a: seq<KeyState>, b: seq<KeyState>)
    requires NoDuplicates(a + b)
    ensures NoDuplicates(a) && NoDuplicates(b)
    ensures forall p, g :: !(HasKey(a, p, g) && HasKey(b, p, g))
  {
    assert forall i | 0 <= i < |a| :: (a + b)[i] == a[i];
    assert forall i | 0 <= i < |b| :: (a + b)[|a| + i] == b[i];
  }

  lemma FreshSplits<B>(su: Setup<B>, queues: Queues<B>, a: seq<KeyState>, b: seq<KeyState>)
    requires Fresh(su, queues, a + b)
    ensures Fresh(su, queues, a) && Fresh(su, ApplyKeys(su, queues, a).queues, b)
    ensures forall p, g :: !(HasKey(a, p, g) && HasKey(b, p, g))
  {
    DuplicatesSplit(a, b);
    forall i | 0 <= i < |a| ensures FreshKey(su, queues, a[i]) {
      assert (a + b)[i] == a[i];
    }
    FreshKeysApply(su, queues, a);
    ApplyKeysOnlyAdds(su, queues, a);
    forall j | 0 <= j < |b| ensures FreshKey(su, ApplyKeys(su, queues, a).queues, b[j]) {
      assert (a + b)[|a| + j] == b[j] && FreshKey(su, queues, b[j]);
      assert HasKey(b, b[j].port, b[j].frame);
    }
  }

  /** A stream of fresh button events that has the key lets the read succeed. */
  lemma {:induction false} FreshReadGets<B>(su: Setup<B>, queues: Queues<B>, script: seq<Read>, port: Port, frame: int)
    requires forall i | 0 <= i < |script| :: ButtonEvent(script[i])
    requires Fresh(su, queues, Keys(script)) && HasKey(Keys(script), port, frame)
    ensures ReadUntilButtons(su, queues, script, port, frame).status == GotButtons
    decreases |script|
  {
    var keys, rest := script[0].value.keyPresses, script[1..];
    FreshSplits(su, queues, keys, Keys(rest));
    FreshKeysApply(su, queues, keys);
    HasKeyConcat(keys, Keys(rest), port, frame);
    if !HasKey(keys, port, frame) {
      forall i | 0 <= i < |rest| ensures ButtonEvent(rest[i]) {
        assert rest[i] == script[i + 1];
      }
      FreshReadGets(su, ApplyKeys(su, queues, keys).queues, rest, port, frame);
    }
  }

  // ---------------------------------------------------------------------------
  // Getting

  ghost predicate Forward<B>(cfg: Config<B>) {
    forall p <- PortSet(cfg.ports) :: 0 <= D(cfg, p)
  }

  lemma PlayableIsForward<B(!new)>(cfg: Config<B>)
    requires Playable(cfg)
    ensures Forward(cfg)
  {
    forall p <- PortSet(cfg.ports) ensures 0 <= D(cfg, p) {
      DelayIsNotNegative(cfg, p);
    }
  }

  lemma DelayIsNotNegative<B(!new)>(cfg: Config<B>, p: Port)
    requires Playable(cfg) && p in PortSet(cfg.ports)
    ensures 0 <= D(cfg, p)
  {
    var i :| 0 <= i < |cfg.ports| && cfg.ports[i].port == p;
    var o := Owner(cfg, p);
    assert WellFormed(cfg.locals[o], cfg.ports);
    DelayIsListed(cfg.ports, i);
  }

  /** Whatever is in the stream will be accepted. */
  lemma StreamIsFresh<B>(cfg: Config<B>, c: nat, player: Player<B>, transit: set<KeyState>, puts: map<Port, nat>)
    requires Forward(cfg) && c < |cfg.locals| && View(cfg, c, player, transit, puts)
    ensures Fresh(SetupOf(cfg, c), player.h.queues, Keys(player.h.incoming))
  {
    var keys := Keys(player.h.incoming);
    forall i | 0 <= i < |keys| ensures FreshKey(SetupOf(cfg, c), player.h.queues, keys[i]) {
      assert keys[i] in keys && KeyOk(cfg, c, keys[i]);
      OpenKeyIsFresh(cfg, c, player, transit, puts, keys[i]);
    }
  }

  lemma OpenKeyIsFresh<B>(
      cfg: Config<B>, c: nat, player: Player<B>, transit: set<KeyState>, puts: map<Port, nat>, key: KeyState)
    requires c < |cfg.locals| && View(cfg, c, player, transit, puts)
    requires KeyOk(cfg, c, key) && 0 <= D(cfg, key.port) && HasKey(Keys(player.h.incoming), key.port, key.frame)
    ensures FreshKey(SetupOf(cfg, c), player.h.queues, key)
  {
    var p := key.port;
    assert QueueOk(cfg, c, player, p);
    assert PortOk(cfg, player.h.queues[p], Keys(player.h.incoming), transit, p, puts[p]);
  }

  /** A fresh stream that has the key is read up to it: a goes into the queues, b stays. */
  lemma ReadSplitsStream<B>(su: Setup<B>, queues: Queues<B>, script: seq<Read>, port: Port, frame: int)
      returns (m: nat, a: seq<KeyState>, b: seq<KeyState>)
    requires forall i | 0 <= i < |script| :: ButtonEvent(script[i])
    requires Fresh(su, queues, Keys(script)) && HasKey(Keys(script), port, frame)
    ensures m <= |script| && b == Keys(script[m..]) && Keys(script) == a + b
    ensures Fresh(su, queues, a) && HasKey(a, port, frame)
    ensures ReadUntilButtons(su, queues, script, port, frame)
         == ReadOutcome(ApplyKeys(su, queues, a).queues, script[m..], GotButtons)
    ensures forall p, g :: !(HasKey(a, p, g) && HasKey(b, p, g))
  {
    FreshReadGets(su, queues, script, port, frame);
    m := GotIsFirstHit(su, queues, script, port, frame);
    a, b := Keys(script[..m]), Keys(script[m..]);
    assert script == script[..m] + script[m..];
    KeysConcat(script[..m], script[m..]);
    FreshSplits(su, queues, a, b);
    FirstHitHasKey(script, port, frame, m);
  }

  /** Reading for a frame that is in the stream gets it and keeps everything in order. */
  lemma ReadKeepsView<B>(
      cfg: Config<B>, c: nat, player: Player<B>, transit: set<KeyState>, puts: map<Port, nat>, port: Port)
    requires Forward(cfg) && c < |cfg.locals| && View(cfg, c, player, transit, puts)
    requires HasKey(Keys(player.h.incoming), port, player.frame) && port in player.h.queues
    ensures var read := ReadUntilButtons(SetupOf(cfg, c), player.h.queues, player.h.incoming, port, player.frame);
            && read.status == GotButtons
            && View(cfg, c, player.(h := player.h.(queues := read.queues, incoming := read.incoming)), transit, puts)
            && read.queues[port].latest == player.h.queues[port].latest
            && player.frame in read.queues[port].buttons
  {
    var su, h := SetupOf(cfg, c), player.h;
    StreamIsFresh(cfg, c, player, transit, puts);
    var m, a, b := ReadSplitsStream(su, h.queues, h.incoming, port, player.frame);
    FreshKeysApply(su, h.queues, a);
    ApplyKeysOnlyAdds(su, h.queues, a);
    var queues' := ApplyKeys(su, h.queues, a).queues;
    var player' := player.(h := h.(queues := queues', incoming := h.incoming[m..]));
    forall p <- puts ensures PortOk(cfg, queues'[p], b, transit, p, puts[p]) {
      ReadKeepsPort(cfg, h.queues[p], queues'[p], a, b, transit, p, puts[p]);
    }
    ReadKeepsPlayer(cfg, c, player, player', a, b, m);
  }

  lemma ReadKeepsPlayer<B>(
      cfg: Config<B>, c: nat, player: Player<B>, player': Player<B>, a: seq<KeyState>, b: seq<KeyState>, m: nat)
    requires c < |cfg.locals| && PlayerOk(cfg, c, player) && m <= |player.h.incoming|
    requires OnlyPendingDiffers(player.h.queues, player'.h.queues)
    requires forall p <- player.h.queues | QueueInv(player.h.queues[p]) :: QueueInv(player'.h.queues[p])
    requires player' == player.(h := player.h.(queues := player'.h.queues, incoming := player.h.incoming[m..]))
    requires Keys(player.h.incoming) == a + b && Keys(player'.h.incoming) == b
    ensures PlayerOk(cfg, c, player')
  {
    DuplicatesSplit(a, b);
    forall key <- b ensures KeyOk(cfg, c, key) {
      assert key in a + b;
    }
    forall p <- player'.h.queues ensures QueueOk(cfg, c, player', p) {
      assert QueueOk(cfg, c, player, p);
    }
  }

  /** Frames move from the stream into the queue. */
  lemma ReadKeepsPort<B>(
      cfg: Config<B>, q: QueueState<B>, q': QueueState<B>, a: seq<KeyState>, b: seq<KeyState>,
      transit: set<KeyState>, p: Port, puts: nat)
    requires PortOk(cfg, q, a + b, transit, p, puts)
    requires q'.latest == q.latest && forall g: int :: g in q'.buttons <==> g in q.buttons || HasKey(a, p, g)
    requires forall g: int :: !(HasKey(a, p, g) && HasKey(b, p, g))
    ensures PortOk(cfg, q', b, transit, p, puts)
  {
    forall g: int ensures HasKey(a + b, p, g) <==> HasKey(a, p, g) || HasKey(b, p, g) {
      HasKeyConcat(a, b, p, g);
    }
  }

  lemma FirstHitHasKey(script: seq<Read>, port: Port, frame: int, m: nat)
    requires FirstHit(script, port, frame, m)
    ensures HasKey(Keys(script[..m]), port, frame)
  {
    assert script[..m] == script[..m - 1] + [script[m - 1]];
    KeysConcat(script[..m - 1], [script[m - 1]]);
    assert Keys([script[m - 1]]) == script[m - 1].value.keyPresses;
    HasKeyConcat(Keys(script[..m - 1]), script[m - 1].value.keyPresses, port, frame);
  }

  /** Taking the buttons of the player's frame, which are there. */
  lemma TakeKeepsView<B>(
      cfg: Config<B>, c: nat, player: Player<B>, transit: set<KeyState>, puts: map<Port, nat>, port: Port)
    requires c < |cfg.locals| && View(cfg, c, player, transit, puts)
    requires player.put && port in player.todo
    requires Answers(player.h.queues[port], player.frame)
    ensures var get := GetNow(SetupOf(cfg, c), player.h, port, player.frame);
            && get.status.GetSuccess?
            && View(cfg, c, player.(h := get.state, todo := player.todo - {port}), transit, puts)
  {
    var get := GetNow(SetupOf(cfg, c), player.h, port, player.frame);
    TakeKeepsPlayer(cfg, c, player, port);
    forall p <- puts
      ensures PortOk(cfg, get.state.queues[p], Keys(player.h.incoming), transit, p, puts[p])
    {
      if p == port {
        assert QueueOk(cfg, c, player, p);
        TakeKeepsPort(cfg, player.h.queues[p], Keys(player.h.incoming), transit, p, puts[p], player.frame);
      }
    }
  }

  lemma TakeKeepsPlayer<B>(cfg: Config<B>, c: nat, player: Player<B>, port: Port)
    requires c < |cfg.locals| && PlayerOk(cfg, c, player)
    requires player.put && port in player.todo && Answers(player.h.queues[port], player.frame)
    ensures var get := GetNow(SetupOf(cfg, c), player.h, port, player.frame);
            PlayerOk(cfg, c, player.(h := get.state, todo := player.todo - {port}))
  {
    var player' := player.(h := GetNow(SetupOf(cfg, c), player.h, port, player.frame).state, todo := player.todo - {port});
    forall p <- player'.h.queues ensures QueueOk(cfg, c, player', p) {
      assert QueueOk(cfg, c, player, p);
    }
  }

  lemma TakeKeepsPort<B>(
      cfg: Config<B>, q: QueueState<B>, keys: seq<KeyState>, transit: set<KeyState>, p: Port, puts: nat, frame: int)
    requires PortOk(cfg, q, keys, transit, p, puts) && q.initial == D(cfg, p)
    requires QueueInv(q) && Answers(q, frame)
    ensures PortOk(cfg, AfterGet(q, frame), keys, transit, p, puts)
  {
    var q' := AfterGet(q, frame);
    forall g: int ensures Open(q'.latest, D(cfg, p), puts, g) <==> Open(q.latest, D(cfg, p), puts, g) && g != frame {
    }
    forall g: int ensures g in q'.buttons <==> g in q.buttons && g != frame {
    }
  }

  /** A get that does not block succeeds; a local one never blocks. */
  lemma GetTurnSucceeds<B>(
      cfg: Config<B>, c: nat, player: Player<B>, transit: set<KeyState>, puts: map<Port, nat>, port: Port)
    requires Forward(cfg) && c < |cfg.locals| && View(cfg, c, player, transit, puts)
    requires player.put && port in player.todo && (port in cfg.locals[c] ==> puts[port] == Puts(player))
    requires !Blocks(SetupOf(cfg, c), player.h, port, player.frame)
    ensures var get := GetButtons(SetupOf(cfg, c), player.h, port, player.frame);
            && get.status.GetSuccess?
            && View(cfg, c, player.(h := get.state, todo := player.todo - {port}), transit, puts)
  {
    var su, h := SetupOf(cfg, c), player.h;
    assert QueueOk(cfg, c, player, port);
    assert PortOk(cfg, player.h.queues[port], Keys(player.h.incoming), transit, port, puts[port]);
    if port in cfg.locals[c] {
      OwnFrameIsThere(cfg, c, player, transit, puts, port);
      TakeKeepsView(cfg, c, player, transit, puts, port);
    } else if Answer(h.queues[port], player.frame, su.blank) == Timeout {
      ReadKeepsView(cfg, c, player, transit, puts, port);
      var read := ReadUntilButtons(su, h.queues, h.incoming, port, player.frame);
      TakeKeepsView(cfg, c, player.(h := h.(queues := read.queues, incoming := read.incoming)), transit, puts, port);
    } else {
      TakeKeepsView(cfg, c, player, transit, puts, port);
    }
  }

  /** With non-negative delays, the own put for a frame comes in time for its get. */
  lemma OwnFrameIsThere<B>(
      cfg: Config<B>, c: nat, player: Player<B>, transit: set<KeyState>, puts: map<Port, nat>, port: Port)
    requires Forward(cfg) && c < |cfg.locals| && View(cfg, c, player, transit, puts)
    requires player.put && port in player.todo && port in cfg.locals[c] && puts[port] == Puts(player)
    ensures Answers(player.h.queues[port], player.frame)
  {
    assert QueueOk(cfg, c, player, port);
    assert PortOk(cfg, player.h.queues[port], Keys(player.h.incoming), transit, port, puts[port]);
    assert player.h.queues[port].latest == player.frame - 1;
    if D(cfg, port) <= player.frame {
      assert Open(player.h.queues[port].latest, D(cfg, port), puts[port], player.frame);
      KeysAreRemote(cfg, c, player, transit);
    }
  }

  /** Nobody sends a player keys for its own ports. */
  lemma KeysAreRemote<B>(cfg: Config<B>, c: nat, player: Player<B>, transit: set<KeyState>)
    requires c < |cfg.locals| && PlayerOk(cfg, c, player) && TransitOk(cfg, c, transit)
    ensures forall p, g | HasKey(Keys(player.h.incoming), p, g) || InTransit(transit, p, g) :: p !in cfg.locals[c]
  {
    var keys := Keys(player.h.incoming);
    forall i | 0 <= i < |keys| ensures KeyOk(cfg, c, keys[i]) {
      assert keys[i] in keys;
    }
  }

  // ---------------------------------------------------------------------------
  // Putting

  /** One accepted local tuple per port, all of them encodable. */
  ghost predicate Acceptable<B>(su: Setup<B>, queues: Queues<B>, tuples: seq<ButtonsFrame<B>>, frame: int) {
    && (forall i, j | 0 <= i < j < |tuples| :: tuples[i].port != tuples[j].port)
    && forall t <- tuples ::
         && t.frame == frame && t.port in queues && t.port in su.localPorts
         && 0 <= queues[t.port].delay && Accepts(queues[t.port], frame)
         && su.coder.Encode(t.buttons).Some? && su.coder.Decode(su.coder.Encode(t.buttons).value).Some?
  }

  /** The keys announce this frame, shifted, once for each port of the batch. */
  ghost predicate Announces<B>(
    su: Setup<B>, queues: Queues<B>, keys: seq<KeyState>, tuples: seq<ButtonsFrame<B>>, frame: int)
  {
    && NoDuplicates(keys)
    && (forall key <- keys :: key.port in queues && su.coder.Decode(key.pad).Some?)
    && forall p <- queues, g: int :: HasKey(keys, p, g) <==> HasPort(tuples, p) && g == frame + queues[p].delay
  }

  /** The batch adds this frame, shifted, to the queues of its ports. */
  ghost predicate Gains<B>(queues: Queues<B>, queues': Queues<B>, tuples: seq<ButtonsFrame<B>>, frame: int) {
    && queues'.Keys == queues.Keys
    && forall p <- queues, g: int ::
         g in queues'[p].buttons <==> g in queues[p].buttons || (HasPort(tuples, p) && g == frame + queues[p].delay)
  }

  lemma {:induction false} AcceptableBatchQueues<B>(
      su: Setup<B>, queues: Queues<B>, tuples: seq<ButtonsFrame<B>>, frame: int)
    requires Acceptable(su, queues, tuples, frame)
    ensures PutTuples(su, queues, tuples).status == PutSuccess
    ensures Gains(queues, PutTuples(su, queues, tuples).queues, tuples, frame)
    decreases |tuples|
  {
    if tuples != [] {
      var one := PutTuple(su, queues, tuples[0]);
      FirstIsAccepted(su, queues, tuples, frame);
      AcceptableBatchQueues(su, one.queues, tuples[1..], frame);
      GainsFirst(queues, one.queues, PutTuples(su, one.queues, tuples[1..]).queues, tuples, frame);
    }
  }

  lemma GainsFirst<B>(
      queues: Queues<B>, queues1: Queues<B>, queues2: Queues<B>, tuples: seq<ButtonsFrame<B>>, frame: int)
    requires tuples != [] && tuples[0].port in queues && OnlyPendingDiffers(queues, queues1)
    requires var p := tuples[0].port;
             && queues1 == queues[p := queues1[p]]
             && queues1[p].buttons.Keys == queues[p].buttons.Keys + {frame + queues[p].delay}
    requires Gains(queues1, queues2, tuples[1..], frame)
    ensures Gains(queues, queues2, tuples, frame)
  {
    forall p <- queues, g: int
      ensures g in queues2[p].buttons <==> g in queues[p].buttons || (HasPort(tuples, p) && g == frame + queues[p].delay)
    {
      FirstPort(tuples, p);
      assert p in queues1 && queues1[p].delay == queues[p].delay;
      assert g in queues2[p].buttons
        <==> g in queues1[p].buttons || (HasPort(tuples[1..], p) && g == frame + queues1[p].delay);
      assert p == tuples[0].port
        ==> (g in queues1[p].buttons.Keys <==> g in queues[p].buttons || g == frame + queues[p].delay);
    }
  }

  lemma {:induction false} AcceptableBatchKeys<B>(
      su: Setup<B>, queues: Queues<B>, tuples: seq<ButtonsFrame<B>>, frame: int)
    requires Acceptable(su, queues, tuples, frame)
    ensures Announces(su, queues, PutTuples(su, queues, tuples).keys, tuples, frame)
    decreases |tuples|
  {
    if tuples != [] {
      var one := PutTuple(su, queues, tuples[0]);
      FirstIsAccepted(su, queues, tuples, frame);
      AcceptableBatchKeys(su, one.queues, tuples[1..], frame);
      FirstAnnouncement(su, queues, one.queues, one.keys, PutTuples(su, one.queues, tuples[1..]).keys, tuples, frame);
    }
  }

  lemma FirstIsAccepted<B>(su: Setup<B>, queues: Queues<B>, tuples: seq<ButtonsFrame<B>>, frame: int)
    requires tuples != [] && Acceptable(su, queues, tuples, frame)
    ensures !HasPort(tuples[1..], tuples[0].port)
    ensures var t, one := tuples[0], PutTuple(su, queues, tuples[0]);
            && one.status == PutSuccess && |one.keys| == 1
            && one.keys[0].port == t.port && t.port in queues
            && one.keys[0].frame == frame + queues[t.port].delay
            && su.coder.Decode(one.keys[0].pad).Some?
            && OnlyPendingDiffers(queues, one.queues)
            && one.queues == queues[t.port := one.queues[t.port]]
            && one.queues[t.port].buttons.Keys == queues[t.port].buttons.Keys + {frame + queues[t.port].delay}
            && Acceptable(su, one.queues, tuples[1..], frame)
  {
    var t, rest, one := tuples[0], tuples[1..], PutTuple(su, queues, tuples[0]);
    assert t in tuples;
    forall u <- rest ensures u in tuples && u.port != t.port {
      var i :| 0 <= i < |rest| && rest[i] == u;
      assert tuples[i + 1] == u;
    }
    forall i, j | 0 <= i < j < |rest| ensures rest[i].port != rest[j].port {
      assert tuples[i + 1].port != tuples[j + 1].port;
    }
  }

  lemma FirstPort<B>(tuples: seq<ButtonsFrame<B>>, p: Port)
    requires tuples != []
    ensures HasPort(tuples, p) <==> p == tuples[0].port || HasPort(tuples[1..], p)
  {
    if HasPort(tuples[1..], p) {
      var i :| 0 <= i < |tuples[1..]| && tuples[1..][i].port == p;
      assert tuples[i + 1].port == p;
    }
    if HasPort(tuples, p) && tuples[0].port != p {
      var i :| 0 <= i < |tuples| && tuples[i].port == p;
      assert tuples[1..][i - 1].port == p;
    }
  }

  lemma FirstAnnouncement<B>(
      su: Setup<B>, queues: Queues<B>, queues1: Queues<B>, first: seq<KeyState>, keys: seq<KeyState>,
      tuples: seq<ButtonsFrame<B>>, frame: int)
    requires tuples != [] && |first| == 1 && OnlyPendingDiffers(queues, queues1)
    requires first[0].port == tuples[0].port && tuples[0].port in queues && !HasPort(tuples[1..], tuples[0].port)
    requires first[0].frame == frame + queues[tuples[0].port].delay && su.coder.Decode(first[0].pad).Some?
    requires Announces(su, queues1, keys, tuples[1..], frame)
    ensures Announces(su, queues, first + keys, tuples, frame)
  {
    forall p <- queues, g: int
      ensures HasKey(first + keys, p, g) <==> HasPort(tuples, p) && g == frame + queues[p].delay
    {
      HasKeyConcat(first, keys, p, g);
      FirstPort(tuples, p);
    }
    forall i | 0 <= i < |keys| ensures keys[i].port != first[0].port || keys[i].frame != first[0].frame {
      assert HasKey(keys, keys[i].port, keys[i].frame);
    }
  }

  lemma TurnIsAcceptable<B(!new)>(
      cfg: Config<B>, c: nat, player: Player<B>, transit: set<KeyState>, puts: map<Port, nat>, tuples: seq<ButtonsFrame<B>>)
    requires Playable(cfg) && c < |cfg.locals| && View(cfg, c, player, transit, puts)
    requires !player.put && IsTurn(tuples, cfg.locals[c], player.frame)
    requires forall p <- cfg.locals[c] :: p in puts && puts[p] == player.frame
    ensures Acceptable(SetupOf(cfg, c), player.h.queues, tuples, player.frame)
  {
    forall t <- tuples
      ensures Accepts(player.h.queues[t.port], player.frame) && 0 <= player.h.queues[t.port].delay
    {
      var p := t.port;
      DelayIsNotNegative(cfg, p);
      assert QueueOk(cfg, c, player, p);
      assert PortOk(cfg, player.h.queues[p], Keys(player.h.incoming), transit, p, puts[p]);
    }
  }

  function OneMore(puts: map<Port, nat>, ports: set<Port>): map<Port, nat> {
    map p | p in puts :: puts[p] + if p in ports then 1 else 0
  }

  lemma PortsOfTurn<B>(tuples: seq<ButtonsFrame<B>>, ports: set<Port>, frame: int, p: Port)
    requires IsTurn(tuples, ports, frame)
    ensures HasPort(tuples, p) <==> p in ports
  {
    if HasPort(tuples, p) {
      var i :| 0 <= i < |tuples| && tuples[i].port == p;
      assert tuples[i] in tuples;
    }
  }

  /** The player's own view after its puts: one more open frame on each own port. */
  lemma PutTurnKeepsView<B(!new)>(
      cfg: Config<B>, c: nat, player: Player<B>, transit: set<KeyState>, puts: map<Port, nat>, tuples: seq<ButtonsFrame<B>>)
    requires Playable(cfg) && c < |cfg.locals| && View(cfg, c, player, transit, puts)
    requires !player.put && IsTurn(tuples, cfg.locals[c], player.frame)
    requires forall p <- cfg.locals[c] :: p in puts && puts[p] == player.frame
    ensures var put := PutButtons(SetupOf(cfg, c), player.h, tuples, true);
            && put.status == PutSuccess
            && View(cfg, c, Player(put.state, player.frame, true, PortSet(cfg.ports)), transit, OneMore(puts, cfg.locals[c]))
  {
    var su, h := SetupOf(cfg, c), player.h;
    TurnIsAcceptable(cfg, c, player, transit, puts, tuples);
    AcceptableBatchQueues(su, h.queues, tuples, player.frame);
    PutTuplesOnlyAdds(su, h.queues, tuples);
    var put := PutButtons(su, h, tuples, true).state;
    PutGoesThrough(su, h, tuples);
    PutKeepsPorts(cfg, c, player, transit, puts, put.queues, tuples);
    PutKeepsPlayer(cfg, c, player, Player(put, player.frame, true, PortSet(cfg.ports)));
  }

  lemma PutGoesThrough<B>(su: Setup<B>, h: Handler<B>, tuples: seq<ButtonsFrame<B>>)
    requires PutTuples(su, h.queues, tuples).status == PutSuccess
    ensures var put := PutButtons(su, h, tuples, true);
            && put.status == PutSuccess
            && put.state.incoming == h.incoming && put.state.queues == PutTuples(su, h.queues, tuples).queues
  {
  }

  lemma PutKeepsPlayer<B>(cfg: Config<B>, c: nat, player: Player<B>, player': Player<B>)
    requires c < |cfg.locals| && PlayerOk(cfg, c, player) && !player.put
    requires OnlyPendingDiffers(player.h.queues, player'.h.queues)
    requires forall p <- player.h.queues | QueueInv(player.h.queues[p]) :: QueueInv(player'.h.queues[p])
    requires player'.h.incoming == player.h.incoming
    requires player'.frame == player.frame && player'.put && player'.todo == PortSet(cfg.ports)
    ensures PlayerOk(cfg, c, player')
  {
    forall p <- player'.h.queues ensures QueueOk(cfg, c, player', p) {
      assert QueueOk(cfg, c, player, p);
    }
  }

  lemma PutKeepsPorts<B(!new)>(
      cfg: Config<B>, c: nat, player: Player<B>, transit: set<KeyState>, puts: map<Port, nat>,
      queues': Queues<B>, tuples: seq<ButtonsFrame<B>>)
    requires Playable(cfg) && c < |cfg.locals| && View(cfg, c, player, transit, puts)
    requires IsTurn(tuples, cfg.locals[c], player.frame)
    requires forall p <- cfg.locals[c] :: p in puts && puts[p] == player.frame
    requires Gains(player.h.queues, queues', tuples, player.frame) && OnlyPendingDiffers(player.h.queues, queues')
    ensures PortsOk(cfg, queues', Keys(player.h.incoming), transit, OneMore(puts, cfg.locals[c]))
  {
    KeysAreRemote(cfg, c, player, transit);
    forall p <- puts
      ensures PortOk(cfg, queues'[p], Keys(player.h.incoming), transit, p, OneMore(puts, cfg.locals[c])[p])
    {
      PortsOfTurn(tuples, cfg.locals[c], player.frame, p);
      assert QueueOk(cfg, c, player, p);
      var q, q' := player.h.queues[p], queues'[p];
      forall g: int ensures g in q'.buttons <==> g in q.buttons || (p in cfg.locals[c] && g == puts[p] + D(cfg, p)) {
      }
      PutKeepsPort(cfg, q, q', Keys(player.h.incoming), transit, p, puts[p], p in cfg.locals[c]);
    }
  }

  lemma PutKeepsPort<B>(
      cfg: Config<B>, q: QueueState<B>, q': QueueState<B>, keys: seq<KeyState>, transit: set<KeyState>,
      p: Port, puts: nat, own: bool)
    requires PortOk(cfg, q, keys, transit, p, puts) && q'.latest == q.latest
    requires own ==> forall g :: !HasKey(keys, p, g) && !InTransit(transit, p, g)
    requires forall g: int :: g in q'.buttons <==> g in q.buttons || (own && g == puts + D(cfg, p))
    ensures PortOk(cfg, q', keys, transit, p, if own then puts + 1 else puts)
  {
  }

  /** The keys of player c's turn, as the relay sees them. */
  ghost predicate Sent<B>(cfg: Config<B>, c: nat, keys: seq<KeyState>, puts: map<Port, nat>, frame: nat)
    requires c < |cfg.locals|
  {
    && (forall p <- cfg.locals[c] :: p in puts && puts[p] == frame)
    && NoDuplicates(keys)
    && (forall key <- keys :: key.port in puts && cfg.coder.Decode(key.pad).Some?)
    && forall p <- puts, g: int :: HasKey(keys, p, g) <==> p in cfg.locals[c] && g == frame + D(cfg, p)
  }

  /** Another player's view after those puts: their keys are in transit. */
  lemma PutTurnSeenByOthers<B(!new)>(
      cfg: Config<B>, c: nat, d: nat, player: Player<B>, transit: set<KeyState>, puts: map<Port, nat>,
      keys: seq<KeyState>, frame: nat)
    requires Playable(cfg) && c < |cfg.locals| && d < |cfg.locals| && c != d
    requires View(cfg, d, player, transit, puts) && Sent(cfg, c, keys, puts, frame)
    ensures View(cfg, d, player, transit + KeySet(keys), OneMore(puts, cfg.locals[c]))
  {
    LocalsAreDisjoint(cfg, c, d);
    SentKeepsPorts(cfg, c, player.h.queues, Keys(player.h.incoming), transit, puts, keys, frame);
    SentIsOk(cfg, c, d, player, transit, puts, keys, frame);
  }

  lemma SentKeepsPorts<B>(
      cfg: Config<B>, c: nat, queues: Queues<B>, stream: seq<KeyState>, transit: set<KeyState>, puts: map<Port, nat>,
      keys: seq<KeyState>, frame: nat)
    requires c < |cfg.locals| && PortsOk(cfg, queues, stream, transit, puts) && Sent(cfg, c, keys, puts, frame)
    ensures PortsOk(cfg, queues, stream, transit + KeySet(keys), OneMore(puts, cfg.locals[c]))
  {
    forall p <- puts
      ensures PortOk(cfg, queues[p], stream, transit + KeySet(keys), p, OneMore(puts, cfg.locals[c])[p])
    {
      forall g: int
        ensures InTransit(transit + KeySet(keys), p, g)
                <==> InTransit(transit, p, g) || (p in cfg.locals[c] && g == puts[p] + D(cfg, p))
      {
        InTransitUnion(transit, keys, p, g);
      }
      SentKeepsPort(cfg, queues[p], stream, transit, transit + KeySet(keys), p, puts[p], p in cfg.locals[c]);
    }
  }

  lemma InTransitUnion(transit: set<KeyState>, keys: seq<KeyState>, p: Port, g: int)
    ensures InTransit(transit + KeySet(keys), p, g) <==> InTransit(transit, p, g) || HasKey(keys, p, g)
  {
    if HasKey(keys, p, g) {
      var i :| 0 <= i < |keys| && keys[i].port == p && keys[i].frame == g;
      assert keys[i] in transit + KeySet(keys);
    }
    if InTransit(transit, p, g) {
      var key :| key in transit && key.port == p && key.frame == g;
      assert key in transit + KeySet(keys);
    }
  }

  lemma SentKeepsPort<B>(
      cfg: Config<B>, q: QueueState<B>, keys: seq<KeyState>, transit: set<KeyState>, transit': set<KeyState>,
      p: Port, puts: nat, sent: bool)
    requires PortOk(cfg, q, keys, transit, p, puts)
    requires forall g: int :: InTransit(transit', p, g) <==> InTransit(transit, p, g) || (sent && g == puts + D(cfg, p))
    ensures PortOk(cfg, q, keys, transit', p, if sent then puts + 1 else puts)
  {
  }

  lemma SentIsOk<B(!new)>(
      cfg: Config<B>, c: nat, d: nat, player: Player<B>, transit: set<KeyState>, puts: map<Port, nat>,
      keys: seq<KeyState>, frame: nat)
    requires c < |cfg.locals| && d < |cfg.locals| && cfg.locals[c] !! cfg.locals[d]
    requires View(cfg, d, player, transit, puts) && Sent(cfg, c, keys, puts, frame)
    ensures TransitOk(cfg, d, transit + KeySet(keys))
  {
    forall i | 0 <= i < |keys|
      ensures keys[i].port in cfg.locals[c] && keys[i].frame == frame + D(cfg, keys[i].port)
    {
      assert keys[i] in keys && HasKey(keys, keys[i].port, keys[i].frame);
    }
    forall key <- transit ensures key.port in cfg.locals[c] ==> key.frame < frame + D(cfg, key.port) {
      TransitIsOpen(cfg, d, player, transit, puts, key);
    }
    SentIsNew(cfg, c, d, transit, keys, frame);
  }

  lemma TransitIsOpen<B>(
      cfg: Config<B>, d: nat, player: Player<B>, transit: set<KeyState>, puts: map<Port, nat>, key: KeyState)
    requires d < |cfg.locals| && View(cfg, d, player, transit, puts) && key in transit
    ensures key.port in puts && key.frame < puts[key.port] + D(cfg, key.port)
  {
    assert KeyOk(cfg, d, key) && InTransit(transit, key.port, key.frame);
    assert PortOk(cfg, player.h.queues[key.port], Keys(player.h.incoming), transit, key.port, puts[key.port]);
  }

  lemma SentIsNew<B>(cfg: Config<B>, c: nat, d: nat, transit: set<KeyState>, keys: seq<KeyState>, frame: nat)
    requires c < |cfg.locals| && d < |cfg.locals| && cfg.locals[c] !! cfg.locals[d]
    requires TransitOk(cfg, d, transit) && NoDuplicates(keys) && cfg.locals[c] <= PortSet(cfg.ports)
    requires forall key <- keys :: cfg.coder.Decode(key.pad).Some?
    requires forall i | 0 <= i < |keys| :: keys[i].port in cfg.locals[c] && keys[i].frame == frame + D(cfg, keys[i].port)
    requires forall key <- transit :: key.port in cfg.locals[c] ==> key.frame < frame + D(cfg, key.port)
    ensures TransitOk(cfg, d, transit + KeySet(keys))
  {
  }

  // ---------------------------------------------------------------------------
  // Delivering and advancing

  lemma DeliverKeepsView<B>(
      cfg: Config<B>, c: nat, player: Player<B>, transit: set<KeyState>, puts: map<Port, nat>, keys: seq<KeyState>)
    requires c < |cfg.locals| && View(cfg, c, player, transit, puts)
    requires (forall key <- keys :: key in transit) && forall i, j | 0 <= i < j < |keys| :: keys[i] != keys[j]
    ensures var event := IncomingEvent(false, None, false, keys);
            View(cfg, c, player.(h := player.h.(incoming := player.h.incoming + [Some(event)])),
                 transit - KeySet(keys), puts)
  {
    var event := IncomingEvent(false, None, false, keys);
    var player' := player.(h := player.h.(incoming := player.h.incoming + [Some(event)]));
    var stream := Keys(player.h.incoming);
    KeysConcat(player.h.incoming, [Some(event)]);
    assert Keys([Some(event)]) == keys;
    forall p <- puts
      ensures PortOk(cfg, player.h.queues[p], stream + keys, transit - KeySet(keys), p, puts[p])
    {
      DeliverKeepsPort(cfg, c, player.h.queues[p], stream, transit, p, puts[p], keys);
    }
    forall i | 0 <= i < |keys| ensures !HasKey(stream, keys[i].port, keys[i].frame) {
      NotYetInStream(cfg, c, player, transit, puts, keys[i]);
    }
    DeliverKeepsPlayer(cfg, c, player, player', transit, keys);
  }

  lemma NotYetInStream<B>(
      cfg: Config<B>, c: nat, player: Player<B>, transit: set<KeyState>, puts: map<Port, nat>, key: KeyState)
    requires c < |cfg.locals| && View(cfg, c, player, transit, puts) && key in transit
    ensures !HasKey(Keys(player.h.incoming), key.port, key.frame)
  {
    assert KeyOk(cfg, c, key) && InTransit(transit, key.port, key.frame);
    assert PortOk(cfg, player.h.queues[key.port], Keys(player.h.incoming), transit, key.port, puts[key.port]);
  }

  lemma DeliverKeepsPlayer<B>(
      cfg: Config<B>, c: nat, player: Player<B>, player': Player<B>, transit: set<KeyState>, keys: seq<KeyState>)
    requires c < |cfg.locals| && PlayerOk(cfg, c, player) && TransitOk(cfg, c, transit)
    requires (forall key <- keys :: key in transit) && forall i, j | 0 <= i < j < |keys| :: keys[i] != keys[j]
    requires forall i | 0 <= i < |keys| :: !HasKey(Keys(player.h.incoming), keys[i].port, keys[i].frame)
    requires Keys(player'.h.incoming) == Keys(player.h.incoming) + keys
    requires player'.h.incoming == player.h.incoming + [Some(IncomingEvent(false, None, false, keys))]
    requires player' == player.(h := player.h.(incoming := player'.h.incoming))
    ensures PlayerOk(cfg, c, player')
  {
    forall p <- player'.h.queues ensures QueueOk(cfg, c, player', p) {
      assert QueueOk(cfg, c, player, p);
    }
    DistinctTogether(Keys(player.h.incoming), keys, transit);
  }

  lemma DistinctTogether(stream: seq<KeyState>, keys: seq<KeyState>, transit: set<KeyState>)
    requires NoDuplicates(stream)
    requires (forall key <- keys :: key in transit) && forall i, j | 0 <= i < j < |keys| :: keys[i] != keys[j]
    requires forall i | 0 <= i < |keys| :: !HasKey(stream, keys[i].port, keys[i].frame)
    requires forall key, key' | key in transit && key' in transit && key.port == key'.port && key.frame == key'.frame ::
               key == key'
    ensures NoDuplicates(stream + keys)
  {
    assert forall i | 0 <= i < |keys| :: keys[i] in keys;
  }

  /** Keys move from transit to the end of the stream. */
  lemma DeliverKeepsPort<B>(
      cfg: Config<B>, c: nat, q: QueueState<B>, stream: seq<KeyState>, transit: set<KeyState>, p: Port, puts: nat,
      keys: seq<KeyState>)
    requires c < |cfg.locals| && TransitOk(cfg, c, transit) && PortOk(cfg, q, stream, transit, p, puts)
    requires forall key <- keys :: key in transit
    ensures PortOk(cfg, q, stream + keys, transit - KeySet(keys), p, puts)
  {
    var transit' := transit - KeySet(keys);
    forall g: int
      ensures HasKey(stream + keys, p, g) <==> HasKey(stream, p, g) || HasKey(keys, p, g)
      ensures InTransit(transit, p, g) <==> InTransit(transit', p, g) || HasKey(keys, p, g)
      ensures !(InTransit(transit', p, g) && HasKey(keys, p, g))
    {
      HasKeyConcat(stream, keys, p, g);
      InTransitUnion(transit', keys, p, g);
      assert transit == transit' + KeySet(keys);
    }
  }

  lemma AdvanceKeepsView<B>(cfg: Config<B>, c: nat, player: Player<B>, transit: set<KeyState>, puts: map<Port, nat>)
    requires c < |cfg.locals| && View(cfg, c, player, transit, puts)
    requires player.put && player.todo == {}
    ensures View(cfg, c, player.(frame := player.frame + 1, put := false), transit, puts)
  {
    forall p <- player.h.queues
      ensures QueueOk(cfg, c, player.(frame := player.frame + 1, put := false), p)
    {
      assert QueueOk(cfg, c, player, p);
    }
  }

  // ---------------------------------------------------------------------------
  // Every move, every play

  lemma OwnerIsUnique<B(!new)>(cfg: Config<B>, c: nat, p: Port)
    requires Playable(cfg) && p in PortSet(cfg.ports)
    ensures Owns(cfg, c, p) <==> Owner(cfg, p) == c
  {
    var o := Owner(cfg, p);
    if c < |cfg.locals| && o != c {
      LocalsAreDisjoint(cfg, o, c);
    }
  }

  lemma LocalsAreDisjoint<B(!new)>(cfg: Config<B>, c: nat, d: nat)
    requires ValidConfig(cfg) && c < |cfg.locals| && d < |cfg.locals| && c != d
    ensures cfg.locals[c] !! cfg.locals[d]
  {
    var lo, hi := if c < d then c else d, if c < d then d else c;
    assert cfg.locals[lo] !! cfg.locals[hi];
  }

  /** A player's own puts are what the others are told about. */
  lemma OwnPuts<B(!new)>(cfg: Config<B>, players: seq<Player<B>>, c: nat)
    requires Playable(cfg) && |players| == |cfg.locals| && c < |cfg.locals|
    ensures forall p <- cfg.locals[c] :: p in PutsOn(cfg, players) && PutsOn(cfg, players)[p] == Puts(players[c])
  {
    forall p <- cfg.locals[c]
      ensures p in PortSet(cfg.ports) && Owner(cfg, p) == c
    {
      assert WellFormed(cfg.locals[c], cfg.ports) && Owns(cfg, c, p);
      OwnerIsUnique(cfg, c, p);
    }
  }

  lemma PutMoveKeepsInv<B(!new)>(cfg: Config<B>, room: Room<B>, move: Move<B>)
    requires Playable(cfg) && RoomInv(cfg, room) && CanMove(cfg, room, move) && move.PutTurn?
    ensures RoomInv(cfg, AfterMove(cfg, room, move))
    ensures PutButtons(SetupOf(cfg, move.c), room.players[move.c].h, move.tuples, true).status == PutSuccess
  {
    var keys := PutMoveIsSeen(cfg, room, move);
    PutMoveShape(cfg, room, move);
    OneMoreIsPut(cfg, room.players, AfterMove(cfg, room, move).players, move.c);
    OthersSeeTheTurn(cfg, room, move.c, keys, room.players[move.c].frame);
  }

  lemma PutMoveShape<B>(cfg: Config<B>, room: Room<B>, move: Move<B>)
    requires CanMove(cfg, room, move) && move.PutTurn?
    requires PutTuples(SetupOf(cfg, move.c), room.players[move.c].h.queues, move.tuples).status == PutSuccess
    ensures var room', c, player := AfterMove(cfg, room, move), move.c, room.players[move.c];
            var keys := PutTuples(SetupOf(cfg, c), player.h.queues, move.tuples).keys;
            && |room'.players| == |room'.transit| == |cfg.locals|
            && room'.players == room.players[c := room'.players[c]]
            && Puts(room'.players[c]) == Puts(player) + 1
            && room'.transit[c] == room.transit[c]
            && forall d | 0 <= d < |cfg.locals| && d != c :: room'.transit[d] == room.transit[d] + KeySet(keys)
  {
  }

  lemma PutMoveIsSeen<B(!new)>(cfg: Config<B>, room: Room<B>, move: Move<B>) returns (keys: seq<KeyState>)
    requires Playable(cfg) && RoomInv(cfg, room) && CanMove(cfg, room, move) && move.PutTurn?
    ensures var c, player, puts := move.c, room.players[move.c], PutsOn(cfg, room.players);
            var put := PutButtons(SetupOf(cfg, c), player.h, move.tuples, true);
            && put.status == PutSuccess
            && PutTuples(SetupOf(cfg, c), player.h.queues, move.tuples).status == PutSuccess
            && keys == PutTuples(SetupOf(cfg, c), player.h.queues, move.tuples).keys
            && View(cfg, c, Player(put.state, player.frame, true, PortSet(cfg.ports)), room.transit[c],
                    OneMore(puts, cfg.locals[c]))
            && Sent(cfg, c, keys, puts, player.frame)
  {
    var c, player, puts := move.c, room.players[move.c], PutsOn(cfg, room.players);
    assert View(cfg, c, player, room.transit[c], puts);
    OwnPuts(cfg, room.players, c);
    PutTurnKeepsView(cfg, c, player, room.transit[c], puts, move.tuples);
    keys := PutTurnIsSent(cfg, c, player, room.transit[c], puts, move.tuples);
  }

  lemma PutTurnIsSent<B(!new)>(
      cfg: Config<B>, c: nat, player: Player<B>, transit: set<KeyState>, puts: map<Port, nat>, tuples: seq<ButtonsFrame<B>>)
      returns (keys: seq<KeyState>)
    requires Playable(cfg) && c < |cfg.locals| && View(cfg, c, player, transit, puts)
    requires !player.put && IsTurn(tuples, cfg.locals[c], player.frame)
    requires forall p <- cfg.locals[c] :: p in puts && puts[p] == player.frame
    ensures PutTuples(SetupOf(cfg, c), player.h.queues, tuples).status == PutSuccess
    ensures keys == PutTuples(SetupOf(cfg, c), player.h.queues, tuples).keys
    ensures Sent(cfg, c, keys, puts, player.frame)
  {
    var su := SetupOf(cfg, c);
    keys := PutTuples(su, player.h.queues, tuples).keys;
    TurnIsAcceptable(cfg, c, player, transit, puts, tuples);
    AcceptableBatchQueues(su, player.h.queues, tuples, player.frame);
    AcceptableBatchKeys(su, player.h.queues, tuples, player.frame);
    TurnIsSent(cfg, c, player, puts, tuples, keys);
  }

  lemma OthersSeeTheTurn<B(!new)>(cfg: Config<B>, room: Room<B>, c: nat, keys: seq<KeyState>, frame: nat)
    requires Playable(cfg) && RoomInv(cfg, room) && c < |cfg.locals|
    requires Sent(cfg, c, keys, PutsOn(cfg, room.players), frame)
    ensures forall d: nat | d < |cfg.locals| && d != c ::
              View(cfg, d, room.players[d], room.transit[d] + KeySet(keys),
                   OneMore(PutsOn(cfg, room.players), cfg.locals[c]))
  {
    var puts := PutsOn(cfg, room.players);
    forall d: nat | d < |cfg.locals| && d != c
      ensures View(cfg, d, room.players[d], room.transit[d] + KeySet(keys), OneMore(puts, cfg.locals[c]))
    {
      PutTurnSeenByOthers(cfg, c, d, room.players[d], room.transit[d], puts, keys, frame);
    }
  }

  lemma TurnIsSent<B>(
      cfg: Config<B>, c: nat, player: Player<B>, puts: map<Port, nat>, tuples: seq<ButtonsFrame<B>>, keys: seq<KeyState>)
    requires c < |cfg.locals| && PlayerOk(cfg, c, player) && puts.Keys == PortSet(cfg.ports)
    requires forall p <- cfg.locals[c] :: p in puts && puts[p] == player.frame
    requires IsTurn(tuples, cfg.locals[c], player.frame)
    requires Announces(SetupOf(cfg, c), player.h.queues, keys, tuples, player.frame)
    ensures Sent(cfg, c, keys, puts, player.frame)
  {
    forall p <- puts, g: int
      ensures HasKey(keys, p, g) <==> p in cfg.locals[c] && g == player.frame + D(cfg, p)
    {
      PortsOfTurn(tuples, cfg.locals[c], player.frame, p);
      assert QueueOk(cfg, c, player, p);
    }
  }

  lemma OneMoreIsPut<B(!new)>(cfg: Config<B>, players: seq<Player<B>>, players': seq<Player<B>>, c: nat)
    requires Playable(cfg) && |players| == |players'| == |cfg.locals| && c < |cfg.locals|
    requires players' == players[c := players'[c]] && Puts(players'[c]) == Puts(players[c]) + 1
    ensures PutsOn(cfg, players') == OneMore(PutsOn(cfg, players), cfg.locals[c])
  {
    var after, more := PutsOn(cfg, players'), OneMore(PutsOn(cfg, players), cfg.locals[c]);
    forall p | p in PortSet(cfg.ports) ensures after[p] == more[p] {
      OneMoreOn(cfg, players, players', c, p);
    }
    SameCounts(after, more);
  }

  lemma SameCounts(a: map<Port, nat>, b: map<Port, nat>)
    requires a.Keys == b.Keys && forall p <- a :: a[p] == b[p]
    ensures a == b
  {
  }

  lemma OneMoreOn<B(!new)>(cfg: Config<B>, players: seq<Player<B>>, players': seq<Player<B>>, c: nat, p: Port)
    requires Playable(cfg) && |players| == |players'| == |cfg.locals| && c < |cfg.locals|
    requires players' == players[c := players'[c]] && Puts(players'[c]) == Puts(players[c]) + 1
    requires p in PortSet(cfg.ports)
    ensures PutsOn(cfg, players')[p] == PutsOn(cfg, players)[p] + if p in cfg.locals[c] then 1 else 0
  {
    OwnerIsUnique(cfg, c, p);
  }

  lemma SamePuts<B(!new)>(cfg: Config<B>, players: seq<Player<B>>, players': seq<Player<B>>)
    requires Playable(cfg) && |players| == |players'| == |cfg.locals|
    requires forall c | 0 <= c < |players| :: Puts(players[c]) == Puts(players'[c])
    ensures PutsOn(cfg, players') == PutsOn(cfg, players)
  {
    forall p | p in PortSet(cfg.ports)
      ensures PutsOn(cfg, players')[p] == PutsOn(cfg, players)[p]
    {
      var o := Owner(cfg, p);
      assert Puts(players[o]) == Puts(players'[o]);
    }
  }

  lemma MoveKeepsInv<B(!new)>(cfg: Config<B>, room: Room<B>, move: Move<B>)
    requires Playable(cfg) && RoomInv(cfg, room)
    ensures RoomInv(cfg, AfterMove(cfg, room, move))
  {
    if CanMove(cfg, room, move) {
      if move.PutTurn? {
        PutMoveKeepsInv(cfg, room, move);
      } else {
        OwnMoveKeepsInv(cfg, room, move);
      }
    }
  }

  lemma SeatIsOk<B(!new)>(cfg: Config<B>, room: Room<B>, c: nat)
    requires Playable(cfg) && RoomInv(cfg, room) && c < |cfg.locals|
    ensures Forward(cfg)
    ensures var puts := PutsOn(cfg, room.players);
            && View(cfg, c, room.players[c], room.transit[c], puts)
            && forall p <- cfg.locals[c] :: p in puts && puts[p] == Puts(room.players[c])
  {
    PlayableIsForward(cfg);
    OwnPuts(cfg, room.players, c);
  }

  lemma OwnMoveKeepsInv<B(!new)>(cfg: Config<B>, room: Room<B>, move: Move<B>)
    requires Playable(cfg) && RoomInv(cfg, room) && CanMove(cfg, room, move) && !move.PutTurn?
    ensures RoomInv(cfg, AfterMove(cfg, room, move))
  {
    var seat' := OwnMoveIsKept(cfg, room, move);
    ReseatKeepsInv(cfg, room, move.c, seat');
    AfterOwnMove(cfg, room, move);
  }

  lemma OwnMoveIsKept<B(!new)>(cfg: Config<B>, room: Room<B>, move: Move<B>) returns (seat': Seat<B>)
    requires Playable(cfg) && RoomInv(cfg, room) && CanMove(cfg, room, move) && !move.PutTurn?
    ensures seat' == OwnMove(cfg, SeatOf(room, move.c), move)
    ensures SeatKept(cfg, move.c, SeatOf(room, move.c), seat', PutsOn(cfg, room.players))
  {
    seat' := OwnMove(cfg, SeatOf(room, move.c), move);
    SeatIsOk(cfg, room, move.c);
    OwnMoveKeepsView(cfg, SeatOf(room, move.c), move, PutsOn(cfg, room.players));
  }

  lemma AfterOwnMove<B>(cfg: Config<B>, room: Room<B>, move: Move<B>)
    requires CanMove(cfg, room, move) && !move.PutTurn?
    ensures AfterMove(cfg, room, move) == Reseat(room, move.c, OwnMove(cfg, SeatOf(room, move.c), move))
  {
  }

  lemma ReseatKeepsInv<B(!new)>(cfg: Config<B>, room: Room<B>, c: nat, seat': Seat<B>)
    requires Playable(cfg) && RoomInv(cfg, room) && c < |cfg.locals|
    requires SeatKept(cfg, c, SeatOf(room, c), seat', PutsOn(cfg, room.players))
    ensures RoomInv(cfg, Reseat(room, c, seat'))
  {
    ReseatKeepsViews(cfg, room, c, seat', PutsOn(cfg, room.players));
    SamePuts(cfg, room.players, Reseat(room, c, seat').players);
  }

  lemma ReseatKeepsViews<B>(cfg: Config<B>, room: Room<B>, c: nat, seat: Seat<B>, puts: map<Port, nat>)
    requires Views(cfg, room, puts) && c < |cfg.locals| && View(cfg, c, seat.player, seat.transit, puts)
    ensures Views(cfg, Reseat(room, c, seat), puts)
  {
  }

  lemma OwnMoveKeepsView<B>(cfg: Config<B>, seat: Seat<B>, move: Move<B>, puts: map<Port, nat>)
    requires Forward(cfg) && move.c < |cfg.locals| && MayMove(cfg, seat, move) && !move.PutTurn?
    requires View(cfg, move.c, seat.player, seat.transit, puts)
    requires forall p <- cfg.locals[move.c] :: p in puts && puts[p] == Puts(seat.player)
    ensures SeatKept(cfg, move.c, seat, OwnMove(cfg, seat, move), puts)
  {
    match move
    case Deliver(_, _) => DeliverKeepsSeat(cfg, seat, move, puts);
    case GetTurn(_, _) => GetTurnKeepsSeat(cfg, seat, move, puts);
    case Advance(_) => AdvanceKeepsSeat(cfg, seat, move, puts);
  }

  ghost predicate SeatKept<B>(cfg: Config<B>, c: nat, seat: Seat<B>, seat': Seat<B>, puts: map<Port, nat>)
    requires c < |cfg.locals|
  {
    Puts(seat'.player) == Puts(seat.player) && View(cfg, c, seat'.player, seat'.transit, puts)
  }

  lemma DeliverKeepsSeat<B>(cfg: Config<B>, seat: Seat<B>, move: Move<B>, puts: map<Port, nat>)
    requires move.c < |cfg.locals| && MayMove(cfg, seat, move) && move.Deliver?
    requires View(cfg, move.c, seat.player, seat.transit, puts)
    ensures SeatKept(cfg, move.c, seat, OwnMove(cfg, seat, move), puts)
  {
    DeliverKeepsView(cfg, move.c, seat.player, seat.transit, puts, move.keys);
  }

  lemma GetTurnKeepsSeat<B>(cfg: Config<B>, seat: Seat<B>, move: Move<B>, puts: map<Port, nat>)
    requires Forward(cfg) && move.c < |cfg.locals| && MayMove(cfg, seat, move) && move.GetTurn?
    requires View(cfg, move.c, seat.player, seat.transit, puts)
    requires forall p <- cfg.locals[move.c] :: p in puts && puts[p] == Puts(seat.player)
    ensures SeatKept(cfg, move.c, seat, OwnMove(cfg, seat, move), puts)
    ensures GetButtons(SetupOf(cfg, move.c), seat.player.h, move.port, seat.player.frame).status.GetSuccess?
  {
    GetTurnSucceeds(cfg, move.c, seat.player, seat.transit, puts, move.port);
  }

  lemma AdvanceKeepsSeat<B>(cfg: Config<B>, seat: Seat<B>, move: Move<B>, puts: map<Port, nat>)
    requires move.c < |cfg.locals| && MayMove(cfg, seat, move) && move.Advance?
    requires View(cfg, move.c, seat.player, seat.transit, puts)
    ensures SeatKept(cfg, move.c, seat, OwnMove(cfg, seat, move), puts)
  {
    AdvanceKeepsView(cfg, move.c, seat.player, seat.transit, puts);
  }

  lemma OpeningInv<B(!new)>(cfg: Config<B>)
    requires Playable(cfg)
    ensures RoomInv(cfg, Opening(cfg))
  {
    var room := Opening(cfg);
    forall c: nat | c < |cfg.locals|
      ensures View(cfg, c, room.players[c], room.transit[c], PutsOn(cfg, room.players))
    {
      OpeningView(cfg, c, PutsOn(cfg, room.players));
    }
  }

  lemma OpeningView<B(!new)>(cfg: Config<B>, c: nat, puts: map<Port, nat>)
    requires Playable(cfg) && c < |cfg.locals|
    requires puts.Keys == PortSet(cfg.ports) && forall p <- puts :: puts[p] == 0
    ensures View(cfg, c, Player(Started(cfg, c), 0, false, {}), {}, puts)
  {
    var player := Player(Started(cfg, c), 0, false, {});
    OpeningPorts(cfg, c);
    forall p <- PortSet(cfg.ports)
      ensures QueueOk(cfg, c, player, p)
      ensures PortOk(cfg, player.h.queues[p], [], {}, p, 0)
    {
      OpeningQueue(cfg, c, p);
      NothingIsOpen(cfg, player.h.queues[p], p);
    }
  }

  lemma NothingIsOpen<B>(cfg: Config<B>, q: QueueState<B>, p: Port)
    requires q.latest == -1 && q.buttons == map[] && 0 <= D(cfg, p)
    ensures PortOk(cfg, q, [], {}, p, 0)
  {
  }

  lemma OpeningPorts<B(!new)>(cfg: Config<B>, c: nat)
    requires ValidConfig(cfg) && c < |cfg.locals|
    ensures Started(cfg, c) == Handler(Connect(cfg.locals[c], map[], cfg.ports), [], [])
    ensures Started(cfg, c).queues.Keys == PortSet(cfg.ports)
  {
    assert WellFormed(cfg.locals[c], cfg.ports);
    ConnectDescribed<B>(cfg.locals[c], map[], cfg.ports);
  }

  lemma OpeningQueue<B(!new)>(cfg: Config<B>, c: nat, p: Port)
    requires Playable(cfg) && c < |cfg.locals| && p in PortSet(cfg.ports)
    ensures Started(cfg, c).queues.Keys == PortSet(cfg.ports)
    ensures Started(cfg, c).queues[p]
            == QueueState(if p in cfg.locals[c] then D(cfg, p) else 0, D(cfg, p), -1, map[])
    ensures 0 <= D(cfg, p)
  {
    OpeningPorts(cfg, c);
    assert WellFormed(cfg.locals[c], cfg.ports);
    ConnectDescribed<B>(cfg.locals[c], map[], cfg.ports);
    var i :| 0 <= i < |cfg.ports| && cfg.ports[i].port == p;
    DelayIsListed(cfg.ports, i);
  }

  lemma {:induction false} PlayOnKeepsInv<B(!new)>(cfg: Config<B>, room: Room<B>, moves: seq<Move<B>>)
    requires Playable(cfg) && RoomInv(cfg, room)
    ensures RoomInv(cfg, PlayOn(cfg, room, moves))
    decreases |moves|
  {
    if moves != [] {
      MoveKeepsInv(cfg, room, moves[0]);
      PlayOnKeepsInv(cfg, AfterMove(cfg, room, moves[0]), moves[1..]);
    }
  }

  lemma PlayKeepsInv<B(!new)>(cfg: Config<B>, moves: seq<Move<B>>)
    requires Playable(cfg)
    ensures RoomInv(cfg, Play(cfg, moves))
  {
    OpeningInv(cfg);
    PlayOnKeepsInv(cfg, Opening(cfg), moves);
  }
}
