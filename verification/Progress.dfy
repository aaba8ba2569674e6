/** What the invariant of the game loop is good for: nothing fails, somebody can
    always move, nobody gets far ahead, buffers stay small, and every frame is
    reached. */
module Progress {
  import opened NetplayTypes
  import opened DelayLine
  import opened HandlerModel
  import opened HandlerResults
  import opened Lockstep
  import opened GameLoop
  import opened GameLoopSteps

  // ---------------------------------------------------------------------------
  // Main results

  /** No put is ever rejected, and no get that does not have to wait ever fails;
      gets of own ports never have to wait. */
  lemma NothingFails<B(!new)>(cfg: Config<B>, moves: seq<Move<B>>, move: Move<B>)
    requires Playable(cfg) && CanMove(cfg, Play(cfg, moves), move)
    ensures var player, su := Play(cfg, moves).players[move.c], SetupOf(cfg, move.c);
            match move
            case PutTurn(_, tuples) => PutButtons(su, player.h, tuples, true).status == PutSuccess
            case GetTurn(_, port) => GetButtons(su, player.h, port, player.frame).status.GetSuccess?
            case _ => true
  {
    PlayKeepsInv(cfg, moves);
    var room := Play(cfg, moves);
    match move
    case PutTurn(_, _) => PutMoveKeepsInv(cfg, room, move);
    case GetTurn(_, _) => GetMoveSucceeds(cfg, room, move);
    case _ =>
  }

  lemma GetMoveSucceeds<B(!new)>(cfg: Config<B>, room: Room<B>, move: Move<B>)
    requires Playable(cfg) && RoomInv(cfg, room) && CanMove(cfg, room, move) && move.GetTurn?
    ensures var player := room.players[move.c];
            GetButtons(SetupOf(cfg, move.c), player.h, move.port, player.frame).status.GetSuccess?
  {
    SeatIsOk(cfg, room, move.c);
    GetTurnKeepsSeat(cfg, SeatOf(room, move.c), move, PutsOn(cfg, room.players));
  }

  ghost predicate IsLast<B>(players: seq<Player<B>>, c: nat) {
    c < |players| && forall d | 0 <= d < |players| :: players[c].frame <= players[d].frame
  }

  lemma {:induction false} SomeoneIsLast<B>(players: seq<Player<B>>) returns (c: nat)
    requires players != []
    ensures IsLast(players, c)
  {
    c := 0;
    if |players| > 1 {
      var n := |players| - 1;
      c := SomeoneIsLast(players[..n]);
      assert forall d | 0 <= d < n :: players[..n][d] == players[d];
      if players[n].frame < players[c].frame {
        c := n;
      }
    }
  }

  ghost function SomeTurn<B>(ports: set<Port>, frame: int, b: B): (tuples: seq<ButtonsFrame<B>>)
    ensures IsTurn(tuples, ports, frame)
    decreases ports
  {
    if ports == {} then []
    else
      var p :| p in ports;
      var rest := SomeTurn(ports - {p}, frame, b);
      TurnGrows(ports, p, frame, b, rest);
      [ButtonsFrame(p, frame, b)] + rest
  }

  lemma TurnGrows<B>(ports: set<Port>, p: Port, frame: int, b: B, rest: seq<ButtonsFrame<B>>)
    requires p in ports && IsTurn(rest, ports - {p}, frame)
    ensures IsTurn([ButtonsFrame(p, frame, b)] + rest, ports, frame)
  {
    var tuples := [ButtonsFrame(p, frame, b)] + rest;
    assert tuples[1..] == rest;
    forall q <- ports ensures HasPort(tuples, q) {
      FirstPort(tuples, q);
    }
    forall j | 0 <= j < |rest| ensures rest[j].port != p {
      assert rest[j] in rest;
    }
  }

  /** There are programs for every configuration. */
  lemma SomeProgram<B>(cfg: Config<B>) returns (prog: Program<B>)
    ensures IsProgram(cfg, prog)
  {
    prog := Program(
      (c: nat, n: nat) => if c < |cfg.locals| then SomeTurn(cfg.locals[c], n, cfg.blank) else [],
      (_, _, todo) => if port: Port :| port in todo then port else Unknown);
  }

  /** A frame that its owner has put is with the player, or on its way. */
  lemma FrameIsSomewhere<B>(
      cfg: Config<B>, q: QueueState<B>, keys: seq<KeyState>, transit: set<KeyState>, p: Port, puts: nat, frame: nat)
    requires PortOk(cfg, q, keys, transit, p, puts)
    requires 0 <= D(cfg, p) == q.initial && q.latest == frame - 1 && frame < puts
    ensures Answers(q, frame) || HasKey(keys, p, frame) || InTransit(transit, p, frame)
  {
    assert q.initial <= frame ==> Open(q.latest, D(cfg, p), puts, frame);
  }

  /** A player that waits for a port of somebody who has put that frame can be served. */
  lemma WaitingIsServed<B>(cfg: Config<B>, room: Room<B>, c: nat, port: Port, puts: map<Port, nat>)
      returns (move: Move<B>)
    requires c < |cfg.locals| == |room.players| == |room.transit|
    requires View(cfg, c, room.players[c], room.transit[c], puts)
    requires room.players[c].put && port in room.players[c].todo
    requires 0 <= D(cfg, port) && room.players[c].frame < puts[port]
    ensures CanMove(cfg, room, move) && (move.Deliver? || move == GetTurn(c, port))
  {
    var player, transit := room.players[c], room.transit[c];
    assert QueueOk(cfg, c, player, port);
    FrameIsSomewhere(cfg, player.h.queues[port], Keys(player.h.incoming), transit, port, puts[port], player.frame);
    if InTransit(transit, port, player.frame) {
      var key :| key in transit && key.port == port && key.frame == player.frame;
      move := Move.Deliver(c, [key]);
    } else {
      move := GetTurn(c, port);
    }
  }

  lemma OwnTurn<B>(cfg: Config<B>, prog: Program<B>, room: Room<B>, c: nat) returns (move: Move<B>)
    requires c < |cfg.locals| == |room.players| == |room.transit| && !room.players[c].put
    requires IsProgram(cfg, prog)
    ensures CanHappen(cfg, prog, room, move) && move.c == c && !move.Deliver?
  {
    move := PutTurn(c, prog.Turn(c, room.players[c].frame));
  }

  /** A player that is furthest behind and asks for a port: it can be served, or the
      owner of the port has yet to put its frame, and can. */
  lemma LastCanBeServed<B>(
      cfg: Config<B>, prog: Program<B>, room: Room<B>, c: nat, port: Port, o: nat, puts: map<Port, nat>)
      returns (move: Move<B>)
    requires IsProgram(cfg, prog) && Views(cfg, room, puts) && IsLast(room.players, c)
    requires room.players[c].put && room.players[c].todo != {}
    requires port == prog.Ask(c, room.players[c].frame, room.players[c].todo)
    requires o < |cfg.locals| && 0 <= D(cfg, port) && port in puts && puts[port] == Puts(room.players[o])
    ensures CanHappen(cfg, prog, room, move) && (move.Deliver? || IsLast(room.players, move.c))
  {
    if room.players[c].frame < puts[port] {
      move := WaitingIsServed(cfg, room, c, port, puts);
    } else {
      move := OwnTurn(cfg, prog, room, o);
    }
  }

  /** Whatever the players' programs put and in whatever order they ask: in every
      reachable room somebody can go on, and be it only the relay or one of the players
      that are furthest behind. */
  lemma SomeoneCanMove<B(!new)>(cfg: Config<B>, prog: Program<B>, room: Room<B>) returns (move: Move<B>)
    requires Playable(cfg) && IsProgram(cfg, prog) && RoomInv(cfg, room) && cfg.locals != []
    ensures CanHappen(cfg, prog, room, move) && (move.Deliver? || IsLast(room.players, move.c))
  {
    var c := SomeoneIsLast(room.players);
    if !room.players[c].put {
      move := OwnTurn(cfg, prog, room, c);
    } else if room.players[c].todo == {} {
      move := Advance(c);
    } else {
      var port := prog.Ask(c, room.players[c].frame, room.players[c].todo);
      TodoIsConnected(cfg, room, c);
      DelayIsNotNegative(cfg, port);
      move := LastCanBeServed(cfg, prog, room, c, port, Owner(cfg, port), PutsOn(cfg, room.players));
    }
  }

  lemma TodoIsConnected<B(!new)>(cfg: Config<B>, room: Room<B>, c: nat)
    requires Playable(cfg) && RoomInv(cfg, room) && c < |cfg.locals|
    ensures room.players[c].todo <= PortSet(cfg.ports)
  {
    assert View(cfg, c, room.players[c], room.transit[c], PutsOn(cfg, room.players));
  }

  /** Deadlock freedom. */
  lemma DeadlockFree<B(!new)>(cfg: Config<B>, prog: Program<B>, moves: seq<Move<B>>)
    requires Playable(cfg) && IsProgram(cfg, prog) && cfg.locals != []
    ensures exists move :: CanHappen(cfg, prog, Play(cfg, moves), move)
  {
    PlayKeepsInv(cfg, moves);
    var move := SomeoneCanMove(cfg, prog, Play(cfg, moves));
  }

  /** Skew: a player is never more than the delay plus one ahead of the owner of a port. */
  lemma BoundedSkew<B(!new)>(cfg: Config<B>, moves: seq<Move<B>>, c: nat, o: nat)
    requires Playable(cfg) && c < |cfg.locals| && o < |cfg.locals|
    ensures var players := Play(cfg, moves).players;
            && |players| == |cfg.locals|
            && forall p <- cfg.locals[o] :: players[c].frame <= players[o].frame + D(cfg, p) + 1
  {
    PlayKeepsInv(cfg, moves);
    var room := Play(cfg, moves);
    OwnPuts(cfg, room.players, o);
    forall p <- cfg.locals[o] ensures room.players[c].frame <= room.players[o].frame + D(cfg, p) + 1 {
      SkewIsLagOfQueue(cfg, c, room.players[c], room.transit[c], PutsOn(cfg, room.players), p);
    }
  }

  lemma SkewIsLagOfQueue<B>(cfg: Config<B>, c: nat, player: Player<B>, transit: set<KeyState>, puts: map<Port, nat>, p: Port)
    requires c < |cfg.locals| && View(cfg, c, player, transit, puts) && p in puts
    ensures player.frame <= D(cfg, p) + puts[p]
  {
    assert QueueOk(cfg, c, player, p);
    assert PortOk(cfg, player.h.queues[p], Keys(player.h.incoming), transit, p, puts[p]);
  }

  /** The frames of port p that have reached player c's queue, its stream, or the relay. */
  function Frames(keys: set<KeyState>, p: Port): set<int> {
    set key | key in keys && key.port == p :: key.frame
  }

  function Unconsumed<B>(player: Player<B>, transit: set<KeyState>, p: Port): nat
    requires p in player.h.queues
  {
    |player.h.queues[p].buttons| + |Frames(KeySet(Keys(player.h.incoming)), p)| + |Frames(transit, p)|
  }

  /** What is put on a port and not yet consumed fits into the open frames. */
  lemma UnconsumedIsOpen<B>(cfg: Config<B>, c: nat, player: Player<B>, transit: set<KeyState>, puts: map<Port, nat>, p: Port)
    requires c < |cfg.locals| && View(cfg, c, player, transit, puts) && p in puts
    requires player.frame <= D(cfg, p) + puts[p]
    ensures Unconsumed(player, transit, p) <= D(cfg, p) + puts[p] - player.frame
  {
    var q, keys := player.h.queues[p], Keys(player.h.incoming);
    var queued, stream, moving := q.buttons.Keys, Frames(KeySet(keys), p), Frames(transit, p);
    assert QueueOk(cfg, c, player, p) && PortOk(cfg, q, keys, transit, p, puts[p]);
    forall g: int
      ensures g in stream <==> HasKey(keys, p, g)
      ensures g in moving <==> InTransit(transit, p, g)
    {
      FramesAreKeys(keys, transit, p, g);
    }
    var open := Interval(player.frame, D(cfg, p) + puts[p]);
    assert queued + stream + moving <= open;
    SizesAdd(queued, stream, moving, open);
    assert |q.buttons| == |queued|;
  }

  lemma FramesAreKeys(keys: seq<KeyState>, transit: set<KeyState>, p: Port, g: int)
    ensures g in Frames(KeySet(keys), p) <==> HasKey(keys, p, g)
    ensures g in Frames(transit, p) <==> InTransit(transit, p, g)
  {
    if HasKey(keys, p, g) {
      var i :| 0 <= i < |keys| && keys[i].port == p && keys[i].frame == g;
      assert keys[i] in KeySet(keys);
    }
  }

  lemma SizesAdd(a: set<int>, b: set<int>, c: set<int>, all: set<int>)
    requires a !! b && (a + b) !! c && a + b + c <= all
    ensures |a| + |b| + |c| <= |all|
  {
    assert all == a + b + c + (all - (a + b + c));
  }

  /** Bounded buffering: for two players that own ports, what one of them has not yet
      consumed of a port of the other is at most the sum of the two delays plus 2; and
      a player's own queues hold at most the delay plus 1. */
  lemma BoundedBuffers<B(!new)>(cfg: Config<B>, moves: seq<Move<B>>, c: nat, o: nat)
    requires Playable(cfg) && c < |cfg.locals| && o < |cfg.locals|
    ensures var room := Play(cfg, moves);
            && |room.players| == |room.transit| == |cfg.locals|
            && forall own, p | own in cfg.locals[c] && p in cfg.locals[o] ::
                 && p in room.players[c].h.queues
                 && Unconsumed(room.players[c], room.transit[c], p) <= D(cfg, own) + D(cfg, p) + 2
                 && (c == o ==> Unconsumed(room.players[c], room.transit[c], p) <= D(cfg, p) + 1)
  {
    PlayKeepsInv(cfg, moves);
    var room := Play(cfg, moves);
    OwnPuts(cfg, room.players, o);
    BoundedSkew(cfg, moves, c, o);
    BoundedSkew(cfg, moves, o, c);
    forall own, p | own in cfg.locals[c] && p in cfg.locals[o]
      ensures p in room.players[c].h.queues
      ensures Unconsumed(room.players[c], room.transit[c], p) <= D(cfg, p) + Puts(room.players[o]) - room.players[c].frame
    {
      SkewIsLagOfQueue(cfg, c, room.players[c], room.transit[c], PutsOn(cfg, room.players), p);
      UnconsumedIsOpen(cfg, c, room.players[c], room.transit[c], PutsOn(cfg, room.players), p);
    }
  }

  // ---------------------------------------------------------------------------
  // The game goes on

  /** Moves that a player has to make before it gets to frame n, with four ports at most. */
  function MovesLeft<B>(player: Player<B>, n: nat): nat {
    if player.frame >= n then 0
    else 6 * (n - player.frame) - (if player.put then 5 - |player.todo| else 0)
  }

  function AllMovesLeft<B>(players: seq<Player<B>>, n: nat): nat {
    if players == [] then 0 else MovesLeft(players[0], n) + AllMovesLeft(players[1..], n)
  }

  function AllInTransit(transit: seq<set<KeyState>>): nat {
    if transit == [] then 0 else |transit[0]| + AllInTransit(transit[1..])
  }

  lemma {:induction false} MovesLeftUpdate<B>(players: seq<Player<B>>, c: nat, player: Player<B>, n: nat)
    requires c < |players|
    ensures AllMovesLeft(players[c := player], n)
            == AllMovesLeft(players, n) - MovesLeft(players[c], n) + MovesLeft(player, n)
    decreases |players|
  {
    if c > 0 {
      assert players[c := player][1..] == players[1..][c - 1 := player];
      MovesLeftUpdate(players[1..], c - 1, player, n);
    }
  }

  lemma {:induction false} InTransitUpdate(transit: seq<set<KeyState>>, c: nat, keys: set<KeyState>)
    requires c < |transit|
    ensures AllInTransit(transit[c := keys]) == AllInTransit(transit) - |transit[c]| + |keys|
    decreases |transit|
  {
    if c > 0 {
      assert transit[c := keys][1..] == transit[1..][c - 1 := keys];
      InTransitUpdate(transit[1..], c - 1, keys);
    }
  }

  lemma {:induction false} AtMostListed(ports: seq<ConnectedPort>)
    ensures |PortSet(ports)| <= |ports|
  {
    if ports != [] {
      AtMostListed(ports[1..]);
      assert ports == [ports[0]] + ports[1..];
      assert PortSet(ports) == {ports[0].port} + PortSet(ports[1..]);
    }
  }

  lemma AtMostFour<B(!new)>(cfg: Config<B>, ports: set<Port>, c: nat)
    requires ValidConfig(cfg) && c < |cfg.locals| && ports <= PortSet(cfg.ports)
    ensures |ports| <= |PortSet(cfg.ports)| <= 4
  {
    assert WellFormed(cfg.locals[c], cfg.ports);
    AtMostListed(cfg.ports);
    assert PortSet(cfg.ports) == ports + (PortSet(cfg.ports) - ports);
  }

  /** Every player owns four ports at most, and so its turn puts at most four keys on
      the way to each of the others. */
  lemma {:induction false} TurnAtMost<B>(tuples: seq<ButtonsFrame<B>>, ports: set<Port>, frame: int)
    requires IsTurn(tuples, ports, frame)
    ensures |tuples| <= |ports|
    decreases |tuples|
  {
    if tuples != [] {
      var p, rest := tuples[0].port, tuples[1..];
      assert tuples[0] in tuples;
      forall t <- rest ensures t in tuples && t.port != p {
        var i :| 0 <= i < |rest| && rest[i] == t;
        assert tuples[i + 1] == t;
      }
      forall q <- ports - {p} ensures HasPort(rest, q) {
        FirstPort(tuples, q);
      }
      TurnAtMost(rest, ports - {p}, frame);
    }
  }

  lemma {:induction false} KeysAtMost<B>(su: Setup<B>, queues: Queues<B>, tuples: seq<ButtonsFrame<B>>)
    ensures |PutTuples(su, queues, tuples).keys| <= |tuples|
    decreases |tuples|
  {
    if tuples != [] {
      KeysAtMost(su, PutTuple(su, queues, tuples[0]).queues, tuples[1..]);
    }
  }

  lemma {:induction false} KeySetAtMost(keys: seq<KeyState>)
    ensures |KeySet(keys)| <= |keys|
  {
    if keys != [] {
      KeySetAtMost(keys[1..]);
      assert KeySet(keys) == {keys[0]} + KeySet(keys[1..]);
    }
  }

  lemma {:induction false} TransitGrows(transit: seq<set<KeyState>>, transit': seq<set<KeyState>>)
    requires |transit| == |transit'| && forall d | 0 <= d < |transit| :: |transit'[d]| <= |transit[d]| + 4
    ensures AllInTransit(transit') <= AllInTransit(transit) + 4 * |transit|
    decreases |transit|
  {
    if transit != [] {
      TransitGrows(transit[1..], transit'[1..]);
    }
  }

  lemma TurnSendsFour<B(!new)>(cfg: Config<B>, room: Room<B>, move: Move<B>)
    requires ValidConfig(cfg) && CanMove(cfg, room, move) && move.PutTurn?
    ensures AllInTransit(AfterMove(cfg, room, move).transit) <= AllInTransit(room.transit) + 4 * |cfg.locals|
  {
    var su, queues := SetupOf(cfg, move.c), room.players[move.c].h.queues;
    var keys := PutTuples(su, queues, move.tuples).keys;
    assert WellFormed(cfg.locals[move.c], cfg.ports);
    AtMostFour(cfg, cfg.locals[move.c], move.c);
    TurnAtMost(move.tuples, cfg.locals[move.c], room.players[move.c].frame);
    KeysAtMost(su, queues, move.tuples);
    KeySetAtMost(keys);
    SendingAddsFour(room.transit, AfterMove(cfg, room, move).transit, KeySet(keys));
  }

  lemma SendingAddsFour(transit: seq<set<KeyState>>, transit': seq<set<KeyState>>, sent: set<KeyState>)
    requires |transit| == |transit'| && |sent| <= 4
    requires forall d | 0 <= d < |transit| :: transit'[d] == transit[d] || transit'[d] == transit[d] + sent
    ensures AllInTransit(transit') <= AllInTransit(transit) + 4 * |transit|
  {
    forall d | 0 <= d < |transit| ensures |transit'[d]| <= |transit[d]| + 4 {
      assert transit[d] + sent == transit[d] + (sent - transit[d]) && sent == (sent - transit[d]) + sent * transit[d];
    }
    TransitGrows(transit, transit');
  }

  /** How many moves the players and the relay can still make before all players are
      at frame n: each own move counts for all the deliveries it may cause. */
  function Effort<B>(room: Room<B>, n: nat): nat {
    AllMovesLeft(room.players, n) * (4 * |room.transit| + 1) + AllInTransit(room.transit)
  }

  /** A move of the game of n frames: of the relay, or of a player that is behind n. */
  ghost predicate IsLive<B>(cfg: Config<B>, room: Room<B>, move: Move<B>, n: nat) {
    CanMove(cfg, room, move) && (move.Deliver? || room.players[move.c].frame < n)
  }

  /** Every such move takes some of the effort. */
  lemma LiveMoveCounts<B(!new)>(cfg: Config<B>, room: Room<B>, move: Move<B>, n: nat)
    requires Playable(cfg) && RoomInv(cfg, room) && IsLive(cfg, room, move, n)
    ensures Effort(AfterMove(cfg, room, move), n) < Effort(room, n)
  {
    if move.Deliver? {
      DeliveryCounts(cfg, room, move, n);
    } else {
      FourPortsAtMost(cfg, room, move.c);
      OwnMoveSends(cfg, room, move);
      OwnMoveCounts(cfg, room, move, n);
    }
  }

  lemma FourPortsAtMost<B(!new)>(cfg: Config<B>, room: Room<B>, c: nat)
    requires Playable(cfg) && RoomInv(cfg, room) && c < |cfg.locals|
    ensures |room.players[c].todo| <= 4 && |PortSet(cfg.ports)| <= 4
  {
    TodoIsConnected(cfg, room, c);
    AtMostFour(cfg, room.players[c].todo, c);
  }

  lemma OwnMoveSends<B(!new)>(cfg: Config<B>, room: Room<B>, move: Move<B>)
    requires ValidConfig(cfg) && CanMove(cfg, room, move) && !move.Deliver?
    ensures AllInTransit(AfterMove(cfg, room, move).transit) <= AllInTransit(room.transit) + 4 * |cfg.locals|
  {
    if move.PutTurn? {
      TurnSendsFour(cfg, room, move);
    } else {
      AfterOwnMove(cfg, room, move);
      assert AfterMove(cfg, room, move).transit == room.transit;
    }
  }

  lemma DeliveryCounts<B>(cfg: Config<B>, room: Room<B>, move: Move<B>, n: nat)
    requires CanMove(cfg, room, move) && move.Deliver?
    ensures Effort(AfterMove(cfg, room, move), n) < Effort(room, n)
  {
    var c, room' := move.c, AfterMove(cfg, room, move);
    MovesLeftUpdate(room.players, c, room'.players[c], n);
    InTransitUpdate(room.transit, c, room'.transit[c]);
    FewerLeft(room.transit[c], move.keys);
  }

  lemma OwnMoveCounts<B>(cfg: Config<B>, room: Room<B>, move: Move<B>, n: nat)
    requires IsLive(cfg, room, move, n) && !move.Deliver?
    requires |room.players[move.c].todo| <= 4 && |PortSet(cfg.ports)| <= 4
    requires AllInTransit(AfterMove(cfg, room, move).transit) <= AllInTransit(room.transit) + 4 * |cfg.locals|
    ensures Effort(AfterMove(cfg, room, move), n) < Effort(room, n)
  {
    var c, room' := move.c, AfterMove(cfg, room, move);
    OneMoveLess(cfg, room, move, n);
    MovesLeftUpdate(room.players, c, room'.players[c], n);
    assert |room'.transit| == |room.transit| == |cfg.locals|;
    LessEffort(AllMovesLeft(room'.players, n), AllMovesLeft(room.players, n), 4 * |cfg.locals|);
  }

  lemma LessEffort(a: nat, b: nat, k: nat)
    requires a < b
    ensures a * (k + 1) + k < b * (k + 1)
  {
    assert (b - a - 1) * (k + 1) >= 0;
  }

  lemma OneMoveLess<B>(cfg: Config<B>, room: Room<B>, move: Move<B>, n: nat)
    requires CanMove(cfg, room, move)
    requires |room.players[move.c].todo| <= 4 && |PortSet(cfg.ports)| <= 4
    ensures var c, room' := move.c, AfterMove(cfg, room, move);
            && c < |room'.players| && room'.players == room.players[c := room'.players[c]]
            && if move.Deliver? then MovesLeft(room'.players[c], n) == MovesLeft(room.players[c], n)
               else room.players[c].frame < n ==> MovesLeft(room'.players[c], n) < MovesLeft(room.players[c], n)
  {
  }

  lemma FewerLeft(transit: set<KeyState>, keys: seq<KeyState>)
    requires keys != [] && forall key <- keys :: key in transit
    ensures |transit - KeySet(keys)| < |transit|
  {
    var gone := transit * KeySet(keys);
    assert keys[0] in gone;
    assert transit == (transit - KeySet(keys)) + gone;
  }

  ghost predicate AllAt<B>(players: seq<Player<B>>, n: nat) {
    forall c | 0 <= c < |players| :: n <= players[c].frame
  }

  /** A run of the game of n frames in which every player follows its program; the
      relay does as it likes. */
  ghost predicate Runs<B>(cfg: Config<B>, prog: Program<B>, room: Room<B>, moves: seq<Move<B>>, n: nat)
    decreases |moves|
  {
    moves != [] ==>
      && IsLive(cfg, room, moves[0], n) && Follows(prog, room, moves[0])
      && Runs(cfg, prog, AfterMove(cfg, room, moves[0]), moves[1..], n)
  }

  /** Nothing more can happen in the game of n frames. */
  ghost predicate IsOver<B(!new)>(cfg: Config<B>, prog: Program<B>, room: Room<B>, n: nat) {
    forall move :: !(IsLive(cfg, room, move, n) && Follows(prog, room, move))
  }

  /** No run is longer than the effort it starts with. */
  lemma {:induction false} RunsAreBounded<B(!new)>(
      cfg: Config<B>, prog: Program<B>, room: Room<B>, moves: seq<Move<B>>, n: nat)
    requires Playable(cfg) && RoomInv(cfg, room) && Runs(cfg, prog, room, moves, n)
    ensures RoomInv(cfg, PlayOn(cfg, room, moves))
    ensures |moves| + Effort(PlayOn(cfg, room, moves), n) <= Effort(room, n)
    decreases |moves|
  {
    if moves != [] {
      LiveMoveCounts(cfg, room, moves[0], n);
      MoveKeepsInv(cfg, room, moves[0]);
      RunsAreBounded(cfg, prog, AfterMove(cfg, room, moves[0]), moves[1..], n);
    }
  }

  /** A game that is over ended with all players at frame n. */
  lemma OverMeansAllAt<B(!new)>(cfg: Config<B>, prog: Program<B>, room: Room<B>, n: nat)
    requires Playable(cfg) && IsProgram(cfg, prog) && RoomInv(cfg, room) && IsOver(cfg, prog, room, n)
    ensures AllAt(room.players, n)
  {
    if !AllAt(room.players, n) {
      var move := SomeoneCanMove(cfg, prog, room);
      assert IsLive(cfg, room, move, n);
    }
  }

  lemma {:induction false} OpeningMovesLeft<B>(players: seq<Player<B>>, n: nat)
    requires forall c | 0 <= c < |players| :: players[c].frame == 0 && !players[c].put
    ensures AllMovesLeft(players, n) == 6 * n * |players|
  {
    if players != [] {
      OpeningMovesLeft(players[1..], n);
      assert 6 * n + 6 * n * (|players| - 1) == 6 * n * |players|;
    }
  }

  lemma {:induction false} NothingInTransit(transit: seq<set<KeyState>>)
    requires forall d | 0 <= d < |transit| :: transit[d] == {}
    ensures AllInTransit(transit) == 0
  {
    if transit != [] {
      NothingInTransit(transit[1..]);
    }
  }

  lemma OpeningEffort<B>(cfg: Config<B>, n: nat)
    ensures Effort(Opening(cfg), n) == 6 * n * |cfg.locals| * (4 * |cfg.locals| + 1)
  {
    OpeningMovesLeft(Opening(cfg).players, n);
    NothingInTransit(Opening(cfg).transit);
  }

  /** Progress is inevitable: every run of the game of n frames ends, after a number of
      moves that depends on n and the number of players only, and when nothing more can
      happen all players are at frame n. */
  lemma EveryGameEnds<B(!new)>(cfg: Config<B>, prog: Program<B>, moves: seq<Move<B>>, n: nat)
    requires Playable(cfg) && IsProgram(cfg, prog)
    requires Runs(cfg, prog, Opening(cfg), moves, n)
    ensures |moves| <= 6 * n * |cfg.locals| * (4 * |cfg.locals| + 1)
    ensures IsOver(cfg, prog, Play(cfg, moves), n) ==>
              var players := Play(cfg, moves).players;
              |players| == |cfg.locals| && AllAt(players, n)
  {
    OpeningInv(cfg);
    RunsAreBounded(cfg, prog, Opening(cfg), moves, n);
    OpeningEffort(cfg, n);
    if IsOver(cfg, prog, Play(cfg, moves), n) {
      OverMeansAllAt(cfg, prog, Play(cfg, moves), n);
    }
  }

  /** As long as somebody is behind frame n, something can happen that brings all of
      them closer to it. */
  lemma NextMove<B(!new)>(cfg: Config<B>, prog: Program<B>, room: Room<B>, n: nat) returns (move: Move<B>)
    requires Playable(cfg) && IsProgram(cfg, prog) && RoomInv(cfg, room) && cfg.locals != []
    requires !AllAt(room.players, n)
    ensures IsLive(cfg, room, move, n) && Follows(prog, room, move)
    ensures RoomInv(cfg, AfterMove(cfg, room, move)) && Effort(AfterMove(cfg, room, move), n) < Effort(room, n)
  {
    move := SomeoneCanMove(cfg, prog, room);
    LiveMoveCounts(cfg, room, move, n);
    MoveKeepsInv(cfg, room, move);
  }

  lemma {:induction false} EveryFrameCanBeReached<B(!new)>(cfg: Config<B>, prog: Program<B>, room: Room<B>, n: nat)
      returns (more: seq<Move<B>>)
    requires Playable(cfg) && IsProgram(cfg, prog) && RoomInv(cfg, room) && cfg.locals != []
    ensures Runs(cfg, prog, room, more, n) && AllAt(PlayOn(cfg, room, more).players, n)
    decreases Effort(room, n)
  {
    if AllAt(room.players, n) {
      more := [];
    } else {
      var move := NextMove(cfg, prog, room, n);
      var rest := EveryFrameCanBeReached(cfg, prog, AfterMove(cfg, room, move), n);
      more := [move] + rest;
      assert more[1..] == rest;
    }
  }

  /** From every reachable room the programs can still be run until all players are at
      any given frame. */
  lemma EveryFrameIsReached<B(!new)>(cfg: Config<B>, prog: Program<B>, moves: seq<Move<B>>, n: nat)
      returns (more: seq<Move<B>>)
    requires Playable(cfg) && IsProgram(cfg, prog) && cfg.locals != []
    ensures Runs(cfg, prog, Play(cfg, moves), more, n)
    ensures var players := PlayOn(cfg, Play(cfg, moves), more).players;
            |players| == |cfg.locals| && AllAt(players, n)
  {
    PlayKeepsInv(cfg, moves);
    more := EveryFrameCanBeReached(cfg, prog, Play(cfg, moves), n);
    PlayOnKeepsInv(cfg, Play(cfg, moves), more);
  }
}
