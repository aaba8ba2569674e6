/** The game loop over a reliable relay: every client puts frame n on its own ports,
    gets frame n of every port, and goes on to frame n + 1. The relay loses and
    duplicates nothing, but may delay, reorder and regroup keys as it likes. */
module GameLoop {
  import opened NetplayTypes
  import opened DelayLine
  import opened HandlerModel
  import opened HandlerResults
  import opened Lockstep

  /** Server and coder do their part: delays are not negative, every connected port
      belongs to a client, and all buttons can be encoded. */
  ghost predicate Playable<B(!new)>(cfg: Config<B>) {
    && ValidConfig(cfg)
    && (forall i | 0 <= i < |cfg.ports| :: 0 <= cfg.ports[i].delayFrames)
    && (forall p <- PortSet(cfg.ports) :: exists o: nat :: Owns(cfg, o, p))
    && (forall b: B :: cfg.coder.Encode(b).Some?)
  }

  predicate Owns<B>(cfg: Config<B>, o: nat, p: Port) {
    o < |cfg.locals| && p in cfg.locals[o]
  }

  function D<B>(cfg: Config<B>, p: Port): int {
    Delay(cfg.ports, p)
  }

  /** `put`: whether this frame's own buttons are out; `todo`: the ports to get still. */
  datatype Player<B> = Player(h: Handler<B>, frame: nat, put: bool, todo: set<Port>)

  /** `transit[c]` are the keys on their way to player c. */
  datatype Room<B> = Room(players: seq<Player<B>>, transit: seq<set<KeyState>>)

  datatype Move<B> =
    | PutTurn(c: nat, tuples: seq<ButtonsFrame<B>>)
    | Deliver(c: nat, keys: seq<KeyState>)
    | GetTurn(c: nat, port: Port)
    | Advance(c: nat)

  ghost predicate HasPort<B>(tuples: seq<ButtonsFrame<B>>, p: Port) {
    exists i :: 0 <= i < |tuples| && tuples[i].port == p
  }

  /** One tuple for each of these ports, in any order, all for one frame. */
  ghost predicate IsTurn<B>(tuples: seq<ButtonsFrame<B>>, ports: set<Port>, frame: int) {
    && (forall t <- tuples :: t.port in ports && t.frame == frame)
    && (forall i, j | 0 <= i < j < |tuples| :: tuples[i].port != tuples[j].port)
    && (forall p <- ports :: HasPort(tuples, p))
  }

  /** A get that would have to wait for the relay. */
  predicate Blocks<B>(su: Setup<B>, h: Handler<B>, port: Port, frame: int) {
    && port in h.queues && port !in su.localPorts
    && Answer(h.queues[port], frame, su.blank) == Timeout
    && !HasKey(Keys(h.incoming), port, frame)
  }

  /** A player together with the keys on their way to it. */
  datatype Seat<B> = Seat(player: Player<B>, transit: set<KeyState>)

  /** Whether the player itself may make this move. */
  ghost predicate MayMove<B>(cfg: Config<B>, seat: Seat<B>, move: Move<B>)
    requires move.c < |cfg.locals|
  {
    var player := seat.player;
    match move
    case PutTurn(c, tuples) => !player.put && IsTurn(tuples, cfg.locals[c], player.frame)
    case Deliver(_, keys) =>
      && keys != [] && (forall key <- keys :: key in seat.transit)
      && forall i, j | 0 <= i < j < |keys| :: keys[i] != keys[j]
    case GetTurn(c, port) =>
      player.put && port in player.todo && !Blocks(SetupOf(cfg, c), player.h, port, player.frame)
    case Advance(_) => player.put && player.todo == {}
  }

  ghost predicate CanMove<B>(cfg: Config<B>, room: Room<B>, move: Move<B>) {
    && move.c < |cfg.locals| == |room.players| == |room.transit|
    && MayMove(cfg, SeatOf(room, move.c), move)
  }

  /** What a player's program fixes: the batch it puts for each frame, and which of the
      ports it has still to get it asks for next. A player whose get has to wait can do
      nothing else. */
  datatype Program<!B> = Program(turn: (nat, nat) -> seq<ButtonsFrame<B>>, ask: (nat, nat, set<Port>) -> Port) {
    function Turn(c: nat, frame: nat): seq<ButtonsFrame<B>> {
      turn(c, frame)
    }

    function Ask(c: nat, frame: nat, todo: set<Port>): Port {
      ask(c, frame, todo)
    }
  }

  /** The program puts for all own ports, and asks only for ports that it has to get. */
  ghost predicate IsProgram<B>(cfg: Config<B>, prog: Program<B>) {
    && (forall c: nat, n: nat | c < |cfg.locals| :: IsTurn(prog.Turn(c, n), cfg.locals[c], n))
    && forall c: nat, n: nat, todo: set<Port> | todo != {} :: prog.Ask(c, n, todo) in todo
  }

  /** The move is one that the relay may choose, or the only one that the player's
      program allows it to make next. */
  ghost predicate Follows<B>(prog: Program<B>, room: Room<B>, move: Move<B>)
    requires move.c < |room.players|
  {
    var player := room.players[move.c];
    match move
    case PutTurn(c, tuples) => tuples == prog.Turn(c, player.frame)
    case Deliver(_, _) => true
    case GetTurn(c, port) => port == prog.Ask(c, player.frame, player.todo)
    case Advance(_) => true
  }

  /** What may happen next when every player runs its program. */
  ghost predicate CanHappen<B>(cfg: Config<B>, prog: Program<B>, room: Room<B>, move: Move<B>) {
    CanMove(cfg, room, move) && Follows(prog, room, move)
  }

  function KeySet(keys: seq<KeyState>): set<KeyState> {
    set key | key in keys
  }

  /** What a move other than PutTurn does to the player that makes it. */
  ghost function OwnMove<B>(cfg: Config<B>, seat: Seat<B>, move: Move<B>): Seat<B>
    requires move.c < |cfg.locals|
  {
    var player := seat.player;
    match move
    case PutTurn(_, _) => seat
    case Deliver(_, keys) =>
      var event := IncomingEvent(false, None, false, keys);
      Seat(player.(h := player.h.(incoming := player.h.incoming + [Some(event)])), seat.transit - KeySet(keys))
    case GetTurn(c, port) =>
      var get := GetButtons(SetupOf(cfg, c), player.h, port, player.frame);
      seat.(player := player.(h := get.state, todo := player.todo - {port}))
    case Advance(_) => seat.(player := player.(frame := player.frame + 1, put := false))
  }

  function SeatOf<B>(room: Room<B>, c: nat): Seat<B>
    requires c < |room.players| == |room.transit|
  {
    Seat(room.players[c], room.transit[c])
  }

  function Reseat<B>(room: Room<B>, c: nat, seat: Seat<B>): Room<B>
    requires c < |room.players| == |room.transit|
  {
    Room(room.players[c := seat.player], room.transit[c := seat.transit])
  }

  ghost function AfterMove<B>(cfg: Config<B>, room: Room<B>, move: Move<B>): Room<B> {
    if !CanMove(cfg, room, move) then room
    else if !move.PutTurn? then Reseat(room, move.c, OwnMove(cfg, SeatOf(room, move.c), move))
    else
      var player, su := room.players[move.c], SetupOf(cfg, move.c);
      var pass := PutTuples(su, player.h.queues, move.tuples);
      var sent := if pass.status == PutSuccess then KeySet(pass.keys) else {};
      var put := PutButtons(su, player.h, move.tuples, true).state;
      Room(room.players[move.c := Player(put, player.frame, true, PortSet(cfg.ports))],
           seq(|room.transit|, d requires 0 <= d < |room.transit| =>
             if d == move.c then room.transit[d] else room.transit[d] + sent))
  }

  function Opening<B>(cfg: Config<B>): Room<B> {
    Room(seq(|cfg.locals|, c requires 0 <= c < |cfg.locals| => Player(Started(cfg, c), 0, false, {})),
         seq(|cfg.locals|, _ => {}))
  }

  ghost function PlayOn<B>(cfg: Config<B>, room: Room<B>, moves: seq<Move<B>>): Room<B>
    decreases |moves|
  {
    if moves == [] then room else PlayOn(cfg, AfterMove(cfg, room, moves[0]), moves[1..])
  }

  ghost function Play<B>(cfg: Config<B>, moves: seq<Move<B>>): Room<B> {
    PlayOn(cfg, Opening(cfg), moves)
  }

  // ---------------------------------------------------------------------------
  // The invariant

  /** How many frames a player has put so far. */
  function Puts<B>(player: Player<B>): nat {
    player.frame + if player.put then 1 else 0
  }

  ghost predicate InTransit(transit: set<KeyState>, port: Port, frame: int) {
    exists key :: key in transit && key.port == port && key.frame == frame
  }

  ghost predicate NoDuplicates(keys: seq<KeyState>) {
    forall i, j | 0 <= i < j < |keys| :: keys[i].port != keys[j].port || keys[i].frame != keys[j].frame
  }

  ghost predicate QueueOk<B>(cfg: Config<B>, c: nat, player: Player<B>, p: Port)
    requires c < |cfg.locals| && p in player.h.queues
  {
    var q := player.h.queues[p];
    && QueueInv(q)
    && q.initial == D(cfg, p) && q.delay == (if p in cfg.locals[c] then D(cfg, p) else 0)
    && q.latest == player.frame - (if player.put && p !in player.todo then 0 else 1)
  }

  /** A key that player c can take in. */
  ghost predicate KeyOk<B>(cfg: Config<B>, c: nat, key: KeyState)
    requires c < |cfg.locals|
  {
    key.port in PortSet(cfg.ports) && key.port !in cfg.locals[c] && cfg.coder.Decode(key.pad).Some?
  }

  ghost predicate PlayerOk<B>(cfg: Config<B>, c: nat, player: Player<B>)
    requires c < |cfg.locals|
  {
    && player.h.queues.Keys == PortSet(cfg.ports) && player.todo <= PortSet(cfg.ports)
    && (forall p <- player.h.queues :: QueueOk(cfg, c, player, p))
    && (forall i | 0 <= i < |player.h.incoming| :: ButtonEvent(player.h.incoming[i]))
    && NoDuplicates(Keys(player.h.incoming))
    && (forall key <- Keys(player.h.incoming) :: KeyOk(cfg, c, key))
  }

  ghost predicate TransitOk<B>(cfg: Config<B>, c: nat, transit: set<KeyState>)
    requires c < |cfg.locals|
  {
    && (forall key <- transit :: KeyOk(cfg, c, key))
    && (forall key, key' | key in transit && key' in transit && key.port == key'.port && key.frame == key'.frame ::
          key == key')
  }

  /** The frames of a port that are put and not yet got. */
  predicate Open(latest: int, delay: int, puts: int, g: int) {
    latest < g && delay <= g < delay + puts
  }

  /** Every open frame of a port is in exactly one place: in the queue, in the stream,
      or in transit; and there is nothing else in them. */
  ghost predicate PortOk<B>(
    cfg: Config<B>, q: QueueState<B>, keys: seq<KeyState>, transit: set<KeyState>, p: Port, puts: nat)
  {
    && q.latest < D(cfg, p) + puts
    && (forall g: int :: Open(q.latest, D(cfg, p), puts, g)
                         <==> g in q.buttons || HasKey(keys, p, g) || InTransit(transit, p, g))
    && (forall g <- q.buttons :: !HasKey(keys, p, g) && !InTransit(transit, p, g))
    && (forall g: int :: !(HasKey(keys, p, g) && InTransit(transit, p, g)))
  }

  /** What player c sees, if `puts` counts the puts on each port. */
  ghost predicate View<B>(cfg: Config<B>, c: nat, player: Player<B>, transit: set<KeyState>, puts: map<Port, nat>)
    requires c < |cfg.locals|
  {
    && PlayerOk(cfg, c, player) && TransitOk(cfg, c, transit)
    && puts.Keys == PortSet(cfg.ports)
    && PortsOk(cfg, player.h.queues, Keys(player.h.incoming), transit, puts)
  }

  ghost predicate PortsOk<B>(
    cfg: Config<B>, queues: Queues<B>, keys: seq<KeyState>, transit: set<KeyState>, puts: map<Port, nat>)
  {
    forall p <- puts :: p in queues && PortOk(cfg, queues[p], keys, transit, p, puts[p])
  }

  ghost function Owner<B(!new)>(cfg: Config<B>, p: Port): (o: nat)
    requires Playable(cfg) && p in PortSet(cfg.ports)
    ensures Owns(cfg, o, p)
  {
    var o: nat :| Owns(cfg, o, p); o
  }

  ghost function PutsOn<B(!new)>(cfg: Config<B>, players: seq<Player<B>>): map<Port, nat>
    requires Playable(cfg) && |players| == |cfg.locals|
  {
    map p | p in PortSet(cfg.ports) :: Puts(players[Owner(cfg, p)])
  }

  ghost predicate Views<B>(cfg: Config<B>, room: Room<B>, puts: map<Port, nat>) {
    && |room.players| == |room.transit| == |cfg.locals|
    && forall c: nat | c < |cfg.locals| :: View(cfg, c, room.players[c], room.transit[c], puts)
  }

  ghost predicate RoomInv<B(!new)>(cfg: Config<B>, room: Room<B>)
    requires Playable(cfg)
  {
    |room.players| == |cfg.locals| && Views(cfg, room, PutsOn(cfg, room.players))
  }
}
