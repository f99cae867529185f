/** The server as a state machine: every message, sweep, frame and write is one step (src/server/server.cc). */
module Service {
  import opened Wire
  import opened Records
  import opened Parsing
  import opened Packing
  import opened Arenas
  import opened GameRules
  import opened Registry
  import opened Outbox

  /** A parsed ClientMessage. */
  datatype Request = Request(session: nat, turn: Direction, next: U32, name: Name)

  /** A datagram before it is serialised. */
  datatype Letter = Letter(id: U32, events: seq<Event>, to: seq<Address>)

  /** down: an exception left a noexcept function, or make_message does not end. posted and sent are histories: all
      letters put in the queue, and all pairs that the socket took. */
  datatype Sys = Sys(
    crc: Checksum, game: Game, conns: seq<Conn>, log: seq<Event>, box: Box, down: bool,
    posted: seq<Letter>, sent: seq<Pair>)

  function Boot(crc: Checksum, width: U32, height: U32, seed: U32): Sys {
    Sys(crc, Initial(width, height, seed), [], [], EMPTY, false, [], [])
  }

  function Post(s: Sys, l: Letter): Sys {
    s.(box := Add(s.box, Outbox.Message(Datagram(s.crc, l.id, l.events), l.to)), posted := s.posted + [l])
  }

  const NOWHERE: Pixels := _ => Pos(0, 0)

  /** remove_player while a game is running, when nothing can start. */
  function Forget(g: Game, name: Name): Game {
    if name == [] then g else RemovePlayer(g, name, NOWHERE).game
  }

  function ForgetAll(g: Game, names: seq<Name>): Game
    decreases |names|
  {
    if names == [] then g else ForgetAll(Forget(g, names[0]), names[1..])
  }

  /** Server::on_event, with the sweep that finding the recipients begins with. */
  function OnEvent(s: Sys, e: Event, now: int): Sys {
    if s.down then s else
    var s := s.(log := Logged(s.log, e));
    if !e.Fits() then s.(down := true) else
    var conns := Kept(s.conns, now);
    Post(s.(conns := conns, game := ForgetAll(s.game, Gone(s.conns, now))),
         Letter(s.game.gameId, [e], Addresses(conns)))
  }

  function Deliver(s: Sys, events: seq<Event>, now: int): Sys
    decreases |events|
  {
    if events == [] then s else Deliver(OnEvent(s, events[0], now), events[1..], now)
  }

  /** Server::on_disconnect; observers are not in the game. */
  function Disconnect(s: Sys, name: Name, now: int, start: Pixels): Sys {
    if s.down || name == [] then s else
    var r := RemovePlayer(s.game, name, start);
    Deliver(s.(game := r.game), r.events, now)
  }

  function DisconnectAll(s: Sys, names: seq<Name>, now: int, start: Pixels): Sys
    decreases |names|
  {
    if names == [] then s else DisconnectAll(Disconnect(s, names[0], now, start), names[1..], now, start)
  }

  /** Connections::cleanup_inactive: the inactive clients are removed, then reported one by one. */
  function Sweep(s: Sys, now: int, start: Pixels): Sys {
    DisconnectAll(s.(conns := Kept(s.conns, now)), Gone(s.conns, now), now, start)
  }

  function PostAll(s: Sys, to: Address, parts: seq<seq<Event>>): Sys
    decreases |parts|
  {
    if parts == [] then s else PostAll(Post(s, Letter(s.game.gameId, parts[0], [to])), to, parts[1..])
  }

  /** Server::make_message, whose loop ends only if every event fits a datagram, see Packing.LoopEndsIff. */
  ghost function Reply(s: Sys, to: Address, next: nat): Sys {
    var events := From(s.log, next);
    if events == [] then s
    else if !AllFit(events) then s.(down := true)
    else PostAll(s, to, Pack([], events))
  }

  /** Server::on_action for the player found; another name is the std::invalid_argument for spoofing. */
  ghost function Answered(s: Sys, player: Name, r: Request, from: Address, now: int, start: Pixels): Sys {
    if player != r.name then s
    else if player == [] then Reply(s, from, r.next) else
    var m := PlayerAction(s.game, player, r.turn, start);
    var s := Deliver(s.(game := m.game), m.events, now);
    if s.down then s else Reply(s, from, r.next)
  }

  /** Server::on_action. */
  ghost function OnAction(s: Sys, r: Request, from: Address, now: int, start: Pixels, connecting: bool): Sys
    decreases if connecting then 0 else 1, 1
  {
    var l := LookUp(s.conns, from, r.session, now);
    var s := DisconnectAll(s.(conns := l.conns), l.gone, now, start);
    if s.down then s else OnAnswer(s, l.answer, r, from, now, start, connecting)
  }

  /** Its exceptions go to receive_message; but when on_connect, which is noexcept, has called it, the client must be
      found. */
  ghost function OnAnswer(
      s: Sys, answer: Answer, r: Request, from: Address, now: int, start: Pixels, connecting: bool): Sys
    decreases if connecting then 0 else 1, 0
  {
    match answer
    case NewerSession => s
    case Found(player) => Answered(s, player, r, from, now, start)
    case NotFound =>
      if connecting then s.(down := true)
      else match OnConnect(s, r, from, now, start) case None => s case Some(s) => OnAction(s, r, from, now, start, true)
  }

  /** Server::on_connect up to its call of on_action; None when the name is taken. */
  function OnConnect(s: Sys, r: Request, from: Address, now: int, start: Pixels): Option<Sys> {
    if r.name == [] then Some(Connect(s, r, from, now, start))
    else match AddPlayer(s.game, r.name)
      case NameIsTaken => None
      case NameIsTooLong => Some(s.(down := true))
      case Joined(g) => Some(Connect(s.(game := g), r, from, now, start))
  }

  function Connect(s: Sys, r: Request, from: Address, now: int, start: Pixels): Sys {
    var s := Sweep(s, now, start);
    s.(conns := s.conns + [Conn(from, r.session, r.name, now)])
  }

  /** A turn of the game loop. */
  function OnFrame(s: Sys, now: int, next: Pixels): Sys {
    if !s.game.running then s else
    var m := DoFrame(s.game, next);
    var r := Deliver(s.(game := m.game), m.events, now);
    if Ends(s.game) then r.(game := Finish(r.game)) else r
  }

  function OnWrite(s: Sys, blocks: bool): Sys {
    var w := Write(s.box, blocks);
    s.(box := w.box, sent := s.sent + Taken(w))
  }

  /** now is the time of the step; start and next are the pixels that the random generator and the motion come up
      with, should a game start or a frame be played in it. */
  datatype Turn =
    | Receive(request: Request, from: Address, now: int, start: Pixels)
    | Timeout(now: int, start: Pixels)
    | Frame(now: int, next: Pixels)
    | Flush(blocks: bool)

  ghost function Turned(s: Sys, t: Turn): Sys {
    if s.down then s
    else match t
      case Receive(r, from, now, start) => OnAction(s, r, from, now, start, false)
      case Timeout(now, start) => Sweep(s, now, start)
      case Frame(now, next) => OnFrame(s, now, next)
      case Flush(blocks) => OnWrite(s, blocks)
  }

  ghost function Served(s: Sys, turns: seq<Turn>): Sys
    decreases |turns|
  {
    if turns == [] then s else Turned(Served(s, turns[..|turns| - 1]), turns[|turns| - 1])
  }
}
