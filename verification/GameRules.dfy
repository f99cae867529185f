/** The game as a state machine: players, readiness, seating, frames (src/siktacka/game.cc). */
module GameRules {
  import opened Wire
  import opened Records
  import opened Generator
  import opened Arenas

  datatype Player = Player(name: Name, no: Byte, inGame: bool, ready: bool)

  /** players is the std::map in its order, one entry for each name. */
  datatype Game = Game(
    arena: Arena, gameId: U32, running: bool, rand: U32, players: seq<Player>, readyCount: Byte)

  /** A state with the events handed to the listener on the way, in order. */
  datatype Moved = Moved(game: Game, events: seq<Event>)

  function Names(players: seq<Player>): (names: seq<Name>)
    ensures |names| == |players|
  {
    seq(|players|, i requires 0 <= i < |players| => players[i].name)
  }

  /** std::map::lower_bound. */
  function Lower(players: seq<Player>, name: Name): (i: nat)
    ensures i <= |players|
  {
    if players == [] || !Less(players[0].name, name) then 0 else 1 + Lower(players[1..], name)
  }

  predicate Has(players: seq<Player>, name: Name) {
    var i := Lower(players, name); i < |players| && players[i].name == name
  }

  function Reset(players: seq<Player>): (r: seq<Player>)
    ensures |r| == |players|
  {
    seq(|players|, i requires 0 <= i < |players| => players[i].(ready := false, inGame := false))
  }

  /** Game::initialize. */
  function Initialize(g: Game): Game {
    g.(gameId := g.rand, rand := Next(g.rand), readyCount := 0,
       arena := g.arena.(eventNo := 1), players := Reset(g.players))
  }

  function Initial(width: U32, height: U32, seed: U32): Game {
    Initialize(Game(Arena(width, height, {}, [], 0, 0), 0, false, seed, [], 0))
  }

  /** The map with a new entry. */
  function Inserted(g: Game, i: nat, name: Name): Game
    requires i <= |g.players|
  {
    g.(players := g.players[..i] + [Player(name, 0, false, false)] + g.players[i..])
  }

  function WithoutAt(players: seq<Player>, i: nat): seq<Player>
    requires i < |players|
  {
    players[..i] + players[i + 1..]
  }

  /** The map without one entry. */
  function Removed(g: Game, i: nat): Game
    requires i < |g.players|
  {
    g.(players := WithoutAt(g.players, i),
       readyCount := if g.players[i].ready then (g.readyCount as int + 0xFF) % 0x100 else g.readyCount)
  }

  /** The player i gets ready. */
  function Readied(g: Game, i: nat): Game
    requires i < |g.players|
  {
    g.(players := g.players[i := g.players[i].(ready := true)], readyCount := (g.readyCount as int + 1) % 0x100)
  }

  datatype JoinResult = Joined(game: Game) | NameIsTooLong | NameIsTaken

  /** Game::add_player, with its two exceptions. */
  function AddPlayer(g: Game, name: Name): JoinResult {
    if |name| > MAX_PLAYER_NAME_LENGTH then NameIsTooLong
    else if Has(g.players, name) then NameIsTaken else
    Joined(Inserted(g, Lower(g.players, name), name))
  }

  /** The local variables of new_game. */
  datatype Seating = Seating(
    arena: Arena, players: seq<Player>, rand: U32, names: seq<Name>, namesLen: nat, playerNo: Byte, events: seq<Event>)

  /** The body of its loop for a player whose name was added; make_snake takes three draws. */
  function Seat(s: Seating, i: nat, names: seq<Name>, len: nat, start: Pos): Seating
    requires i < |s.players|
  {
    var r := PlaceSnake(s.arena.(alive := s.arena.alive + 1), Snake(start, Straight, true), s.playerNo);
    Seating(r.arena.(snakes := s.arena.snakes + [r.snake]),
            s.players[i := s.players[i].(no := s.playerNo, inGame := true)],
            Advance(s.rand, 3), names, len, (s.playerNo as int + 1) % 0x100, s.events + [r.event])
  }

  function SeatFrom(s: Seating, i: nat, start: Pixels): Seating
    decreases |s.players| - i
  {
    if i >= |s.players| then s
    else match AddName(s.names, s.namesLen, s.players[i].name)
      case ListFull => s
      case Added(names, len) => SeatFrom(Seat(s, i, names, len, start(i)), i + 1, start)
      case _ => SeatFrom(s, i + 1, start)
  }

  function Unseated(g: Game): Seating {
    Seating(g.arena.(occupied := {}, snakes := [], alive := 0), g.players, g.rand, [], 0, 0, [])
  }

  /** Game::start and new_game. */
  function Start(g: Game, start: Pixels): Moved {
    if |g.players| < 2 || g.readyCount < |g.players| then Moved(g, []) else
    var s := SeatFrom(Unseated(g), 0, start);
    Moved(g.(running := true, arena := s.arena, players := s.players, rand := s.rand),
          [NewGame(0, g.arena.width, g.arena.height, s.names, s.namesLen)] + s.events)
  }

  /** Game::player_action; the snake of a seated player exists, see Seated. */
  function PlayerAction(g: Game, name: Name, dir: Direction, start: Pixels): Moved {
    if !Has(g.players, name) then Moved(g, []) else
    var i := Lower(g.players, name);
    var p := g.players[i];
    if g.running then
      if p.inGame && p.no < |g.arena.snakes| then
        Moved(g.(arena := g.arena.(snakes := g.arena.snakes[p.no := g.arena.snakes[p.no].(dir := dir)])), [])
      else Moved(g, [])
    else if p.ready || dir == Straight then Moved(g, [])
    else Start(Readied(g, i), start)
  }

  /** Game::remove_player. */
  function RemovePlayer(g: Game, name: Name, start: Pixels): Moved {
    if !Has(g.players, name) then Moved(g, []) else
    var i := Lower(g.players, name);
    if g.running then Moved(Removed(g, i), []) else Start(Removed(g, i), start)
  }

  /** The GAME_OVER branch of do_frame is taken. */
  predicate Ends(g: Game) {
    g.arena.alive <= 1
  }

  /** do_frame up to the last callback; the GAME_OVER branch goes on with Finish. */
  function DoFrame(g: Game, next: Pixels): Moved {
    if Ends(g) then Moved(g.(arena := g.arena.(eventNo := Succ(g.arena.eventNo))), [GameOver(g.arena.eventNo)]) else
    var r := FrameFrom(g.arena, 0, next);
    Moved(g.(arena := r.arena), r.events)
  }

  function Finish(g: Game): Game {
    Initialize(g.(running := false))
  }

  /** What Server::on_event makes of the log. */
  function Logged(log: seq<Event>, e: Event): seq<Event> {
    if e.GameOver? then [] else log + [e]
  }

  function LoggedAll(log: seq<Event>, events: seq<Event>): seq<Event>
    decreases |events|
  {
    if events == [] then log else LoggedAll(Logged(log, events[0]), events[1..])
  }

  // ---- The invariant ----

  predicate NameOk(name: Name) {
    1 <= |name| <= MAX_PLAYER_NAME_LENGTH && forall c | c in name :: 33 <= c <= 126
  }

  function CountReady(players: seq<Player>): nat {
    if players == [] then 0 else (if players[0].ready then 1 else 0) + CountReady(players[1..])
  }

  predicate AllReady(players: seq<Player>) {
    forall p | p in players :: p.ready
  }

  ghost predicate PlayersOk(g: Game) {
    && StrictlySorted(Names(g.players))
    && (forall p | p in g.players :: NameOk(p.name))
    && g.readyCount == CountReady(g.players) % 0x100
  }

  /** The first event of a running game lists the seated players, in order. */
  ghost predicate HeaderOk(g: Game, e: Event) {
    && e.NewGame? && e.no == 0 && e.maxX == g.arena.width && e.maxY == g.arena.height
    && StrictlySorted(e.names) && (forall n | n in e.names :: NameOk(n))
    && e.namesLen == |Join(e.names)| <= MAX_EVENT_DATA_LEN
    && 2 <= |e.names| == |g.arena.snakes|
  }

  /** A player of the game has the number of its name in the NEW_GAME list. */
  ghost predicate Seated(g: Game, names: seq<Name>) {
    forall p | p in g.players && p.inGame :: p.no < |names| && names[p.no] == p.name
  }

  ghost predicate GameInv(g: Game, log: seq<Event>) {
    && PlayersOk(g) && Roomy(g.arena)
    && if g.running then log != [] && HeaderOk(g, log[0]) && ArenaInv(g.arena, log[1..]) && Seated(g, log[0].names)
       else && log == [] && g.arena.eventNo == 1 && (forall p | p in g.players :: !p.inGame)
            && !(2 <= |g.players| <= 0xFF && AllReady(g.players))
  }

  // ---- The map of players ----

  lemma {:induction false} LowerSplits(players: seq<Player>, name: Name)
    requires StrictlySorted(Names(players))
    ensures var i := Lower(players, name);
      && (forall j | 0 <= j < i :: Less(players[j].name, name))
      && (forall j | i <= j < |players| && players[j].name != name :: Less(name, players[j].name))
      && (forall j | 0 <= j < |players| && j != i :: players[j].name != name)
    decreases |players|
  {
    if players != [] {
      var names := Names(players);
      if Less(players[0].name, name) {
        assert Names(players[1..]) == names[1..];
        LowerSplits(players[1..], name);
        var i := Lower(players, name);
        assert forall j | 0 < j < |players| :: players[j] == players[1..][j - 1];
        LessTotal(players[0].name, name);
      } else {
        forall j | 0 <= j < |players| && players[j].name != name ensures Less(name, players[j].name) {
          LessTotal(players[0].name, name);
          assert names[0] == players[0].name && names[j] == players[j].name;
          if j > 0 && name != players[0].name { LessTransitive(name, names[0], names[j]); }
        }
        forall j | 0 < j < |players| ensures players[j].name != name {
          LessTotal(name, names[j]);
          LessTotal(name, names[0]);
          assert Less(names[0], names[j]) && names[j] == players[j].name;
        }
      }
    }
  }

  /** Looking a name up in the sorted map finds it exactly when some entry has it. */
  lemma HasIff(players: seq<Player>, name: Name)
    requires StrictlySorted(Names(players))
    ensures Has(players, name) <==> name in Names(players)
  {
    LowerSplits(players, name);
    if name in Names(players) {
      var j :| 0 <= j < |players| && Names(players)[j] == name;
      assert players[j].name == name;
    }
    if Has(players, name) {
      assert Names(players)[Lower(players, name)] == name;
    }
  }

  lemma {:induction false} CountReadyAppend(a: seq<Player>, b: seq<Player>)
    ensures CountReady(a + b) == CountReady(a) + CountReady(b)
    decreases |a|
  {
    if a == [] {
      assert a + b == b;
    } else {
      assert (a + b)[1..] == a[1..] + b;
      CountReadyAppend(a[1..], b);
    }
  }

  lemma {:induction false} CountReadyAll(players: seq<Player>)
    ensures CountReady(players) <= |players|
    ensures CountReady(players) == |players| <==> AllReady(players)
    decreases |players|
  {
    if players != [] {
      CountReadyAll(players[1..]);
      assert players[0] in players && forall p | p in players[1..] :: p in players;
      assert players == [players[0]] + players[1..];
    }
  }

  /** The start rule: the 8-bit counter lets a game begin exactly when all players are ready and there are between
      two and 255 of them; with 256 or more it never begins. */
  lemma StartsIff(g: Game, start: Pixels)
    requires PlayersOk(g) && !g.running
    ensures Start(g, start).game.running <==> 2 <= |g.players| <= 0xFF && AllReady(g.players)
    ensures !Start(g, start).game.running ==> Start(g, start) == Moved(g, [])
  {
    CountReadyAll(g.players);
  }
}
