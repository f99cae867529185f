/** The Game object of src/siktacka/game.cc, proved to move as the functions of GameRules say. What its methods
    return are the events they hand to the listener, in order. */
module GameObject {
  import opened Wire
  import opened Records
  import opened Messages
  import opened Generator
  import opened Arenas
  import opened BoardObject
  import opened GameRules

  class Game {
    const width: U32
    const height: U32
    const random: Random
    const board: Board
    var gameId: U32
    var running: bool
    var players: seq<Player>
    var playersReadyCount: Byte
    var snakes: seq<Snake>
    var snakesAliveCount: int
    var eventNo: U32

    ghost function Repr(): set<object> {
      {this, random, board.fields}
    }

    ghost predicate Valid() {
      board.Valid() && board.width == width && board.height == height
    }

    ghost function ArenaState(): Arena
      requires Valid()
      reads Repr()
    {
      Arena(width, height, board.Occupied(), snakes, snakesAliveCount, eventNo)
    }

    ghost function State(): GameRules.Game
      requires Valid()
      reads Repr()
    {
      GameRules.Game(ArenaState(), gameId, running, random.lastRand, players, playersReadyCount)
    }

    constructor (width: U32, height: U32, seed: U32)
      ensures Valid() && fresh(Repr()) && State() == Initial(width, height, seed)
    {
      this.width, this.height := width, height;
      gameId, running, players, playersReadyCount := 0, false, [], 0;
      snakes, snakesAliveCount, eventNo := [], 0, 0;
      random := new Random(seed);
      board := new Board(width, height);
      new;
      Initialize();
    }

    method Initialize()
      requires Valid()
      modifies this, random
      ensures State() == GameRules.Initialize(old(State()))
    {
      gameId := random.Draw();
      playersReadyCount := 0;
      eventNo := 1;
      ResetPlayers();
    }

    method ResetPlayers()
      modifies `players
      ensures players == Reset(old(players))
    {
      var i := 0;
      while i < |players|
        invariant 0 <= i <= |players| == |old(players)|
        invariant forall k | 0 <= k < i :: players[k] == Reset(old(players))[k]
        invariant forall k | i <= k < |players| :: players[k] == old(players)[k]
      {
        players := players[i := players[i].(ready := false, inGame := false)];
        i := i + 1;
      }
    }

    /** false stands for std::length_error and std::invalid_argument. */
    method AddPlayer(name: Name) returns (ok: bool)
      requires Valid()
      modifies this
      ensures ok == GameRules.AddPlayer(old(State()), name).Joined?
      ensures State() == if ok then GameRules.AddPlayer(old(State()), name).game else old(State())
    {
      if |name| > MAX_PLAYER_NAME_LENGTH || Has(players, name) {
        return false;
      }
      var i := Lower(players, name);
      players := players[..i] + [Player(name, 0, false, false)] + players[i..];
      return true;
    }

    method PlayerAction(name: Name, dir: Direction, start: Pixels) returns (events: seq<Event>)
      requires Valid()
      modifies Repr()
      ensures Moved(State(), events) == GameRules.PlayerAction(old(State()), name, dir, start)
    {
      events := [];
      if Has(players, name) {
        var i := Lower(players, name);
        if running {
          RunningAction(players[i], dir);
        } else {
          events := StartingAction(i, dir, start);
        }
      }
    }

    method RunningAction(player: Player, dir: Direction)
      modifies `snakes
      ensures snakes == if player.inGame && player.no < |old(snakes)|
                then old(snakes)[player.no := old(snakes)[player.no].(dir := dir)] else old(snakes)
    {
      if !player.inGame || player.no >= |snakes| {
        return;
      }
      snakes := snakes[player.no := snakes[player.no].(dir := dir)];
    }

    method StartingAction(i: nat, dir: Direction, start: Pixels) returns (events: seq<Event>)
      requires Valid() && i < |players| && !running
      requires Has(players, players[i].name) && Lower(players, players[i].name) == i
      modifies Repr()
      ensures Moved(State(), events) == GameRules.PlayerAction(old(State()), old(players[i].name), dir, start)
    {
      if players[i].ready || dir == Straight {
        return [];
      }
      players := players[i := players[i].(ready := true)];
      playersReadyCount := (playersReadyCount as int + 1) % 0x100;
      events := Start(start);
    }

    method RemovePlayer(name: Name, start: Pixels) returns (events: seq<Event>)
      requires Valid()
      modifies Repr()
      ensures Moved(State(), events) == GameRules.RemovePlayer(old(State()), name, start)
    {
      events := [];
      if !Has(players, name) {
        return;
      }
      var i := Lower(players, name);
      if players[i].ready {
        playersReadyCount := (playersReadyCount as int + 0xFF) % 0x100;
      }
      players := players[..i] + players[i + 1..];
      if !running {
        events := Start(start);
      }
    }

    method Start(start: Pixels) returns (events: seq<Event>)
      requires Valid()
      modifies Repr()
      ensures Moved(State(), events) == GameRules.Start(old(State()), start)
    {
      if |players| < 2 || playersReadyCount < |players| {
        return [];
      }
      running := true;
      events := NewGame(start);
    }

    method NewGame(start: Pixels) returns (events: seq<Event>)
      requires Valid()
      modifies Repr()
      ensures var g := old(State());
        var s := SeatFrom(Unseated(g), 0, start);
        && State() == g.(arena := s.arena, players := s.players, rand := s.rand)
        && events == [Event.NewGame(0, width, height, s.names, s.namesLen)] + s.events
    {
      hide Arenas.PlaceSnake, Seat, AddName, Advance, GameRules.Start;
      var playerNo: Byte := 0;
      snakesAliveCount := 0;
      board.Clear();
      snakes := [];
      events := [];
      var newGame := new EventNewGame(width, height, 0);
      ghost var seated := SeatFrom(Unseated(old(State())), 0, start);
      var i := 0;
      while i < |players|
        invariant 0 <= i <= |players|
        invariant fresh(newGame)
        invariant seated == SeatFrom(SeatingState(newGame, playerNo, events), i, start)
        invariant unchanged(this`gameId, this`running, this`playersReadyCount)
      {
        ghost var before := SeatingState(newGame, playerNo, events);
        var r := newGame.AddPlayer(players[i].name);
        assert r == AddName(before.names, before.namesLen, before.players[i].name);
        if r.ListFull? {
          break;
        } else if r.Added? {
          var event := SeatPlayer(i, playerNo, start(i), before, r.names, r.len);
          events := events + [event];
          playerNo := (playerNo as int + 1) % 0x100;
        }
        i := i + 1;
      }
      events := [Event.NewGame(newGame.no, newGame.maxX, newGame.maxY, newGame.players, newGame.playersLen)] + events;
    }

    ghost function SeatingState(e: EventNewGame, playerNo: Byte, events: seq<Event>): Seating
      requires Valid()
      reads Repr(), e
    {
      Seating(ArenaState(), players, random.lastRand, e.players, e.playersLen, playerNo, events)
    }

    method SeatPlayer(i: nat, playerNo: Byte, pos: Pos, ghost before: Seating, ghost names: seq<Name>, ghost len: nat)
      returns (event: Event)
      requires Valid() && i < |players|
      requires before == Seating(
        ArenaState(), players, random.lastRand, before.names, before.namesLen, playerNo, before.events)
      modifies `players, `snakes, `snakesAliveCount, `eventNo, random, board.fields
      ensures |players| == |old(players)|
      ensures Seat(before, i, names, len, pos) == Seating(
        ArenaState(), players, random.lastRand, names, len, (playerNo as int + 1) % 0x100, before.events + [event])
    {
      players := players[i := players[i].(no := playerNo, inGame := true)];
      var snake := MakeSnake(pos);
      snakesAliveCount := snakesAliveCount + 1;
      snake, event := PlaceSnake(snake, playerNo);
      snakes := snakes + [snake];
    }

    /** The place follows from the three draws; it is left open here. */
    method MakeSnake(pos: Pos) returns (s: Snake)
      modifies random
      ensures s == Snake(pos, Straight, true) && random.lastRand == Advance(old(random.lastRand), 3)
    {
      var _ := random.Draw();
      var _ := random.Draw();
      var _ := random.Draw();
      s := Snake(pos, Straight, true);
    }

    method PlaceSnake(snake: Snake, no: Byte) returns (placed: Snake, event: Event)
      requires Valid()
      modifies `snakesAliveCount, `eventNo, board.fields
      ensures Placed(ArenaState(), placed, event) == Arenas.PlaceSnake(old(ArenaState()), snake, no)
    {
      var p := snake.pos;
      var n := eventNo;
      eventNo := Succ(eventNo);
      if board.IsEmpty(p) {
        board.MarkOccupied(p);
        return snake, Pixel(n, no, p.x, p.y);
      } else {
        snakesAliveCount := snakesAliveCount - 1;
        return snake.(alive := false), Eliminated(n, no);
      }
    }

    /** One frame up to its last callback. The 8-bit index of the loop reaches the last snake, see MAX_SNAKES. */
    method DoFrame(next: Pixels) returns (events: seq<Event>)
      requires Valid() && |snakes| <= MAX_SNAKES
      modifies Repr()
      ensures Moved(State(), events) == GameRules.DoFrame(old(State()), next)
    {
      events := [];
      if snakesAliveCount <= 1 {
        events := [GameOver(eventNo)];
        eventNo := Succ(eventNo);
        return;
      }
      events := MoveAll(next);
    }

    /** The loop over the snakes. */
    method MoveAll(next: Pixels) returns (events: seq<Event>)
      requires Valid() && |snakes| <= MAX_SNAKES
      modifies `snakes, `snakesAliveCount, `eventNo, board.fields
      ensures Played(ArenaState(), events) == FrameFrom(old(ArenaState()), 0, next)
    {
      events := [];
      ghost var played := FrameFrom(ArenaState(), 0, next);
      hide Arenas.MoveSnake;
      var i: Byte := 0;
      while i < |snakes|
        invariant 0 <= i <= |snakes| == |old(snakes)|
        invariant var rest := FrameFrom(ArenaState(), i, next); played == Played(rest.arena, events + rest.events)
      {
        if snakes[i].alive && next(i) != snakes[i].pos {
          var event := MoveSnake(i, next(i));
          events := events + [event];
        }
        i := i + 1;
      }
    }

    method MoveSnake(i: Byte, p: Pos) returns (event: Event)
      requires Valid() && i < |snakes|
      modifies `snakes, `snakesAliveCount, `eventNo, board.fields
      ensures var r := Arenas.MoveSnake(old(ArenaState()), i, p);
        ArenaState() == r.arena && event == r.event
    {
      var snake, e := PlaceSnake(snakes[i].(pos := p), i);
      snakes := snakes[i := snake];
      event := e;
    }

    /** The rest of a frame that has announced GAME_OVER. */
    method EndGame()
      requires Valid()
      modifies Repr()
      ensures State() == Finish(old(State()))
    {
      running := false;
      Initialize();
    }
  }
}
