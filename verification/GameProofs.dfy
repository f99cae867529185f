/** Every step of the game keeps the invariant of GameRules. */
module GameProofs {
  import opened Wire
  import opened Records
  import opened Generator
  import opened Arenas
  import opened GameRules

  // ---- Logging ----

  predicate NoGameOver(events: seq<Event>) {
    forall e | e in events :: !e.GameOver?
  }

  lemma {:induction false} LoggedAppends(log: seq<Event>, events: seq<Event>)
    requires NoGameOver(events)
    ensures LoggedAll(log, events) == log + events
    decreases |events|
  {
    if events == [] {
      assert log + [] == log;
    } else {
      assert events[0] in events && forall e | e in events[1..] :: e in events;
      LoggedAppends(log + [events[0]], events[1..]);
      assert log + [events[0]] + events[1..] == log + events;
    }
  }

  // ---- A frame ----

  lemma {:induction false} FrameKeeps(a: Arena, events: seq<Event>, i: nat, next: Pixels)
    requires ArenaInv(a, events)
    ensures var r := FrameFrom(a, i, next);
      && ArenaInv(r.arena, events + r.events) && |r.arena.snakes| == |a.snakes|
      && r.arena.width == a.width && r.arena.height == a.height
      && forall e | e in r.events :: e.Pixel? || e.Eliminated?
    decreases |a.snakes| - i
  {
    hide ArenaInv, MoveSnake;
    if i >= |a.snakes| {
      assert events + [] == events;
    } else if !a.snakes[i].alive || next(i) == a.snakes[i].pos {
      FrameKeeps(a, events, i + 1, next);
    } else {
      var r := MoveSnake(a, i, next(i));
      PlacingKeeps(a, events, i, next(i));
      FrameKeeps(r.arena, events + [r.event], i + 1, next);
      var rest := FrameFrom(r.arena, i + 1, next);
      assert events + [r.event] + rest.events == events + ([r.event] + rest.events);
    }
  }

  // ---- Seating ----

  /** The first i players have been seated, in order. */
  ghost predicate SeatInv(s: Seating, players: seq<Player>, i: nat) {
    var names := Names(players);
    && i <= |players| == |s.players|
    && StrictlySorted(names) && (forall n | n in names :: NameOk(n))
    && s.names == names[..i] && s.namesLen == |Join(names[..i])| <= MAX_EVENT_DATA_LEN
    && |s.arena.snakes| == i == s.playerNo
    && ArenaInv(s.arena, s.events)
    && (forall j | 0 <= j < |players| ::
          && s.players[j].name == players[j].name && s.players[j].ready == players[j].ready
          && (s.players[j].inGame <==> j < i)
          && (j < i ==> s.players[j].no == j))
  }

  lemma AddSnake(a: Arena, events: seq<Event>, p: Pos)
    requires ArenaInv(a, events) && |a.snakes| < MAX_SNAKES
    ensures ArenaInv(a.(snakes := a.snakes + [Snake(p, Straight, true)], alive := a.alive + 1), events)
  {
    var n := |a.snakes|;
    var b := a.(snakes := a.snakes + [Snake(p, Straight, true)], alive := a.alive + 1);
    assert b.snakes[..n] == a.snakes;
    assert CountAlive(b.snakes) == CountAlive(a.snakes) + 1;
    assert !Dead(events, n);
    forall k | 0 <= k < n ensures b.snakes[k] == a.snakes[k] {
    }
  }

  lemma SeatKeeps(s: Seating, players: seq<Player>, i: nat, start: Pos)
    requires SeatInv(s, players, i) && i < |players|
    requires AddName(s.names, s.namesLen, players[i].name).Added?
    ensures var r := AddName(s.names, s.namesLen, players[i].name);
      var seat := Seat(s, i, r.names, r.len, start);
      && SeatInv(seat, players, i + 1)
      && seat.arena.width == s.arena.width && seat.arena.height == s.arena.height
      && |seat.events| == |s.events| + 1
  {
    hide ArenaInv, MoveSnake;
    NamesUpTo(Names(players), i);
    SeatArena(s, i, start);
  }

  lemma SeatArena(s: Seating, i: nat, start: Pos)
    requires ArenaInv(s.arena, s.events) && |s.arena.snakes| == i == s.playerNo < MAX_SNAKES && i < |s.players|
    ensures var seat := Seat(s, i, [], 0, start);
      && ArenaInv(seat.arena, seat.events) && |seat.arena.snakes| == i + 1
      && seat.arena.width == s.arena.width && seat.arena.height == s.arena.height
  {
    hide ArenaInv;
    var with := s.arena.(snakes := s.arena.snakes + [Snake(start, Straight, true)], alive := s.arena.alive + 1);
    AddSnake(s.arena, s.events, start);
    PlacingKeeps(with, s.events, i, start);
    SeatIsMove(s, i, start);
  }

  /** Seating comes to the same as adding a live snake and moving it to its start. */
  lemma SeatIsMove(s: Seating, i: nat, start: Pos)
    requires |s.arena.snakes| == i == s.playerNo < MAX_SNAKES && i < |s.players|
    ensures var with := s.arena.(snakes := s.arena.snakes + [Snake(start, Straight, true)], alive := s.arena.alive + 1);
      var r := MoveSnake(with, i, start);
      Seat(s, i, [], 0, start).arena == r.arena && Seat(s, i, [], 0, start).events == s.events + [r.event]
  {
    var with := s.arena.(snakes := s.arena.snakes + [Snake(start, Straight, true)], alive := s.arena.alive + 1);
    var r := MoveSnake(with, i, start);
    assert with.snakes[i] == Snake(start, Straight, true);
    assert with.snakes[i := r.snake] == s.arena.snakes + [r.snake];
  }

  /** Adding the next name in order appends it; that many names have at least twice as many bytes. */
  lemma NamesUpTo(names: seq<Name>, i: nat)
    requires i < |names| && StrictlySorted(names) && forall n | n in names :: NameOk(n)
    ensures Insert(names[..i], names[i]) == names[..i + 1]
    ensures |Join(names[..i + 1])| == |Join(names[..i])| + |names[i]| + 1
    ensures 2 * (i + 1) <= |Join(names[..i + 1])|
  {
    InsertLast(names[..i], names[i]);
    assert names[..i] + [names[i]] == names[..i + 1];
    JoinSnoc(names[..i], names[i]);
    forall k | 0 <= k <= i ensures names[k] != [] {
      assert names[k] in names && NameOk(names[k]);
    }
    JoinLength(names[..i + 1]);
  }

  /** Seating stops only at the end or at the first name that does not fit any more. */
  lemma {:induction false} SeatAll(s: Seating, players: seq<Player>, i: nat, start: Pixels) returns (n: nat)
    requires SeatInv(s, players, i)
    ensures i <= n <= |players| && SeatInv(SeatFrom(s, i, start), players, n)
    ensures n == |players| || |Join(Names(players)[..n])| + |players[n].name| + 1 > MAX_EVENT_DATA_LEN
    ensures |SeatFrom(s, i, start).events| == |s.events| + (n - i)
    ensures SeatFrom(s, i, start).arena.width == s.arena.width && SeatFrom(s, i, start).arena.height == s.arena.height
    decreases |players| - i
  {
    n := i;
    SeatFacts(s, players, i);
    hide SeatInv, NameOk, Seat, AddName, StrictlySorted, Names;
    if i < |players| && AddName(s.names, s.namesLen, players[i].name).Added? {
      var r := AddName(s.names, s.namesLen, players[i].name);
      SeatKeeps(s, players, i, start(i));
      var seat := Seat(s, i, r.names, r.len, start(i));
      n := SeatAll(seat, players, i + 1, start);
    }
  }

  /** Every seat takes three draws and announces one event. */
  lemma {:induction false} SeatDraws(s: Seating, i: nat, start: Pixels)
    ensures var r := SeatFrom(s, i, start);
      |r.events| >= |s.events| && r.rand == Advance(s.rand, 3 * (|r.events| - |s.events|))
    decreases |s.players| - i
  {
    if i < |s.players| {
      var r := AddName(s.names, s.namesLen, s.players[i].name);
      if r.Added? {
        var seat := Seat(s, i, r.names, r.len, start(i));
        assert |seat.events| == |s.events| + 1 && seat.rand == Advance(s.rand, 3);
        hide Seat, AddName;
        SeatDraws(seat, i + 1, start);
        var k := |SeatFrom(seat, i + 1, start).events| - |seat.events|;
        AdvanceAdd(s.rand, 3, 3 * k);
        assert 3 * k + 3 == 3 * (k + 1);
      } else if !r.ListFull? {
        SeatDraws(s, i + 1, start);
      }
    }
  }

  /** While players are seated, the next name either is added or does not fit any more. */
  lemma SeatFacts(s: Seating, players: seq<Player>, i: nat)
    requires SeatInv(s, players, i)
    ensures i <= |players| == |s.players| && s.namesLen == |Join(Names(players)[..i])|
    ensures i < |players| ==> s.players[i].name == players[i].name
    ensures i < |players| ==>
      var r := AddName(s.names, s.namesLen, players[i].name);
      r.Added? || (r.ListFull? && s.namesLen + |players[i].name| + 1 > MAX_EVENT_DATA_LEN)
  {
    hide ArenaInv;
    if i < |players| {
      assert players[i].name == Names(players)[i] && Names(players)[i] in Names(players);
      assert NameOk(players[i].name);
    }
  }

  // ---- Starting ----

  /** An idle game, in which all players may be ready. */
  ghost predicate Idle(g: Game) {
    PlayersOk(g) && Roomy(g.arena) && !g.running && g.arena.eventNo == 1 && forall p | p in g.players :: !p.inGame
  }

  lemma UnseatedOk(g: Game)
    requires Idle(g)
    ensures SeatInv(Unseated(g), g.players, 0)
  {
    var s := Unseated(g);
    assert Names(g.players)[..0] == [];
    forall n | n in Names(g.players) ensures NameOk(n) {
      var i :| 0 <= i < |g.players| && Names(g.players)[i] == n;
      assert g.players[i] in g.players;
    }
    assert Proper(s.arena, []) && Balanced(s.arena, []);
  }

  lemma {:induction false} CountReadySame(a: seq<Player>, b: seq<Player>)
    requires |a| == |b| && forall j | 0 <= j < |a| :: a[j].ready == b[j].ready
    ensures CountReady(a) == CountReady(b)
    decreases |a|
  {
    if a != [] {
      CountReadySame(a[1..], b[1..]);
    }
  }

  /** A started game seats the longest prefix of its players, in alphabetical order, whose names fit; player number j
      is the j-th name. The game takes three draws for each of them. */
  lemma StartSeats(g: Game, start: Pixels) returns (n: nat)
    requires Idle(g) && Start(g, start).game.running
    ensures 2 <= n <= |g.players| && n <= MAX_SNAKES
    ensures n == |g.players| || |Join(Names(g.players)[..n])| + |g.players[n].name| + 1 > MAX_EVENT_DATA_LEN
    ensures var r := Start(g, start);
      && |r.events| == 1 + n && r.events[0].NewGame? && r.events[0].names == Names(g.players)[..n]
      && HeaderOk(r.game, r.events[0]) && ArenaInv(r.game.arena, r.events[1..])
      && PlayersOk(r.game) && Seated(r.game, r.events[0].names)
      && r.game.gameId == g.gameId && r.game.rand == Advance(g.rand, 3 * n)
    ensures NoGameOver(Start(g, start).events)
  {
    hide *;
    UnseatedOk(g);
    StartIs(g, start);
    n := SeatAll(Unseated(g), g.players, 0, start);
    SeatDraws(Unseated(g), 0, start);
    var s := SeatFrom(Unseated(g), 0, start);
    SeatedGame(g, s, n);
    PlacementsOnly(s);
  }

  /** What seating makes of a game that starts. */
  lemma StartIs(g: Game, start: Pixels)
    requires Start(g, start).game.running && Idle(g)
    ensures |g.players| >= 2
    ensures var s, u := SeatFrom(Unseated(g), 0, start), Unseated(g);
      && u.arena.width == g.arena.width && u.arena.height == g.arena.height && u.events == [] && u.rand == g.rand
      && Start(g, start).events == [NewGame(0, g.arena.width, g.arena.height, s.names, s.namesLen)] + s.events
      && Start(g, start).events[1..] == s.events
      && Start(g, start).game == g.(running := true, arena := s.arena, players := s.players, rand := s.rand)
      && (NoGameOver(s.events) ==> NoGameOver(Start(g, start).events))
  {
    assert !g.running;
    hide SeatFrom, Idle;
  }

  lemma PlacementsOnly(s: Seating)
    requires ArenaInv(s.arena, s.events)
    ensures NoGameOver(s.events)
  {
  }

  lemma SeatedGame(g: Game, s: Seating, n: nat)
    requires Idle(g) && SeatInv(s, g.players, n) && |g.players| >= 2
    requires n == |g.players| || |Join(Names(g.players)[..n])| + |g.players[n].name| + 1 > MAX_EVENT_DATA_LEN
    requires s.arena.width == g.arena.width && s.arena.height == g.arena.height
    ensures var r := g.(running := true, arena := s.arena, players := s.players, rand := s.rand);
      && HeaderOk(r, NewGame(0, g.arena.width, g.arena.height, s.names, s.namesLen))
      && PlayersOk(r) && Seated(r, s.names)
    ensures 2 <= n <= MAX_SNAKES && s.names == Names(g.players)[..n] && ArenaInv(s.arena, s.events)
  {
    hide NameOk;
    var names := Names(g.players);
    CountReadySame(g.players, s.players);
    assert Names(s.players) == names;
    assert n < |g.players| ==> names[n] == g.players[n].name;
    FirstTwoFit(names, n);
    assert |s.arena.snakes| <= MAX_SNAKES;
    hide ArenaInv;
    forall p | p in s.players ensures NameOk(p.name) && (p.inGame ==> p.no < n && names[..n][p.no] == p.name) {
      var j :| 0 <= j < |s.players| && s.players[j] == p;
      assert names[j] in names;
    }
    assert forall m | m in names[..n] :: m in names;
  }

  lemma FirstTwoFit(names: seq<Name>, n: nat)
    requires 2 <= |names| && n <= |names| && forall m | m in names :: NameOk(m)
    requires n == |names| || |Join(names[..n])| + |names[n]| + 1 > MAX_EVENT_DATA_LEN
    ensures n >= 2
  {
    assert names[0] in names && names[1] in names;
    assert names[..0] == [] && names[..0] + [names[0]] == names[..1];
    JoinSnoc(names[..0], names[0]);
  }

  lemma StartKeeps(g: Game, start: Pixels)
    requires Idle(g)
    ensures var r := Start(g, start); GameInv(r.game, LoggedAll([], r.events))
  {
    StartsIff(g, start);
    var r := Start(g, start);
    if r.game.running {
      var n := StartSeats(g, start);
      LoggedAppends([], r.events);
      assert [] + r.events == r.events;
    }
  }

  // ---- Players come and go ----

  lemma AddPlayerKeeps(g: Game, log: seq<Event>, name: Name)
    requires GameInv(g, log) && NameOk(name) && AddPlayer(g, name).Joined?
    ensures GameInv(AddPlayer(g, name).game, log)
    ensures forall n :: n in Names(AddPlayer(g, name).game.players) <==> n in Names(g.players) || n == name
  {
    hide ArenaInv, NameOk, PlayersOk, Has, Names;
    var i := Lower(g.players, name);
    AddedPlayers(g, name);
    var r := Inserted(g, i, name);
    assert r.players[i] in r.players && !r.players[i].ready;
  }

  lemma AddedPlayers(g: Game, name: Name)
    requires PlayersOk(g) && NameOk(name) && !Has(g.players, name)
    ensures var r := Inserted(g, Lower(g.players, name), name);
      && PlayersOk(r)
      && (forall q | q in r.players :: q in g.players || !q.inGame)
      && forall n :: n in Names(r.players) <==> n in Names(g.players) || n == name
  {
    hide NameOk;
    var i, ps := Lower(g.players, name), g.players;
    var p := Player(name, 0, false, false);
    NameBetween(ps, name);
    hide Lower, Has, StrictlySorted;
    InsertedNames(ps, i, p);
    InsertedCount(ps, i, p);
    hide Names, CountReady;
    assert forall q | q in Inserted(g, i, name).players :: q in ps || q == p;
  }

  /** A name that is not in the map belongs between those that lower_bound separates. */
  lemma NameBetween(ps: seq<Player>, name: Name)
    requires StrictlySorted(Names(ps)) && !Has(ps, name)
    ensures var i := Lower(ps, name);
      && (forall j | 0 <= j < i :: Less(ps[j].name, name))
      && (forall j | i <= j < |ps| :: Less(name, ps[j].name))
  {
    LowerSplits(ps, name);
    HasIff(ps, name);
    assert forall j | 0 <= j < |ps| :: ps[j].name == Names(ps)[j];
  }

  lemma InsertedCount(ps: seq<Player>, i: nat, p: Player)
    requires i <= |ps|
    ensures CountReady(ps[..i] + [p] + ps[i..]) == CountReady(ps) + if p.ready then 1 else 0
  {
    CountReadyAppend(ps[..i], ps[i..]);
    CountReadyAppend(ps[..i] + [p], ps[i..]);
    CountReadyAppend(ps[..i], [p]);
    assert ps[..i] + ps[i..] == ps;
    assert [p][1..] == [];
  }

  lemma InsertedNames(ps: seq<Player>, i: nat, p: Player)
    requires i <= |ps| && StrictlySorted(Names(ps))
    requires forall j | 0 <= j < i :: Less(ps[j].name, p.name)
    requires forall j | i <= j < |ps| :: Less(p.name, ps[j].name)
    ensures StrictlySorted(Names(ps[..i] + [p] + ps[i..]))
    ensures forall n :: n in Names(ps[..i] + [p] + ps[i..]) <==> n in Names(ps) || n == p.name
  {
    var names, r := Names(ps), Names(ps[..i] + [p] + ps[i..]);
    assert r == names[..i] + [p.name] + names[i..];
    assert names == names[..i] + names[i..];
  }

  lemma RemovedNames(ps: seq<Player>, i: nat)
    requires i < |ps| && StrictlySorted(Names(ps))
    ensures var r := ps[..i] + ps[i + 1..];
      StrictlySorted(Names(r)) && forall n :: n in Names(r) <==> n in Names(ps) && n != ps[i].name
  {
    var names, r := Names(ps), Names(ps[..i] + ps[i + 1..]);
    assert r == names[..i] + names[i + 1..];
    LessTotal(names[i], names[i]);
    hide Less, Names;
    forall n ensures n in r <==> n in names && n != names[i] {
      if n in names && n != names[i] {
        var j :| 0 <= j < |names| && names[j] == n;
        assert r[if j < i then j else j - 1] == n;
      }
      if n in r {
        var j :| 0 <= j < |r| && r[j] == n;
        assert names[if j < i then j else j + 1] == n;
      }
    }
  }

  lemma RemovedCount(ps: seq<Player>, i: nat)
    requires i < |ps|
    ensures CountReady(ps[..i] + ps[i + 1..]) == CountReady(ps) - if ps[i].ready then 1 else 0
  {
    CountReadyAppend(ps[..i], ps[i..]);
    CountReadyAppend(ps[..i], ps[i + 1..]);
    assert ps[..i] + ps[i..] == ps && ps[i..][1..] == ps[i + 1..];
  }

  lemma RemovedPlayers(g: Game, i: nat)
    requires PlayersOk(g) && i < |g.players|
    ensures PlayersOk(Removed(g, i))
    ensures forall p | p in Removed(g, i).players :: p in g.players
    ensures forall n :: n in Names(Removed(g, i).players) <==> n in Names(g.players) && n != g.players[i].name
  {
    hide NameOk;
    var ps := g.players;
    RemovedNames(ps, i);
    RemovedCount(ps, i);
    var r := ps[..i] + ps[i + 1..];
    assert forall p | p in r :: p in ps;
    if ps[i].ready {
      OneFewer(CountReady(ps));
    }
    hide CountReady, Names, StrictlySorted;
  }

  /** Decrementing the 8-bit counter. */
  lemma OneFewer(n: nat)
    requires n > 0
    ensures (n % 0x100 + 0xFF) % 0x100 == (n - 1) % 0x100
  {
  }

  lemma RemovePlayerKeeps(g: Game, log: seq<Event>, name: Name, start: Pixels)
    requires GameInv(g, log)
    ensures var r := RemovePlayer(g, name, start);
      && GameInv(r.game, LoggedAll(log, r.events))
      && (g.running ==> r.events == [])
      && (r.game.running || r.events == [])
    ensures forall n :: n in Names(RemovePlayer(g, name, start).game.players) <==> n in Names(g.players) && n != name
  {
    HasIff(g.players, name);
    if Has(g.players, name) {
      var i := Lower(g.players, name);
      var removed := Removed(g, i);
      RemovedPlayers(g, i);
      if !g.running {
        StartKeeps(removed, start);
        StartsIff(removed, start);
        StartKeepsNames(removed, start);
      }
    }
  }

  lemma StartKeepsNames(g: Game, start: Pixels)
    requires Idle(g)
    ensures Names(Start(g, start).game.players) == Names(g.players)
  {
    if Start(g, start).game.running {
      UnseatedOk(g);
      var n := SeatAll(Unseated(g), g.players, 0, start);
      assert Names(SeatFrom(Unseated(g), 0, start).players) == Names(g.players);
    }
  }

  lemma ReadyOne(g: Game, i: nat)
    requires PlayersOk(g) && i < |g.players| && !g.players[i].ready
    ensures PlayersOk(Readied(g, i)) && Names(Readied(g, i).players) == Names(g.players)
    ensures (forall p | p in g.players :: !p.inGame) ==> (forall p | p in Readied(g, i).players :: !p.inGame)
  {
    hide NameOk;
    var ps, r := g.players, Readied(g, i).players;
    ReadiedCount(ps, i);
    assert Names(r) == Names(ps);
    assert ps[i] in ps && forall p | p in r :: p in ps || p == ps[i].(ready := true);
  }

  lemma ReadiedCount(ps: seq<Player>, i: nat)
    requires i < |ps| && !ps[i].ready
    ensures CountReady(ps[i := ps[i].(ready := true)]) == CountReady(ps) + 1
  {
    var p := ps[i].(ready := true);
    assert ps[i := p] == ps[..i] + [p] + ps[i + 1..];
    InsertedCount(ps[..i] + ps[i + 1..], i, p);
    assert (ps[..i] + ps[i + 1..])[..i] == ps[..i] && (ps[..i] + ps[i + 1..])[i..] == ps[i + 1..];
    RemovedCount(ps, i);
  }

  lemma TurnKeeps(a: Arena, events: seq<Event>, i: nat, dir: Direction)
    requires ArenaInv(a, events) && i < |a.snakes|
    ensures ArenaInv(a.(snakes := a.snakes[i := a.snakes[i].(dir := dir)]), events)
  {
    AliveUpdate(a.snakes, i, a.snakes[i].(dir := dir));
  }

  lemma PlayerActionKeeps(g: Game, log: seq<Event>, name: Name, dir: Direction, start: Pixels)
    requires GameInv(g, log)
    ensures var r := PlayerAction(g, name, dir, start);
      && GameInv(r.game, LoggedAll(log, r.events))
      && (g.running ==> r.events == [])
      && (r.game.running || r.events == [])
      && Names(r.game.players) == Names(g.players)
  {
    if Has(g.players, name) {
      var i := Lower(g.players, name);
      var p := g.players[i];
      if g.running {
        if p.inGame && p.no < |g.arena.snakes| {
          TurnKeeps(g.arena, log[1..], p.no, dir);
        }
      } else if !p.ready && dir != Straight {
        var r := Readied(g, i);
        ReadyOne(g, i);
        StartKeeps(r, start);
        StartsIff(r, start);
        StartKeepsNames(r, start);
      }
    }
  }

  // ---- Frames ----

  lemma FrameStepKeeps(g: Game, log: seq<Event>, next: Pixels)
    requires GameInv(g, log) && g.running && !Ends(g)
    ensures var r := DoFrame(g, next);
      && GameInv(r.game, LoggedAll(log, r.events)) && r.game.running && NoGameOver(r.events)
      && r.game.players == g.players
  {
    hide ArenaInv, NameOk;
    var r := DoFrame(g, next);
    FrameKeeps(g.arena, log[1..], 0, next);
    LoggedAppends(log, r.events);
    assert (log + r.events)[0] == log[0] && (log + r.events)[1..] == log[1..] + r.events;
    assert PlayersOk(r.game) && HeaderOk(r.game, log[0]);
  }

  lemma FinishKeeps(g: Game)
    requires PlayersOk(g) && Roomy(g.arena)
    ensures GameInv(Finish(g), []) && Names(Finish(g).players) == Names(g.players)
  {
    var r := Finish(g);
    assert Names(r.players) == Names(g.players);
    forall p | p in r.players ensures NameOk(p.name) && !p.inGame && !p.ready {
      var j :| 0 <= j < |r.players| && r.players[j] == p;
      assert g.players[j] in g.players;
    }
    NoneReady(r.players);
    assert r.players != [] ==> r.players[0] in r.players;
  }

  lemma {:induction false} NoneReady(players: seq<Player>)
    requires forall p | p in players :: !p.ready
    ensures CountReady(players) == 0
    decreases |players|
  {
    if players != [] {
      assert players[0] in players && forall p | p in players[1..] :: p in players;
      NoneReady(players[1..]);
    }
  }
}
