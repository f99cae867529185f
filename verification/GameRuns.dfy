/** What holds in every run of the game, whatever the players do and wherever the snakes move. */
module GameRuns {
  import opened Wire
  import opened Records
  import opened Generator
  import opened Arenas
  import opened GameRules
  import opened GameProofs
  import opened Delivery

  datatype Step =
    | Enter(name: Name)
    | Leave(name: Name, start: Pixels)
    | Act(name: Name, dir: Direction, start: Pixels)
    | Frame(next: Pixels)

  /** The game with the log that its listener keeps. */
  datatype State = State(game: Game, log: seq<Event>)

  /** One step up to its last callback. */
  function Emit(g: Game, step: Step): Moved {
    match step
    case Enter(name) => Moved(if AddPlayer(g, name).Joined? then AddPlayer(g, name).game else g, [])
    case Leave(name, start) => RemovePlayer(g, name, start)
    case Act(name, dir, start) => PlayerAction(g, name, dir, start)
    case Frame(next) => if g.running then DoFrame(g, next) else Moved(g, [])
  }

  predicate Over(g: Game, step: Step) {
    step.Frame? && g.running && Ends(g)
  }

  function After(s: State, step: Step): State {
    var r := Emit(s.game, step);
    State(if Over(s.game, step) then Finish(r.game) else r.game, LoggedAll(s.log, r.events))
  }

  function Run(s: State, steps: seq<Step>): State
    decreases |steps|
  {
    if steps == [] then s else After(Run(s, steps[..|steps| - 1]), steps[|steps| - 1])
  }

  /** Names reach the game only if they passed the checks of ClientMessage and are not empty. */
  ghost predicate StepOk(step: Step) {
    step.Enter? ==> NameOk(step.name)
  }

  /** The generator stands one draw behind the id of an idle game and three more for each seat of a running one. */
  ghost predicate Drawn(g: Game) {
    g.rand == Advance(g.gameId, if g.running then 3 * |g.arena.snakes| + 1 else 1)
  }

  lemma InitialKeeps(width: U32, height: U32, seed: U32)
    requires BoardOk(width, height)
    ensures GameInv(Initial(width, height, seed), []) && Drawn(Initial(width, height, seed))
  {
    assert Names([]) == [];
    assert Advance(seed, 1) == Next(seed);
  }

  lemma StepKeeps(s: State, step: Step)
    requires GameInv(s.game, s.log) && StepOk(step)
    ensures GameInv(After(s, step).game, After(s, step).log)
  {
    var g := s.game;
    match step
    case Enter(name) =>
      if AddPlayer(g, name).Joined? { AddPlayerKeeps(g, s.log, name); }
    case Leave(name, start) => RemovePlayerKeeps(g, s.log, name, start);
    case Act(name, dir, start) => PlayerActionKeeps(g, s.log, name, dir, start);
    case Frame(next) =>
      if Over(g, step) {
        FinishKeeps(DoFrame(g, next).game);
        assert LoggedAll(s.log, [GameOver(g.arena.eventNo)]) == [] by {
          assert [GameOver(g.arena.eventNo)][1..] == [];
        }
      } else if g.running {
        FrameStepKeeps(g, s.log, next);
      }
  }

  /** Every run of the game from its construction keeps the invariant, and so keeps what the lemmas below draw
      from it. */
  lemma {:induction false} EveryRun(width: U32, height: U32, seed: U32, steps: seq<Step>)
    requires BoardOk(width, height)
    requires forall i | 0 <= i < |steps| :: StepOk(steps[i])
    ensures var s := Run(State(Initial(width, height, seed), []), steps); GameInv(s.game, s.log)
    decreases |steps|
  {
    hide GameInv, StepOk;
    InitialKeeps(width, height, seed);
    if steps != [] {
      EveryRun(width, height, seed, steps[..|steps| - 1]);
      StepKeeps(Run(State(Initial(width, height, seed), []), steps[..|steps| - 1]), steps[|steps| - 1]);
    }
  }

  // ---- What the invariant gives ----

  /** The server's log is one that the client accepts: numbered from zero, NEW_GAME first and only first, every event
      valid in the game that NEW_GAME describes, and unchanged by a trip over the wire. */
  lemma LogAcceptable(g: Game, log: seq<Event>)
    requires GameInv(g, log) && g.running
    ensures GameLog(log)
    ensures forall i | 0 <= i < |log| :: log[i].Canonical()
  {
    Conservation(g.arena, log[1..]);
    var names := log[0].names;
    forall i | 0 <= i < |log|
      ensures log[i].no == i && (log[i].NewGame? ==> i == 0) && !log[i].GameOver?
      ensures log[i].ValidInGame(log[0].maxX, log[0].maxY, |names|)
    {
      if i > 0 {
        assert log[i] == log[1..][i - 1];
      }
    }
    HeaderCanonical(g, log[0]);
    forall i | 0 <= i < |log| ensures log[i].Canonical() {
    }
  }

  lemma HeaderCanonical(g: Game, e: Event)
    requires HeaderOk(g, e)
    ensures e.Canonical()
  {
    JoinLength(e.names);
    forall n | n in e.names ensures n != [] && |n| <= MAX_PLAYER_NAME_LENGTH && 0 !in n {
      assert NameOk(n);
    }
  }

  predicate HasPixel(events: seq<Event>, p: Pos) {
    exists i | 0 <= i < |events| :: events[i].Pixel? && Pos(events[i].x, events[i].y) == p
  }

  /** The cells of the board that are taken are those of the PIXEL events, each of which is on the board and has a
      cell of its own. */
  lemma BoardIsLog(g: Game, log: seq<Event>)
    requires GameInv(g, log) && g.running
    ensures forall p :: p in g.arena.occupied <==> HasPixel(log, p)
    ensures forall i, j | 0 <= i < j < |log| && log[i].Pixel? && log[j].Pixel? ::
      (log[i].x, log[i].y) != (log[j].x, log[j].y)
    ensures forall i | 0 <= i < |log| && log[i].Pixel? :: log[i].x < g.arena.width && log[i].y < g.arena.height
  {
    var events := log[1..];
    HeaderApart(g, log);
    hide *;
    CellsAre(events);
    CellsDistinct(events);
    BehindHeader(log);
    forall i, j | 0 <= i < j < |log| && log[i].Pixel? && log[j].Pixel?
      ensures (log[i].x, log[i].y) != (log[j].x, log[j].y)
    {
      assert log[i] == events[i - 1] && log[j] == events[j - 1];
    }
  }

  /** What the invariant says of the events behind NEW_GAME. */
  lemma HeaderApart(g: Game, log: seq<Event>)
    requires GameInv(g, log) && g.running
    ensures log != [] && !log[0].Pixel?
    ensures var events := log[1..];
      && g.arena.occupied == Cells(events) && |Cells(events)| == Pixelled(events)
      && forall i | 0 <= i < |events| && events[i].Pixel? ::
           events[i].x < g.arena.width && events[i].y < g.arena.height
  {
    hide Cells, Pixelled;
  }

  /** The same for the log as for the events behind its first entry. */
  lemma BehindHeader(log: seq<Event>)
    requires log != [] && !log[0].Pixel?
    requires var events := log[1..];
      forall p :: p in Cells(events) <==> HasPixel(events, p)
    ensures forall p :: p in Cells(log[1..]) <==> HasPixel(log, p)
    ensures forall i | 0 < i < |log| :: log[i] == log[1..][i - 1]
  {
    hide Cells;
    var events := log[1..];
    assert forall i | 0 < i < |log| :: log[i] == events[i - 1];
    forall p ensures p in Cells(events) <==> HasPixel(log, p) {
      if p in Cells(events) {
        var i :| 0 <= i < |events| && events[i].Pixel? && Pos(events[i].x, events[i].y) == p;
        assert log[i + 1] == events[i];
      }
    }
  }

  lemma {:induction false} CellsAre(events: seq<Event>)
    ensures forall p :: p in Cells(events) <==> HasPixel(events, p)
    ensures |Cells(events)| <= Pixelled(events)
    decreases |events|
  {
    if events != [] {
      var n := |events| - 1;
      var rest := events[..n];
      CellsAre(rest);
      assert forall i | 0 <= i < n :: rest[i] == events[i];
    }
  }

  /** There are as many cells as PIXEL events only if no cell is drawn twice. */
  lemma {:induction false} CellsDistinct(events: seq<Event>)
    requires |Cells(events)| == Pixelled(events)
    ensures forall i, j | 0 <= i < j < |events| && events[i].Pixel? && events[j].Pixel? ::
      (events[i].x, events[i].y) != (events[j].x, events[j].y)
    decreases |events|
  {
    if events != [] {
      var n := |events| - 1;
      var rest, e := events[..n], events[n];
      CellsAre(rest);
      assert |Cells(rest)| == Pixelled(rest) && (e.Pixel? ==> Pos(e.x, e.y) !in Cells(rest));
      CellsDistinct(rest);
      hide Cells, Pixelled;
      forall i, j | 0 <= i < j < |events| && events[i].Pixel? && events[j].Pixel?
        ensures (events[i].x, events[i].y) != (events[j].x, events[j].y)
      {
        assert rest[i] == events[i];
        if j < n {
          assert rest[j] == events[j];
        } else {
          assert HasPixel(rest, Pos(events[i].x, events[i].y));
        }
      }
    }
  }

  /** A player is eliminated at most once and draws nothing afterwards; its snake is alive until then; and a player
      that takes part has the number that NEW_GAME gives its name. */
  lemma FatesInLog(g: Game, log: seq<Event>)
    requires GameInv(g, log) && g.running
    ensures forall i, j | 0 <= i < j < |log| && log[i].Eliminated? && (log[j].Pixel? || log[j].Eliminated?) ::
      log[i].player != log[j].player
    ensures forall s | 0 <= s < |g.arena.snakes| ::
      g.arena.snakes[s].alive <==> !exists i | 0 <= i < |log| :: log[i].Eliminated? && log[i].player == s
    ensures g.arena.alive == CountAlive(g.arena.snakes)
    ensures forall p, q | p in g.players && q in g.players && p.inGame && q.inGame && p.no == q.no :: p.name == q.name
  {
    var events := log[1..];
    assert forall i | 0 < i < |log| :: log[i] == events[i - 1];
    forall i, j | 0 <= i < j < |log| && log[i].Eliminated? && (log[j].Pixel? || log[j].Eliminated?)
      ensures log[i].player != log[j].player
    {
      assert events[..j - 1][i - 1] == log[i];
      assert !Dead(events[..j - 1], events[j - 1].player);
    }
  }

  /** What a game can still spend. */
  function Budget(a: Arena): int {
    (a.width * a.height - |a.occupied|) + a.alive
  }

  /** A frame spends one free cell or one life for every event it logs, so a game logs at most 1 + width * height +
      snakes events. */
  lemma FrameSpends(g: Game, log: seq<Event>, next: Pixels)
    requires GameInv(g, log) && g.running && !Ends(g)
    ensures var r := DoFrame(g, next);
      Budget(r.game.arena) + |r.events| == Budget(g.arena) && Budget(r.game.arena) >= 0
    ensures |log| <= 1 + g.arena.width * g.arena.height + |g.arena.snakes|
  {
    var r := DoFrame(g, next);
    Conservation(g.arena, log[1..]);
    FrameKeeps(g.arena, log[1..], 0, next);
    Conservation(r.game.arena, log[1..] + r.events);
  }

  /** GAME_OVER comes only from a frame that begins with at most one snake alive; it carries the number that follows
      the log, and leaves no log. */
  lemma GameOverIff(s: State, step: Step)
    requires GameInv(s.game, s.log) && StepOk(step)
    ensures !NoGameOver(Emit(s.game, step).events) <==> Over(s.game, step)
    ensures Over(s.game, step) <==> step.Frame? && s.game.running && !TwoAlive(s.game.arena.snakes)
    ensures Over(s.game, step) ==>
      && Emit(s.game, step).events == [GameOver(|s.log|)]
      && After(s, step).log == [] && !After(s, step).game.running
    ensures !Over(s.game, step) ==> After(s, step).log == s.log + Emit(s.game, step).events
  {
    if s.game.running {
      FatesInLog(s.game, s.log);
      CountAliveIff(s.game.arena.snakes);
    }
    assert Over(s.game, step) <==> step.Frame? && s.game.running && !TwoAlive(s.game.arena.snakes);
    hide GameInv, StepOk, CountAlive, TwoAlive;
    var r := Emit(s.game, step);
    if Over(s.game, step) {
      GameOverNumber(s.game, s.log);
      assert r.events[1..] == [] && r.events[0] in r.events;
      assert LoggedAll(Logged(s.log, r.events[0]), []) == [];
    } else {
      OthersLog(s, step);
      LoggedAppends(s.log, r.events);
    }
  }

  lemma GameOverNumber(g: Game, log: seq<Event>)
    requires GameInv(g, log) && g.running
    ensures g.arena.eventNo == |log|
  {
  }

  lemma OthersLog(s: State, step: Step)
    requires GameInv(s.game, s.log) && StepOk(step) && !Over(s.game, step)
    ensures NoGameOver(Emit(s.game, step).events)
  {
    var g := s.game;
    match step
    case Enter(name) =>
    case Leave(name, start) =>
      if Has(g.players, name) && !g.running { LeaveStarts(g, name, start); }
    case Act(name, dir, start) =>
      if Has(g.players, name) && !g.running { ActStarts(g, name, dir, start); }
    case Frame(next) =>
      if g.running { FrameStepKeeps(g, s.log, next); }
  }

  lemma LeaveStarts(g: Game, name: Name, start: Pixels)
    requires GameInv(g, []) && !g.running && Has(g.players, name)
    ensures var r := RemovePlayer(g, name, start); NoGameOver(r.events) && (Drawn(g) ==> Follows(g, r.game))
  {
    var i := Lower(g.players, name);
    RemovedPlayers(g, i);
    hide PlayersOk;
    StartsQuietly(Removed(g, i), start);
  }

  lemma ActStarts(g: Game, name: Name, dir: Direction, start: Pixels)
    requires GameInv(g, []) && !g.running && Has(g.players, name)
    ensures var r := PlayerAction(g, name, dir, start); NoGameOver(r.events) && (Drawn(g) ==> Follows(g, r.game))
  {
    var i := Lower(g.players, name);
    if !g.players[i].ready && dir != Straight {
      ReadyOne(g, i);
      hide PlayersOk;
      StartsQuietly(Readied(g, i), start);
    }
  }

  lemma StartsQuietly(g: Game, start: Pixels)
    requires Idle(g)
    ensures var r := Start(g, start); NoGameOver(r.events) && (Drawn(g) ==> Follows(g, r.game))
  {
    assert !g.running;
    hide Idle, PlayersOk, ArenaInv, Seated, Drawn;
    var r := Start(g, start);
    if r.game.running {
      var n := StartSeats(g, start);
      assert |r.events[0].names| == n;
      if Drawn(g) {
        DrawnStart(g, r.game, n);
      }
    }
  }

  lemma DrawnStart(g: Game, r: Game, n: nat)
    requires Drawn(g) && !g.running && r.running && r.gameId == g.gameId
    requires |r.arena.snakes| == n && r.rand == Advance(g.rand, 3 * n)
    ensures Drawn(r)
  {
    AdvanceAdd(g.gameId, 1, 3 * n);
  }

  // ---- When games start ----

  /** All players but this one are ready. */
  predicate OthersReady(players: seq<Player>, name: Name) {
    forall p | p in players && p.name != name :: p.ready
  }

  /** An action starts an idle game exactly when it comes from the last of 2 to 255 players to get ready. */
  lemma ActionStartsIff(g: Game, log: seq<Event>, name: Name, dir: Direction, start: Pixels)
    requires GameInv(g, log) && !g.running
    ensures PlayerAction(g, name, dir, start).game.running <==>
      dir != Straight && name in Names(g.players) && 2 <= |g.players| <= 0xFF && OthersReady(g.players, name)
  {
    HasIff(g.players, name);
    if Has(g.players, name) {
      var i := Lower(g.players, name);
      Singled(g.players, i);
      if g.players[i].ready {
        assert OthersReady(g.players, name) ==> AllReady(g.players);
      } else if dir != Straight {
        ReadyOne(g, i);
        StartsIff(Readied(g, i), start);
        assert AllReady(Readied(g, i).players) <==> OthersReady(g.players, name) by { ReadiedAll(g, i); }
      }
    }
  }

  /** A departure starts an idle game exactly when 2 to 255 players remain and are all ready. */
  lemma DepartureStartsIff(g: Game, log: seq<Event>, name: Name, start: Pixels)
    requires GameInv(g, log) && !g.running
    ensures RemovePlayer(g, name, start).game.running <==>
      name in Names(g.players) && 3 <= |g.players| <= 0x100 && OthersReady(g.players, name)
  {
    HasIff(g.players, name);
    if Has(g.players, name) {
      var i := Lower(g.players, name);
      Singled(g.players, i);
      RemovedPlayers(g, i);
      StartsIff(Removed(g, i), start);
      RemovedAll(g, i);
    }
  }

  /** Entry i is the only one with its name. */
  lemma Singled(players: seq<Player>, i: nat)
    requires StrictlySorted(Names(players)) && i < |players|
    ensures forall j | 0 <= j < |players| && j != i :: players[j].name != players[i].name
  {
    forall j | 0 <= j < |players| && j != i ensures players[j].name != players[i].name {
      var names := Names(players);
      LessTotal(names[i], names[j]);
      assert names[i] == players[i].name && names[j] == players[j].name;
    }
  }

  lemma ReadiedAll(g: Game, i: nat)
    requires i < |g.players|
    requires forall j | 0 <= j < |g.players| && j != i :: g.players[j].name != g.players[i].name
    ensures AllReady(Readied(g, i).players) <==> OthersReady(g.players, g.players[i].name)
  {
    var ps, r := g.players, Readied(g, i).players;
    if AllReady(r) {
      forall p | p in ps && p.name != ps[i].name ensures p.ready {
        var j :| 0 <= j < |ps| && ps[j] == p;
        assert r[j] == p && r[j] in r;
      }
    }
    if OthersReady(ps, ps[i].name) {
      forall p | p in r ensures p.ready {
        var j :| 0 <= j < |r| && r[j] == p;
        assert j != i ==> ps[j] in ps;
      }
    }
  }

  lemma RemovedAll(g: Game, i: nat)
    requires i < |g.players|
    requires forall j | 0 <= j < |g.players| && j != i :: g.players[j].name != g.players[i].name
    ensures AllReady(Removed(g, i).players) <==> OthersReady(g.players, g.players[i].name)
  {
    var ps, r := g.players, Removed(g, i).players;
    if AllReady(r) {
      forall p | p in ps && p.name != ps[i].name ensures p.ready {
        var j :| 0 <= j < |ps| && ps[j] == p;
        assert r[if j < i then j else j - 1] == p;
      }
    }
    if OthersReady(ps, ps[i].name) {
      forall p | p in r ensures p.ready {
        var j :| 0 <= j < |r| && r[j] == p;
        assert ps[if j < i then j else j + 1] == p;
      }
    }
  }

  // ---- Game ids ----

  ghost predicate Follows(g: Game, next: Game) {
    Drawn(next) && next.gameId == g.gameId
  }

  lemma StepDraws(s: State, step: Step)
    requires GameInv(s.game, s.log) && StepOk(step) && Drawn(s.game)
    ensures Drawn(After(s, step).game)
    ensures After(s, step).game.gameId == if Over(s.game, step) then s.game.rand else s.game.gameId
  {
    var g := s.game;
    match step
    case Enter(name) =>
    case Leave(name, start) =>
      if Has(g.players, name) && !g.running { LeaveStarts(g, name, start); }
    case Act(name, dir, start) =>
      if Has(g.players, name) && !g.running { ActStarts(g, name, dir, start); }
    case Frame(next) =>
      FrameDraws(s, next);
  }

  lemma FrameDraws(s: State, next: Pixels)
    requires GameInv(s.game, s.log) && Drawn(s.game)
    ensures var r := After(s, Frame(next)).game;
      Drawn(r) && r.gameId == if Over(s.game, Frame(next)) then s.game.rand else s.game.gameId
  {
    hide ArenaInv, HeaderOk, PlayersOk, Seated, Advance;
    var g := s.game;
    OneDraw(g.rand);
    if g.running && !Ends(g) {
      FrameKeeps(g.arena, s.log[1..], 0, next);
    }
  }

  lemma FinishDraws(g: Game)
    ensures Drawn(Finish(g))
  {
    hide Advance;
    OneDraw(g.rand);
  }

  lemma OneDraw(r: U32)
    ensures Advance(r, 1) == Generator.Next(r)
  {
  }

  /** The ids of a run are draws of the generator, none of which is zero unless the modulus divides the seed. */
  lemma {:induction false} EveryRunDraws(width: U32, height: U32, seed: U32, steps: seq<Step>)
    requires BoardOk(width, height)
    requires forall i | 0 <= i < |steps| :: StepOk(steps[i])
    ensures var g := Run(State(Initial(width, height, seed), []), steps).game;
      Drawn(g) && (g.gameId % RANDOM_MOD == 0 <==> seed % RANDOM_MOD == 0)
    decreases |steps|
  {
    hide GameInv, StepOk, Drawn;
    InitialKeeps(width, height, seed);
    if steps != [] {
      var n := |steps| - 1;
      var s := Run(State(Initial(width, height, seed), []), steps[..n]);
      EveryRunDraws(width, height, seed, steps[..n]);
      EveryRun(width, height, seed, steps[..n]);
      StepDraws(s, steps[n]);
      DrawnZero(s.game);
    }
  }

  lemma DrawnZero(g: Game)
    requires Drawn(g)
    ensures g.rand % RANDOM_MOD == 0 <==> g.gameId % RANDOM_MOD == 0
  {
    var k := if g.running then 3 * |g.arena.snakes| + 1 else 1;
    ZeroIff(g.gameId, k);
    AdvanceBelow(g.gameId, k);
  }

  /** Two games in a row have different ids exactly when the first id is not zero. */
  lemma NextIdDiffers(s: State, step: Step)
    requires GameInv(s.game, s.log) && StepOk(step) && Drawn(s.game) && Over(s.game, step)
    ensures After(s, step).game.gameId != s.game.gameId <==> s.game.gameId != 0
  {
    StepDraws(s, step);
    IdsDiffer(s.game.gameId, |s.game.arena.snakes|);
  }
}
