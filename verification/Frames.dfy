/** What a frame, a start and an action do to the snakes, told by the board and the log. */
module Frames {
  import opened Wire
  import opened Records
  import opened Generator
  import opened Arenas
  import opened GameRules
  import opened GameProofs
  import opened GameRuns

  // ---- The end of a game ----

  /** This player takes part and has not been eliminated. */
  ghost predicate InPlay(log: seq<Event>, player: nat) {
    && log != [] && log[0].NewGame? && player < |log[0].names|
    && !exists i | 0 <= i < |log| :: log[i].Eliminated? && log[i].player == player
  }

  ghost predicate TwoInPlay(log: seq<Event>) {
    exists i: nat, j: nat | i < j :: InPlay(log, i) && InPlay(log, j)
  }

  /** A frame ends the game exactly when there are not two snakes alive any more, which the log tells as well. */
  lemma EndsIff(g: Game, log: seq<Event>)
    requires GameInv(g, log) && g.running
    ensures Ends(g) <==> !TwoAlive(g.arena.snakes)
    ensures TwoAlive(g.arena.snakes) <==> TwoInPlay(log)
  {
    CountAliveIff(g.arena.snakes);
    FatesInLog(g, log);
    var snakes := g.arena.snakes;
    assert |log[0].names| == |snakes|;
    hide GameInv, CountAlive;
    assert forall s: nat | s < |snakes| :: snakes[s].alive <==> InPlay(log, s);
    if TwoAlive(snakes) {
      var i: nat, j: nat :| i < j < |snakes| && snakes[i].alive && snakes[j].alive;
      assert InPlay(log, i) && InPlay(log, j);
    }
    if TwoInPlay(log) {
      var i: nat, j: nat :| i < j && InPlay(log, i) && InPlay(log, j);
      assert snakes[i].alive && snakes[j].alive;
    }
  }

  /** The frame of a running game announces GAME_OVER exactly when at most one player has not been eliminated. */
  lemma FrameEndsIff(g: Game, log: seq<Event>, next: Pixels)
    requires GameInv(g, log) && g.running
    ensures var events := DoFrame(g, next).events;
      (exists i | 0 <= i < |events| :: events[i].GameOver?) <==> !TwoInPlay(log)
    ensures !TwoInPlay(log) ==> DoFrame(g, next).events == [GameOver(|log|)]
  {
    EndsIff(g, log);
    if Ends(g) {
      GameOverNumber(g, log);
      assert DoFrame(g, next).events[0].GameOver?;
    } else {
      FrameStepKeeps(g, log, next);
      hide GameInv;
      assert forall i | 0 <= i < |DoFrame(g, next).events| :: DoFrame(g, next).events[i] in DoFrame(g, next).events;
    }
  }

  /** The same for all steps of a run: GAME_OVER is announced by exactly the frames of a running game that begin with at
      most one player of its NEW_GAME not eliminated in the log; and they alone leave a running game without a log and
      not running. */
  lemma StepEndsIff(s: GameRuns.State, step: Step)
    requires GameInv(s.game, s.log) && StepOk(step)
    ensures !NoGameOver(Emit(s.game, step).events) <==> step.Frame? && s.game.running && !TwoInPlay(s.log)
    ensures s.game.running ==>
      && (After(s, step).log == [] <==> step.Frame? && !TwoInPlay(s.log))
      && (!After(s, step).game.running <==> step.Frame? && !TwoInPlay(s.log))
  {
    GameOverIff(s, step);
    if s.game.running {
      EndsIff(s.game, s.log);
      assert s.log != [];
      hide GameInv, TwoAlive, TwoInPlay;
      if step.Leave? {
        RemovePlayerKeeps(s.game, s.log, step.name, step.start);
        StillRunning(s.game, step.name, Straight, step.start);
      } else if step.Act? {
        StillRunning(s.game, step.name, step.dir, step.start);
      } else if step.Frame? && !Ends(s.game) {
        FrameStepKeeps(s.game, s.log, step.next);
      }
    }
  }

  lemma StillRunning(g: Game, name: Name, dir: Direction, start: Pixels)
    requires g.running
    ensures RemovePlayer(g, name, start).game.running && PlayerAction(g, name, dir, start).game.running
  {
  }

  // ---- Placements ----

  /** The event announces what became of this player at this pixel: a field of its own, when the field is on the board
      and nobody was there before, or the end. */
  ghost predicate Announces(e: Event, player: nat, p: Pos, width: U32, height: U32, taken: bool) {
    var free := p.x < width && p.y < height && !taken;
    && (e.Pixel? <==> free) && (e.Eliminated? <==> !free)
    && (e.Pixel? || e.Eliminated?) && e.player == player
    && (e.Pixel? ==> e.x == p.x && e.y == p.y)
  }

  /** A free field is drawn, an occupied one or one off the board eliminates. */
  lemma PlacedIff(a: Arena, s: Snake, no: Byte)
    ensures var r := PlaceSnake(a, s, no);
      && Announces(r.event, no, s.pos, a.width, a.height, s.pos in a.occupied) && r.event.no == a.eventNo
      && r.snake == s.(alive := r.event.Pixel? && s.alive)
      && r.arena.occupied == (if r.event.Pixel? then a.occupied + {s.pos} else a.occupied)
  {
  }

  /** The live snakes from number i on whose pixel changes, in order. */
  function Movers(snakes: seq<Snake>, i: nat, next: Pixels): seq<nat>
    decreases |snakes| - i
  {
    if i >= |snakes| then []
    else (if snakes[i].alive && next(i) != snakes[i].pos then [i] else []) + Movers(snakes, i + 1, next)
  }

  lemma {:induction false} MoversAre(snakes: seq<Snake>, i: nat, next: Pixels)
    ensures forall j :: j in Movers(snakes, i, next) <==>
      i <= j < |snakes| && snakes[j].alive && next(j) != snakes[j].pos
    ensures forall k, l | 0 <= k < l < |Movers(snakes, i, next)| ::
      Movers(snakes, i, next)[k] < Movers(snakes, i, next)[l]
    decreases |snakes| - i
  {
    if i < |snakes| {
      MoversAre(snakes, i + 1, next);
      var rest := Movers(snakes, i + 1, next);
      assert forall k | 0 <= k < |rest| :: rest[k] in rest;
    }
  }

  lemma {:induction false} SameMovers(a: seq<Snake>, b: seq<Snake>, i: nat, next: Pixels)
    requires |a| == |b| && forall j | i <= j < |a| :: a[j] == b[j]
    ensures Movers(a, i, next) == Movers(b, i, next)
    decreases |a| - i
  {
    if i < |a| {
      SameMovers(a, b, i + 1, next);
      var s, rest := a[i], Movers(a, i + 1, next);
      assert b[i] == s;
      assert Movers(a, i, next) == (if s.alive && next(i) != s.pos then [i] else []) + rest;
      assert Movers(b, i, next) == (if s.alive && next(i) != s.pos then [i] else []) + rest;
    }
  }

  lemma HasPixelCons(e: Event, events: seq<Event>, p: Pos)
    ensures HasPixel([e] + events, p) <==> (e.Pixel? && Pos(e.x, e.y) == p) || HasPixel(events, p)
  {
    var all := [e] + events;
    assert all[0] == e && forall i | 0 <= i < |events| :: all[i + 1] == events[i];
  }

  /** The k-th event is about the k-th of these players, who comes to this pixel. */
  ghost predicate Told(a: Arena, events: seq<Event>, players: seq<nat>, next: Pixels) {
    && |events| == |players|
    && forall k | 0 <= k < |events| ::
         var p := next(players[k]);
         Announces(events[k], players[k], p, a.width, a.height, p in a.occupied || HasPixel(events[..k], p))
  }

  lemma ToldCons(a: Arena, b: Arena, e: Event, events: seq<Event>, player: nat, players: seq<nat>, next: Pixels)
    requires Told(b, events, players, next) && b.width == a.width && b.height == a.height
    requires Announces(e, player, next(player), a.width, a.height, next(player) in a.occupied)
    requires b.occupied == if e.Pixel? then a.occupied + {next(player)} else a.occupied
    ensures Told(a, [e] + events, [player] + players, next)
  {
    var all, ps := [e] + events, [player] + players;
    forall k | 0 <= k < |all|
      ensures var p := next(ps[k]);
        Announces(all[k], ps[k], p, a.width, a.height, p in a.occupied || HasPixel(all[..k], p))
    {
      if k == 0 {
        assert all[..0] == [];
      } else {
        assert all[..k] == [e] + events[..k - 1];
        HasPixelCons(e, events[..k - 1], next(ps[k]));
      }
    }
  }

  lemma MovedIff(a: Arena, i: nat, p: Pos)
    requires i < |a.snakes| <= 0x100 && a.snakes[i].alive
    ensures var r := MoveSnake(a, i, p);
      && Announces(r.event, i, p, a.width, a.height, p in a.occupied)
      && r.arena.width == a.width && r.arena.height == a.height
      && r.arena.snakes == a.snakes[i := Snake(p, a.snakes[i].dir, r.event.Pixel?)]
      && r.arena.occupied == if r.event.Pixel? then a.occupied + {p} else a.occupied
  {
    PlacedIff(a, a.snakes[i].(pos := p), i);
  }

  /** What a frame from snake i on announces: one event for every live snake whose pixel changes and none for another,
      in order, drawn on a field that was free until then or eliminated. */
  lemma {:induction false} FrameTells(a: Arena, i: nat, next: Pixels)
    requires |a.snakes| <= 0x100
    ensures Told(a, FrameFrom(a, i, next).events, Movers(a.snakes, i, next), next)
    decreases |a.snakes| - i
  {
    if i < |a.snakes| {
      if a.snakes[i].alive && next(i) != a.snakes[i].pos {
        var r := MoveSnake(a, i, next(i));
        MovedIff(a, i, next(i));
        hide Told, Announces, HasPixel, MoveSnake;
        SameMovers(a.snakes, r.arena.snakes, i + 1, next);
        FrameTells(r.arena, i + 1, next);
        ToldCons(a, r.arena, r.event, FrameFrom(r.arena, i + 1, next).events, i, Movers(a.snakes, i + 1, next), next);
      } else {
        FrameTells(a, i + 1, next);
      }
    }
  }

  /** Those that moved are where they came to, and alive if they were drawn. */
  ghost predicate Went(before: seq<Snake>, after: seq<Snake>, players: seq<nat>, events: seq<Event>, next: Pixels) {
    && |after| == |before|
    && forall j | 0 <= j < |before| ::
         after[j] == if j in players then Snake(next(j), before[j].dir, !Dead(events, j)) else before[j]
  }

  /** Where the snakes are after the frame. */
  lemma {:induction false} FrameMoves(a: Arena, i: nat, next: Pixels)
    requires |a.snakes| <= 0x100
    ensures var r := FrameFrom(a, i, next);
      Went(a.snakes, r.arena.snakes, Movers(a.snakes, i, next), r.events, next)
    decreases |a.snakes| - i
  {
    if i < |a.snakes| {
      if a.snakes[i].alive && next(i) != a.snakes[i].pos {
        var r, players := MoveSnake(a, i, next(i)), Movers(a.snakes, i + 1, next);
        var rest := FrameFrom(r.arena, i + 1, next);
        assert Movers(a.snakes, i, next) == [i] + players;
        assert FrameFrom(a, i, next) == Played(rest.arena, [r.event] + rest.events);
        MovedIff(a, i, next(i));
        hide Went, Told, HasPixel, MoveSnake;
        SameMovers(a.snakes, r.arena.snakes, i + 1, next);
        MoversAre(a.snakes, i + 1, next);
        FrameMoves(r.arena, i + 1, next);
        FrameTells(r.arena, i + 1, next);
        NotTold(r.arena, rest.events, players, i, next);
        WentCons(a.snakes, r.arena.snakes, rest.arena.snakes, r.event, rest.events, i, players, next);
      } else {
        FrameMoves(a, i + 1, next);
      }
    }
  }

  /** The first mover's fate is told by the first event alone, the others' by the events behind it. */
  lemma WentCons(
      before: seq<Snake>, mid: seq<Snake>, after: seq<Snake>, e: Event, events: seq<Event>, i: nat, players: seq<nat>,
      next: Pixels)
    requires Went(mid, after, players, events, next) && !Dead(events, i)
    requires i < |before| && mid == before[i := Snake(next(i), before[i].dir, e.Pixel?)] && i !in players
    requires (e.Pixel? || e.Eliminated?) && e.player == i
    ensures Went(before, after, [i] + players, [e] + events, next)
  {
    forall j | 0 <= j < |before|
      ensures after[j] ==
        if j in [i] + players then Snake(next(j), before[j].dir, !Dead([e] + events, j)) else before[j]
    {
      DeadCons(e, events, j);
    }
  }

  lemma NotTold(a: Arena, events: seq<Event>, players: seq<nat>, player: nat, next: Pixels)
    requires Told(a, events, players, next) && player !in players
    ensures !Dead(events, player)
  {
    assert forall k | 0 <= k < |events| :: events[k].Eliminated? ==> events[k].player == players[k];
  }

  lemma DeadCons(e: Event, events: seq<Event>, player: nat)
    ensures Dead([e] + events, player) <==> (e.Eliminated? && e.player == player) || Dead(events, player)
  {
    var all := [e] + events;
    assert all[0] == e && forall k | 0 <= k < |events| :: all[k + 1] == events[k];
  }

  // ---- Frames on the log ----

  lemma HasPixelAppend(a: seq<Event>, b: seq<Event>, p: Pos)
    ensures HasPixel(a + b, p) <==> HasPixel(a, p) || HasPixel(b, p)
  {
    var all := a + b;
    assert forall i | 0 <= i < |a| :: all[i] == a[i];
    assert forall i | 0 <= i < |b| :: all[|a| + i] == b[i];
    if HasPixel(b, p) {
      var i :| 0 <= i < |b| && b[i].Pixel? && Pos(b[i].x, b[i].y) == p;
      assert all[|a| + i] == b[i];
    }
    if HasPixel(all, p) {
      var i :| 0 <= i < |all| && all[i].Pixel? && Pos(all[i].x, all[i].y) == p;
      assert i >= |a| ==> all[i] == b[i - |a|];
    }
  }

  /** The frame of a running game, told by the log: exactly the live snakes whose pixel changes are announced, in order;
      each is drawn where it comes to, or eliminated when that is off the board or was drawn before, in the log or in
      the frame itself. */
  lemma FrameOnLog(g: Game, log: seq<Event>, next: Pixels)
    requires GameInv(g, log) && g.running && TwoInPlay(log)
    ensures var r, players := DoFrame(g, next), Movers(g.arena.snakes, 0, next);
      && |r.events| == |players|
      && (forall k | 0 <= k < |players| ::
            var p := next(players[k]);
            Announces(r.events[k], players[k], p, g.arena.width, g.arena.height, HasPixel(log + r.events[..k], p)))
      && Went(g.arena.snakes, r.game.arena.snakes, players, r.events, next)
  {
    EndsIff(g, log);
    BoardIsLog(g, log);
    var events, players := DoFrame(g, next).events, Movers(g.arena.snakes, 0, next);
    assert |g.arena.snakes| <= MAX_SNAKES;
    FrameTells(g.arena, 0, next);
    FrameMoves(g.arena, 0, next);
    hide GameInv, TwoInPlay, TwoAlive, Movers, Announces, FrameFrom, Went;
    forall k | 0 <= k < |players|
      ensures var p := next(players[k]);
        Announces(events[k], players[k], p, g.arena.width, g.arena.height, HasPixel(log + events[..k], p))
    {
      HasPixelAppend(log, events[..k], next(players[k]));
    }
  }

  // ---- The start of a game ----

  /** The first i players were placed in order, at their start pixels. */
  ghost predicate SeatTold(s: Seating, players: seq<Player>, i: nat, start: Pixels) {
    && |s.events| == |s.arena.snakes| == i <= |players| == |s.players|
    && (forall p :: p in s.arena.occupied <==> HasPixel(s.events, p))
    && (forall k | 0 <= k < i ::
          Announces(s.events[k], k, start(k), s.arena.width, s.arena.height, HasPixel(s.events[..k], start(k))))
    && (forall k | 0 <= k < i :: s.arena.snakes[k] == Snake(start(k), Straight, s.events[k].Pixel?))
    && forall j | 0 <= j < |players| ::
         s.players[j] == if j < i then players[j].(no := j % 0x100, inGame := true) else players[j]
  }

  /** Seating one more player appends a snake and what is announced of it. */
  lemma SeatIs(s: Seating, i: nat, names: seq<Name>, len: nat, start: Pos)
    requires i < |s.players| && s.playerNo == i
    ensures var t := Seat(s, i, names, len, start);
      t.events != [] &&
      var e := t.events[|t.events| - 1];
      && t.events == s.events + [e]
      && Announces(e, i, start, s.arena.width, s.arena.height, start in s.arena.occupied)
      && t.arena.width == s.arena.width && t.arena.height == s.arena.height
      && t.arena.snakes == s.arena.snakes + [Snake(start, Straight, e.Pixel?)]
      && t.arena.occupied == (if e.Pixel? then s.arena.occupied + {start} else s.arena.occupied)
      && t.players == s.players[i := s.players[i].(no := i % 0x100, inGame := true)]
  {
    PlacedIff(s.arena.(alive := s.arena.alive + 1), Snake(start, Straight, true), i);
  }

  lemma SeatOnce(s: Seating, players: seq<Player>, i: nat, names: seq<Name>, len: nat, start: Pixels)
    requires SeatTold(s, players, i, start) && i < |players| && s.playerNo == i
    ensures SeatTold(Seat(s, i, names, len, start(i)), players, i + 1, start)
  {
    var t := Seat(s, i, names, len, start(i));
    SeatIs(s, i, names, len, start(i));
    hide Seat, HasPixel, Announces;
    var e := t.events[i];
    forall p ensures p in t.arena.occupied <==> HasPixel(t.events, p) {
      HasPixelSnoc(s.events, e, p);
    }
    forall k | 0 <= k < i + 1
      ensures Announces(t.events[k], k, start(k), t.arena.width, t.arena.height, HasPixel(t.events[..k], start(k)))
    {
      assert t.events[..k] == s.events[..k];
      assert s.events[..i] == s.events;
    }
  }

  lemma HasPixelSnoc(events: seq<Event>, e: Event, p: Pos)
    ensures HasPixel(events + [e], p) <==> HasPixel(events, p) || (e.Pixel? && Pos(e.x, e.y) == p)
  {
    HasPixelAppend(events, [e], p);
    HasPixelCons(e, [], p);
    NoPixel(p);
    assert [e] + [] == [e];
  }

  lemma NoPixel(p: Pos)
    ensures !HasPixel([], p)
  {
  }

  lemma {:induction false} SeatTells(s: Seating, players: seq<Player>, i: nat, start: Pixels) returns (n: nat)
    requires SeatInv(s, players, i) && SeatTold(s, players, i, start)
    ensures SeatInv(SeatFrom(s, i, start), players, n) && SeatTold(SeatFrom(s, i, start), players, n, start)
    decreases |players| - i
  {
    n := i;
    SeatFacts(s, players, i);
    assert s.playerNo == i;
    hide SeatInv, SeatTold, NameOk, Seat, AddName, StrictlySorted, Names;
    if i < |players| && AddName(s.names, s.namesLen, players[i].name).Added? {
      var r := AddName(s.names, s.namesLen, players[i].name);
      SeatKeeps(s, players, i, start(i));
      SeatOnce(s, players, i, r.names, r.len, start);
      n := SeatTells(Seat(s, i, r.names, r.len, start(i)), players, i + 1, start);
    }
  }

  /** A game of some of these players began: behind NEW_GAME, every player it lists was placed in order on its start
      pixel, looking straight ahead, drawn when the field was on the board and free until then and eliminated when not;
      exactly these players are in the game, by these numbers. */
  ghost predicate Began(g: Game, players: seq<Player>, r: Moved, start: Pixels) {
    && r.game.running && r.game.gameId == g.gameId && r.game.readyCount == |players|
    && |r.events| >= 1 && r.events[0].NewGame?
    && r.events[0].maxX == g.arena.width == r.game.arena.width
    && r.events[0].maxY == g.arena.height == r.game.arena.height
    && var n := |r.events[0].names|;
    && |r.events| == 1 + n && |r.game.arena.snakes| == n <= |players| == |r.game.players|
    && r.events[0].names == Names(players)[..n]
    && (forall k | 0 <= k < n ::
          Announces(r.events[k + 1], k, start(k), g.arena.width, g.arena.height, HasPixel(r.events[..k + 1], start(k))))
    && (forall k | 0 <= k < n :: r.game.arena.snakes[k] == Snake(start(k), Straight, r.events[k + 1].Pixel?))
    && forall j | 0 <= j < |players| ::
         && r.game.players[j].name == players[j].name && r.game.players[j].ready
         && (r.game.players[j].inGame <==> j < n)
         && (j < n ==> r.game.players[j].no == j)
  }

  lemma StartTells(g: Game, start: Pixels)
    requires Idle(g) && Start(g, start).game.running
    ensures Began(g, g.players, Start(g, start), start)
  {
    hide *;
    var u := Unseated(g);
    StartIs(g, start);
    StartReady(g, start);
    UnseatedOk(g);
    NobodySeated(g, start);
    var n := SeatTells(u, g.players, 0, start);
    SeatSize(u, 0, start);
    BeganFrom(g, SeatFrom(u, 0, start), Start(g, start), n, start);
  }

  lemma StartReady(g: Game, start: Pixels)
    requires Idle(g) && Start(g, start).game.running
    ensures AllReady(g.players) && g.readyCount == |g.players|
  {
    StartsIff(g, start);
    CountReadyAll(g.players);
  }

  lemma NobodySeated(g: Game, start: Pixels)
    ensures SeatTold(Unseated(g), g.players, 0, start)
  {
  }

  lemma {:induction false} SeatSize(s: Seating, i: nat, start: Pixels)
    ensures var r := SeatFrom(s, i, start); r.arena.width == s.arena.width && r.arena.height == s.arena.height
    decreases |s.players| - i
  {
    if i < |s.players| {
      var r := AddName(s.names, s.namesLen, s.players[i].name);
      if r.Added? {
        var seat := Seat(s, i, r.names, r.len, start(i));
        assert seat.arena.width == s.arena.width && seat.arena.height == s.arena.height;
        hide Seat, AddName;
        SeatSize(seat, i + 1, start);
      } else if !r.ListFull? {
        SeatSize(s, i + 1, start);
      }
    }
  }

  lemma BeganFrom(g: Game, s: Seating, r: Moved, n: nat, start: Pixels)
    requires AllReady(g.players) && g.readyCount == |g.players|
    requires SeatInv(s, g.players, n) && SeatTold(s, g.players, n, start)
    requires s.arena.width == g.arena.width && s.arena.height == g.arena.height
    requires r == Moved(g.(running := true, arena := s.arena, players := s.players, rand := s.rand),
                        [NewGame(0, g.arena.width, g.arena.height, s.names, s.namesLen)] + s.events)
    ensures Began(g, g.players, r, start)
  {
    hide SeatInv, SeatTold, Announces, HasPixel, AllReady, Names;
    SeatedPlayers(s, g.players, n, start);
    BehindNewGame(s, g.players, n, r.events[0], start);
  }

  lemma SeatedPlayers(s: Seating, players: seq<Player>, n: nat, start: Pixels)
    requires AllReady(players) && SeatInv(s, players, n)
    ensures n <= |players| == |s.players| && s.names == Names(players)[..n]
    ensures forall j | 0 <= j < |players| ::
      && s.players[j].name == players[j].name && s.players[j].ready
      && (s.players[j].inGame <==> j < n)
      && (j < n ==> s.players[j].no == j)
  {
    hide ArenaInv, StrictlySorted, NameOk, Join, Names;
    forall j | 0 <= j < |players| ensures s.players[j].ready {
      assert players[j] in players;
    }
  }

  lemma BehindNewGame(s: Seating, players: seq<Player>, n: nat, e: Event, start: Pixels)
    requires SeatTold(s, players, n, start) && e.NewGame?
    ensures |s.events| == n == |s.arena.snakes|
    ensures var events := [e] + s.events;
      forall k | 0 <= k < n ::
        && Announces(events[k + 1], k, start(k), s.arena.width, s.arena.height, HasPixel(events[..k + 1], start(k)))
        && s.arena.snakes[k] == Snake(start(k), Straight, events[k + 1].Pixel?)
  {
    var events := [e] + s.events;
    hide Announces, HasPixel;
    forall k | 0 <= k < n
      ensures Announces(
        events[k + 1], k, start(k), s.arena.width, s.arena.height, HasPixel(events[..k + 1], start(k)))
      ensures s.arena.snakes[k] == Snake(start(k), Straight, events[k + 1].Pixel?)
    {
      assert events[..k + 1] == [e] + s.events[..k] && events[k + 1] == s.events[k];
      HasPixelCons(e, s.events[..k], start(k));
    }
  }

  // ---- What a request does ----

  /** The player is seated in the game that is going on. */
  ghost predicate Plays(g: Game, name: Name) {
    exists p | p in g.players :: p.name == name && p.inGame
  }

  /** Snake j looks in this direction from now on, and nothing else is different. */
  function Steered(g: Game, j: nat, dir: Direction): Game
    requires j < |g.arena.snakes|
  {
    g.(arena := g.arena.(snakes := g.arena.snakes[j := Snake(g.arena.snakes[j].pos, dir, g.arena.snakes[j].alive)]))
  }

  /** While a game is played, the action of a player that takes part turns exactly the snake that has the number of its
      name in the game's NEW_GAME, in the direction that it asks for; any other action changes nothing. */
  lemma TurnsSnake(g: Game, log: seq<Event>, name: Name, dir: Direction, start: Pixels)
    requires GameInv(g, log) && g.running
    ensures Plays(g, name) ==> name in log[0].names
    ensures Plays(g, name) ==> forall j | 0 <= j < |log[0].names| && log[0].names[j] == name ::
      PlayerAction(g, name, dir, start) == Moved(Steered(g, j, dir), [])
    ensures !Plays(g, name) ==> PlayerAction(g, name, dir, start) == Moved(g, [])
  {
    PlaysIn(g, name);
    assert |log[0].names| == |g.arena.snakes| && StrictlySorted(log[0].names);
    if Has(g.players, name) {
      var i := Lower(g.players, name);
      var p := g.players[i];
      Singled(g.players, i);
      assert p in g.players;
      hide ArenaInv, HeaderOk, PlayersOk, StrictlySorted;
      assert Plays(g, name) <==> p.inGame;
      if p.inGame {
        assert p.no < |log[0].names| && log[0].names[p.no] == name;
        forall j | 0 <= j < |log[0].names| && log[0].names[j] == name
          ensures PlayerAction(g, name, dir, start) == Moved(Steered(g, j, dir), [])
        {
          OnlyNumber(log[0].names, p.no, j);
        }
      }
    }
  }

  lemma PlaysIn(g: Game, name: Name)
    requires PlayersOk(g)
    ensures Plays(g, name) ==> Has(g.players, name)
  {
    HasIff(g.players, name);
    if Plays(g, name) {
      var p :| p in g.players && p.name == name;
      var k :| 0 <= k < |g.players| && g.players[k] == p;
      assert Names(g.players)[k] == name;
    }
  }

  lemma OnlyNumber(names: seq<Name>, i: nat, j: nat)
    requires StrictlySorted(names) && i < |names| && j < |names| && names[i] == names[j]
    ensures i == j
  {
    LessTotal(names[i], names[j]);
  }

  lemma BeganSame(t: Game, g: Game, ps: seq<Player>, qs: seq<Player>, r: Moved, start: Pixels)
    requires Began(t, ps, r, start) && t.gameId == g.gameId && t.arena == g.arena && Names(ps) == Names(qs)
    ensures Began(g, qs, r, start)
  {
    assert forall j | 0 <= j < |ps| :: ps[j].name == Names(ps)[j] && qs[j].name == Names(qs)[j];
  }

  /** In an idle game, an action that starts nothing makes exactly its player ready, unless it is Straight; the action
      that starts the game has all players placed. */
  lemma ActionReadies(g: Game, log: seq<Event>, name: Name, dir: Direction, start: Pixels)
    requires GameInv(g, log) && !g.running
    ensures var r := PlayerAction(g, name, dir, start);
      if r.game.running then Began(g, g.players, r, start)
      else
        && r.events == [] && r.game == g.(players := r.game.players, readyCount := r.game.readyCount)
        && |r.game.players| == |g.players|
        && forall j | 0 <= j < |g.players| ::
             r.game.players[j] ==
             g.players[j].(ready := g.players[j].ready || (g.players[j].name == name && dir != Straight))
  {
    HasIff(g.players, name);
    var r := PlayerAction(g, name, dir, start);
    PlayerActionKeeps(g, log, name, dir, start);
    if Has(g.players, name) {
      var i := Lower(g.players, name);
      Singled(g.players, i);
      if !g.players[i].ready && dir != Straight {
        var t := Readied(g, i);
        ReadyOne(g, i);
        StartsIff(t, start);
        if r.game.running {
          StartTells(t, start);
          hide GameInv, Idle, PlayersOk, Began, Start, PlayerAction;
          BeganSame(t, g, t.players, g.players, r, start);
        }
      }
    } else {
      assert forall j | 0 <= j < |g.players| :: Names(g.players)[j] == g.players[j].name;
    }
  }

  /** A departure takes exactly this player out of the game; the departure that starts a game has all others placed. */
  lemma DepartureTells(g: Game, log: seq<Event>, name: Name, start: Pixels)
    requires GameInv(g, log)
    ensures var r := RemovePlayer(g, name, start);
      if r.game.running && !g.running then exists left ::
        StrictlySorted(Names(left)) && AllBut(g.players, left, name) && Began(g, left, r, start)
      else
        && r.events == [] && r.game == g.(players := r.game.players, readyCount := r.game.readyCount)
        && StrictlySorted(Names(r.game.players)) && AllBut(g.players, r.game.players, name)
  {
    HasIff(g.players, name);
    var r := RemovePlayer(g, name, start);
    RemovePlayerKeeps(g, log, name, start);
    if Has(g.players, name) {
      var i := Lower(g.players, name);
      RemovedPlayers(g, i);
      WithoutOnly(g.players, i);
      if !g.running {
        var t := Removed(g, i);
        StartsIff(t, start);
        if r.game.running {
          assert g.players[i].name == name && Idle(t) && r == Start(t, start) && StrictlySorted(Names(t.players));
          hide *;
          LeavesTells(g, t, i, start);
        }
      }
    } else {
      assert forall j | 0 <= j < |g.players| :: Names(g.players)[j] == g.players[j].name;
    }
  }

  /** These are the players but for this one. */
  ghost predicate AllBut(players: seq<Player>, left: seq<Player>, name: Name) {
    forall p :: p in left <==> p in players && p.name != name
  }

  lemma LeavesTells(g: Game, t: Game, i: nat, start: Pixels)
    requires i < |g.players| && t == Removed(g, i) && Idle(t) && Start(t, start).game.running
    ensures Began(g, t.players, Start(t, start), start)
  {
    hide Idle, Began, Start, Names;
    StartTells(t, start);
    BeganSame(t, g, t.players, t.players, Start(t, start), start);
  }

  lemma WithoutOnly(players: seq<Player>, i: nat)
    requires StrictlySorted(Names(players)) && i < |players|
    ensures AllBut(players, WithoutAt(players, i), players[i].name)
  {
    var r := WithoutAt(players, i);
    Singled(players, i);
    forall p ensures p in r <==> p in players && p.name != players[i].name {
      if p in players && p.name != players[i].name {
        var j :| 0 <= j < |players| && players[j] == p;
        assert r[if j < i then j else j - 1] == p;
      }
      if p in r {
        var j :| 0 <= j < |r| && r[j] == p;
        assert players[if j < i then j else j + 1] == p;
      }
    }
  }

  /** A name joins exactly if it has at most 64 characters and nobody has it; it joins unready and unseated, and nothing
      else changes. */
  lemma JoinIff(g: Game, log: seq<Event>, name: Name)
    requires GameInv(g, log)
    ensures match AddPlayer(g, name)
      case NameIsTooLong => |name| > 64
      case NameIsTaken => |name| <= 64 && name in Names(g.players)
      case Joined(r) =>
        && |name| <= 64 && name !in Names(g.players)
        && r == g.(players := r.players)
        && forall p :: p in r.players <==> p in g.players || p == Player(name, 0, false, false)
  {
    HasIff(g.players, name);
    InsertedOnly(g.players, Lower(g.players, name), Player(name, 0, false, false));
    hide GameInv, Lower, Has, Names;
  }

  lemma InsertedOnly(players: seq<Player>, i: nat, p: Player)
    requires i <= |players|
    ensures forall q :: q in players[..i] + [p] + players[i..] <==> q in players || q == p
  {
    assert players == players[..i] + players[i..];
  }

  /** What is left of a game that is over: its players, none of them ready or seated, and the next id and draw. */
  lemma FinishResets(g: Game)
    ensures var r := Finish(g);
      && !r.running && r.gameId == g.rand && r.rand == Next(g.rand) && r.readyCount == 0
      && r.arena == g.arena.(eventNo := 1)
      && |r.players| == |g.players|
      && forall j | 0 <= j < |g.players| :: r.players[j] == Player(g.players[j].name, g.players[j].no, false, false)
  {
  }

  /** The player is there and not ready. */
  ghost predicate Waits(g: Game, name: Name) {
    exists p | p in g.players :: p.name == name && !p.ready
  }

  /** The step lets this player get ready or leave. */
  predicate Yields(step: Step, name: Name) {
    (step.Act? && step.name == name && step.dir != Straight) || (step.Leave? && step.name == name)
  }

  lemma WaitsOn(s: GameRuns.State, step: Step, name: Name)
    requires GameInv(s.game, s.log) && !s.game.running && Waits(s.game, name) && StepOk(step) && !Yields(step, name)
    ensures !After(s, step).game.running && After(s, step).log == [] && Waits(After(s, step).game, name)
  {
    var p :| p in s.game.players && p.name == name && !p.ready;
    var i :| 0 <= i < |s.game.players| && s.game.players[i] == p;
    match step
    case Enter(other) => JoinIff(s.game, s.log, other);
    case Leave(other, start) =>
      DepartureStartsIff(s.game, s.log, other, start);
      DepartureTells(s.game, s.log, other, start);
    case Act(other, dir, start) =>
      ActionStartsIff(s.game, s.log, other, dir, start);
      ActionReadies(s.game, s.log, other, dir, start);
      StillWaiting(s.game, After(s, step).game, other, dir, i);
    case Frame(next) =>
  }

  lemma StillWaiting(g: Game, r: Game, other: Name, dir: Direction, i: nat)
    requires i < |g.players| == |r.players| && !g.players[i].ready && (g.players[i].name == other ==> dir == Straight)
    requires forall j | 0 <= j < |g.players| ::
      r.players[j] == g.players[j].(ready := g.players[j].ready || (g.players[j].name == other && dir != Straight))
    ensures Waits(r, g.players[i].name)
  {
    assert r.players[i] in r.players;
  }

  /** Whatever else happens, no game starts as long as one player stays without getting ready. */
  lemma {:induction false} NoStartWithout(s: GameRuns.State, steps: seq<Step>, name: Name)
    requires GameInv(s.game, s.log) && !s.game.running && Waits(s.game, name)
    requires forall i | 0 <= i < |steps| :: StepOk(steps[i]) && !Yields(steps[i], name)
    ensures var q := Run(s, steps); GameInv(q.game, q.log) && !q.game.running && Waits(q.game, name)
    decreases |steps|
  {
    if steps != [] {
      var n := |steps| - 1;
      NoStartWithout(s, steps[..n], name);
      hide GameInv, Waits, StepOk, Yields;
      StepKeeps(Run(s, steps[..n]), steps[n]);
      WaitsOn(Run(s, steps[..n]), steps[n], name);
    }
  }

  /** After a game, the next one takes a new action of every player who stays. */
  lemma EveryGameAnew(g: Game, log: seq<Event>, steps: seq<Step>, name: Name)
    requires GameInv(g, log) && name in Names(g.players)
    requires forall i | 0 <= i < |steps| :: StepOk(steps[i]) && !Yields(steps[i], name)
    ensures !Run(GameRuns.State(Finish(g), []), steps).game.running
  {
    var i :| 0 <= i < |g.players| && Names(g.players)[i] == name;
    FinishResets(g);
    FinishKeeps(g);
    assert Finish(g).players[i] in Finish(g).players;
    NoStartWithout(GameRuns.State(Finish(g), []), steps, name);
  }
}
