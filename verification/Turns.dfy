/** What a turn of the server does to the game, to its clients and to a message. */
module Turns {
  import opened Wire
  import opened Records
  import opened Packing
  import opened Arenas
  import opened GameRules
  import opened GameProofs
  import opened GameRuns
  import opened Frames
  import opened Registry
  import opened Service
  import opened ServiceProofs
  import opened ServiceFacts
  import opened Starting
  import opened EndToEnd
  import opened Answers
  import opened Chronicles
  import opened Following

  // ---- The end of a game ----

  /** Of all turns of a server that plays, exactly the frames with at most one player not eliminated in the log empty
      the log and leave no game running; they send GAME_OVER alone, to everybody who is connected. */
  lemma TurnEndsIff(s: Sys, t: Turn)
    requires Good(s, []) && !s.down && s.game.running && TurnOk(t)
    ensures var q := Turned(s, t);
      && !q.down
      && (q.log == [] <==> t.Frame? && !TwoInPlay(s.log))
      && (!q.game.running <==> t.Frame? && !TwoInPlay(s.log))
      && (t.Frame? && !TwoInPlay(s.log) ==>
            var to := Addresses(Kept(s.conns, t.now));
            q.posted == s.posted + [Letter(s.game.gameId, [GameOver(|s.log|)], to)])
  {
    PlayingStaysUp(s, t);
    PlayingEnds(s);
    TurnGood(s, t);
    LogWhilePlaying(s);
    var q := Turned(s, t);
    assert Ended(s, t) <==> t.Frame? && !TwoInPlay(s.log);
    hide Good, TwoInPlay, TurnOk;
    if Ended(s, t) {
      EndDates(s, t);
      OnFrameKeeps(s, t.now, t.next);
      OverPosts(s, t.now, t.next);
    } else {
      TurnGoes(s, t);
      GoesRunning(s, q);
    }
  }

  lemma PlayingEnds(s: Sys)
    requires Good(s, []) && !s.down && s.game.running
    ensures Ends(s.game) <==> !TwoInPlay(s.log)
  {
    EndsIff(s.game, s.log);
  }

  lemma LogWhilePlaying(s: Sys)
    requires Good(s, []) && !s.down && s.game.running
    ensures s.log != [] && s.game.arena.eventNo == |s.log|
  {
    GameOverNumber(s.game, s.log);
  }

  lemma OverPosts(s: Sys, now: int, next: Pixels)
    requires !s.down && s.game.running && Ends(s.game)
    ensures OnFrame(s, now, next).posted ==
      s.posted + [Letter(s.game.gameId, [GameOver(s.game.arena.eventNo)], Addresses(Kept(s.conns, now)))]
  {
    var m := DoFrame(s.game, next);
    DeliverPosts(s.(game := m.game), m.events, now);
  }

  // ---- Turning a snake ----

  /** The games differ in nothing but their players, of whom some left. */
  ghost predicate Fewer(g: Game, r: Game) {
    r == g.(players := r.players, readyCount := r.readyCount) && forall p | p in r.players :: p in g.players
  }

  lemma {:induction false} PlayersLeave(s: Sys, names: seq<Name>, now: int, start: Pixels)
    requires s.game.running
    ensures var u := DisconnectAll(s, names, now, start); u == s.(game := u.game) && Fewer(s.game, u.game)
    decreases |names|
  {
    if names != [] {
      var u := Disconnect(s, names[0], now, start);
      assert u == s.(game := u.game) && Fewer(s.game, u.game);
      hide Disconnect;
      PlayersLeave(u, names[1..], now, start);
    }
  }

  lemma SamePlays(s: Sys, u: Sys, name: Name)
    requires Good(s, []) && !s.down && Good(u, []) && !u.down && Fewer(s.game, u.game)
    requires name != [] ==> name in Names(u.game.players)
    ensures Plays(s.game, name) <==> Plays(u.game, name)
  {
    NoEmptyName(s);
    PlaysIn(s.game, name);
    HasIff(s.game.players, name);
    if Plays(s.game, name) {
      assert name in Names(u.game.players);
      OnlyPlayer(s.game, u.game, name);
    }
  }

  lemma OnlyPlayer(g: Game, r: Game, name: Name)
    requires PlayersOk(g) && Fewer(g, r) && Plays(g, name) && name in Names(r.players)
    ensures Plays(r, name)
  {
    var p :| p in g.players && p.name == name && p.inGame;
    var i :| 0 <= i < |g.players| && g.players[i] == p;
    Singled(g.players, i);
    var j :| 0 <= j < |r.players| && Names(r.players)[j] == name;
    assert r.players[j] in r.players && r.players[j] in g.players;
    assert r.players[j] == p;
  }

  /** An answer to a client that is found does to a running game what the player's action does. */
  lemma AnsweredTurns(v: Sys, player: Name, r: Request, from: Address, now: int, start: Pixels)
    requires Good(v, []) && !v.down && v.game.running
    ensures var q := Answered(v, player, r, from, now, start);
      q.log == v.log && q.game == if player == r.name then PlayerAction(v.game, player, r.turn, start).game else v.game
  {
    if player == r.name {
      var m := PlayerAction(v.game, player, r.turn, start);
      PlayerActionKeeps(v.game, v.log, player, r.turn, start);
      assert m.events == [];
      if player == [] {
        NoEmptyName(v);
        HasIff(v.game.players, player);
        ReplyKeeps(v, from, r.next, now);
      } else {
        ActionDelivered(v, player, r.turn, now, start);
        ReplyKeeps(v.(game := m.game), from, r.next, now);
      }
    }
  }

  /** A client who connects while a game is played changes it only by being a player of the next one. */
  lemma ConnectTurns(u: Sys, r: Request, from: Address, now: int, start: Pixels)
    requires Good(u, []) && !u.down && u.game.running && RequestOk(r) && AllActive(u.conns, now)
    requires forall c | c in u.conns :: c.address != from
    ensures var q := OnAnswer(u, NotFound, r, from, now, start, false);
      && q.log == u.log
      && q.game == u.game.(players := q.game.players, readyCount := q.game.readyCount)
  {
    ConnectKeeps(u, r, from, now, start);
    var c := OnConnect(u, r, from, now, start);
    if c.Some? {
      var v := c.value;
      JoinedTurns(u, r, from, now, start);
      Connected(v, u.conns, r, from, now, start);
      assert OnAnswer(u, NotFound, r, from, now, start, false) == Answered(v, r.name, r, from, now, start);
      hide *;
      AnsweredTurns(v, r.name, r, from, now, start);
      NotYetPlaying(v, r, start);
    }
  }

  lemma NotYetPlaying(v: Sys, r: Request, start: Pixels)
    requires Good(v, []) && !v.down && v.game.running && !Plays(v.game, r.name)
    ensures PlayerAction(v.game, r.name, r.turn, start).game == v.game
  {
    TurnsSnake(v.game, v.log, r.name, r.turn, start);
  }

  lemma JoinedTurns(u: Sys, r: Request, from: Address, now: int, start: Pixels)
    requires Good(u, []) && !u.down && u.game.running && AllActive(u.conns, now)
    ensures match OnConnect(u, r, from, now, start)
      case None => true
      case Some(v) =>
        v.down || (v.log == u.log && v.game == u.game.(players := v.game.players) && !Plays(v.game, r.name))
  {
    KeptAll(u.conns, now);
    JoinIff(u.game, u.log, r.name);
    NoEmptyName(u);
    PlaysIn(u.game, r.name);
    HasIff(u.game.players, r.name);
    hide GameInv, Has, Names, Lower, Drawn, Coupled, BoxOk, Unique;
  }

  /** The sender of the message is known at its address by the session and the name that it gives. */
  ghost predicate Known(s: Sys, r: Request, from: Address, now: int) {
    Listed(s.conns, from, now, r.session, r.name)
  }

  /** What the answer to a message does to a running game. */
  lemma AnswerTurns(u: Sys, answer: Answer, r: Request, from: Address, now: int, start: Pixels)
    requires Good(u, []) && !u.down && u.game.running && RequestOk(r) && AllActive(u.conns, now)
    requires answer.NotFound? ==> forall c | c in u.conns :: c.address != from
    ensures var q := OnAnswer(u, answer, r, from, now, start, false);
      && q.log == u.log
      && if answer == Found(r.name) then q.game == PlayerAction(u.game, r.name, r.turn, start).game
         else q.game == u.game.(players := q.game.players, readyCount := q.game.readyCount)
  {
    match answer
    case NewerSession =>
    case Found(player) => AnsweredTurns(u, player, r, from, now, start);
    case NotFound => ConnectTurns(u, r, from, now, start);
  }

  /** What the sweep and the lookup of a message leave of a running game. */
  lemma ClearedTurns(s: Sys, r: Request, from: Address, now: int, start: Pixels)
    requires Good(s, []) && !s.down && s.game.running
    ensures var l, u := LookUp(s.conns, from, r.session, now), Cleared(s, r, from, now, start);
      && Good(u, []) && !u.down && u.game.running && u.log == s.log && u.conns == l.conns && AllActive(u.conns, now)
      && (l.answer.NotFound? ==> forall c | c in u.conns :: c.address != from)
      && Fewer(s.game, u.game)
      && (l.answer == Found(r.name) <==> Known(s, r, from, now))
      && (Known(s, r, from, now) && r.name != [] ==> r.name in Names(u.game.players))
  {
    var l, u := LookUp(s.conns, from, r.session, now), Cleared(s, r, from, now, start);
    LookedUp(s, r, from, now, start);
    PlayersLeave(s.(conns := l.conns), l.gone, now, start);
    RegistriesAgree(u);
    LookupKeeps(s.conns, from, r.session, now);
    LookUpIff(s.conns, from, r.session, now);
    hide Good, LookUp, DisconnectAll;
  }

  /** While a game is played, a message turns exactly the snake with the number that NEW_GAME gives its sender, provided
      that the sender is known and takes part in the game; nothing else of the game changes but that players who timed
      out leave and that a new one may come. */
  lemma MessageTurns(s: Sys, r: Request, from: Address, now: int, start: Pixels)
    requires Good(s, []) && !s.down && s.game.running && RequestOk(r)
    ensures var q, g := Turned(s, Receive(r, from, now, start)), s.game;
      && !q.down && q.log == s.log && s.log != [] && s.log[0].NewGame? && |s.log[0].names| == |g.arena.snakes|
      && q.game == g.(arena := q.game.arena, players := q.game.players, readyCount := q.game.readyCount)
      && if Known(s, r, from, now) && Plays(g, r.name)
         then
           && r.name in s.log[0].names
           && forall j | 0 <= j < |s.log[0].names| && s.log[0].names[j] == r.name ::
                q.game.arena == Steered(g, j, r.turn).arena
         else q.game.arena == g.arena
  {
    var l, u := LookUp(s.conns, from, r.session, now), Cleared(s, r, from, now, start);
    PlayingStaysUp(s, Receive(r, from, now, start));
    ClearedTurns(s, r, from, now, start);
    assert Turned(s, Receive(r, from, now, start)) == OnAnswer(u, l.answer, r, from, now, start, false);
    hide LookUp, Cleared, Turned, OnAnswer, RequestOk, AllActive, Known;
    AnswerTurns(u, l.answer, r, from, now, start);
    Heading(u);
    if Known(s, r, from, now) {
      SamePlays(s, u, r.name);
      Steers(u, r, start);
    }
    hide Good, Fewer;
  }

  lemma Heading(u: Sys)
    requires Good(u, []) && !u.down && u.game.running
    ensures u.log != [] && u.log[0].NewGame? && |u.log[0].names| == |u.game.arena.snakes|
  {
  }

  lemma Steers(u: Sys, r: Request, start: Pixels)
    requires Good(u, []) && !u.down && u.game.running
    ensures u.log != [] && u.log[0].NewGame? && |u.log[0].names| == |u.game.arena.snakes|
    ensures var g := PlayerAction(u.game, r.name, r.turn, start).game;
      if Plays(u.game, r.name)
      then
        && r.name in u.log[0].names
        && forall j | 0 <= j < |u.log[0].names| && u.log[0].names[j] == r.name :: g == Steered(u.game, j, r.turn)
      else g == u.game
  {
    Heading(u);
    TurnsSnake(u.game, u.log, r.name, r.turn, start);
  }

  /** The other turns leave the snakes of a running game where they are and looking where they look, but for frames,
      which do to them what Frames.FrameOnLog says. */
  lemma OtherTurns(s: Sys, t: Turn)
    requires Good(s, []) && !s.down && s.game.running && !t.Receive? && (t.Frame? ==> TwoInPlay(s.log))
    ensures var q := Turned(s, t);
      q.game.arena == if t.Frame? then DoFrame(s.game, t.next).game.arena else s.game.arena
  {
    match t
    case Timeout(now, start) =>
      hide Good;
      PlayersLeave(s.(conns := Kept(s.conns, now)), Gone(s.conns, now), now, start);
    case Frame(now, next) =>
      PlayingEnds(s);
      FrameTrims(s, now, next);
    case Flush(blocks) =>
  }

  lemma FrameTrims(s: Sys, now: int, next: Pixels)
    requires Good(s, []) && !s.down && s.game.running && !Ends(s.game)
    ensures OnFrame(s, now, next).game.arena == DoFrame(s.game, next).game.arena
  {
    var m := DoFrame(s.game, next);
    FrameStepKeeps(s.game, s.log, next);
    FrameFits(s.game, s.log, next);
    assert PlayersOk(m.game) && m.game.running && Coupled(s.conns, [], m.game.players);
    hide GameInv, BoxOk, Unique, Coupled, Drawn, DoFrame, PlayersOk;
    DeliverKeeps(s.(game := m.game), m.events, now, []);
  }

  // ---- The timeout ----

  /** The turn looks for clients that timed out: every message and every timeout does, and so does a frame that sends
      anything. */
  ghost predicate Looks(s: Sys, t: Turn) {
    t.Receive? || t.Timeout? || (t.Frame? && Turned(s, t).posted != s.posted)
  }

  /** The turn replaces this client by its sender. */
  predicate Replaces(t: Turn, c: Conn) {
    t.Receive? && t.from == c.address && c.session < t.request.session
  }

  lemma {:induction false} DeliverSweeps(s: Sys, events: seq<Event>, now: int)
    requires !s.down && AllFit(events)
    ensures Deliver(s, events, now).conns == if events == [] then s.conns else Kept(s.conns, now)
    decreases |events|
  {
    if events != [] {
      var t := OnEvent(s, events[0], now);
      assert events[0] in events && forall f | f in events[1..] :: f in events;
      assert t.conns == Kept(s.conns, now) && !t.down;
      KeptIff(s.conns, now);
      KeptAll(t.conns, now);
      hide OnEvent, Kept;
      DeliverSweeps(t, events[1..], now);
    }
  }

  /** The clients are active, and these letters go to clients only. */
  ghost predicate Current(conns: seq<Conn>, letters: seq<Letter>, now: int) {
    && (forall c | c in conns :: Active(c, now))
    && forall l | l in letters :: forall a | a in l.to :: a in Addresses(conns)
  }

  lemma TellsCurrent(s: Sys, q: Sys, to: seq<Address>, from: Address, parts: seq<seq<Event>>, now: int)
    requires Tells(s, q, to, from, parts) && AllActive(q.conns, now)
    requires (forall a | a in to :: a in Addresses(q.conns)) && (parts != [] ==> from in Addresses(q.conns))
    ensures s.posted <= q.posted && Current(q.conns, q.posted[|s.posted|..], now)
  {
    var id, events := s.game.gameId, q.log[|s.log|..];
    var x, y := Broadcasts(id, events, to), Letters(id, from, parts);
    assert q.posted[|s.posted|..] == x + y;
    hide Addresses;
    forall l: Letter | l in x + y ensures forall a | a in l.to :: a in Addresses(q.conns) {
      assert l in x ==> l.to == to;
      assert l in y ==> l.to == [from] && parts != [];
    }
  }

  lemma MessageCurrent(s: Sys, t: Turn)
    requires Good(s, []) && !s.down && TurnOk(t) && !Turned(s, t).down && t.Receive?
    ensures var q := Turned(s, t); s.posted <= q.posted && Current(q.conns, q.posted[|s.posted|..], t.now)
  {
    var q, r := Turned(s, t), t.request;
    var l := LookUp(s.conns, t.from, r.session, t.now);
    assert Turned(s, t) == OnAction(s, r, t.from, t.now, t.start, false);
    OnActionKeeps(s, r, t.from, t.now, t.start);
    var to, parts := MessageSpeaks(s, r, t.from, t.now, t.start);
    assert Unique(s.conns);
    hide Good, Goes, Turned, OnAction, TurnOk, Tells, Addresses;
    LookupKeeps(s.conns, t.from, r.session, t.now);
    TellsCurrent(s, q, to, t.from, parts, t.now);
  }

  lemma TimeoutCurrent(s: Sys, t: Turn, a: Address)
    requires Good(s, []) && !s.down && !Turned(s, t).down && t.Timeout?
    ensures var q := Turned(s, t);
      s.posted <= q.posted && Current(q.conns, q.posted[|s.posted|..], t.now) && q.conns == Kept(s.conns, t.now)
  {
    var q, c := Turned(s, t), s.(conns := Kept(s.conns, t.now));
    assert q == Sweep(s, t.now, t.start);
    SweepGood(s, t.now);
    SweepKeeps(s, t.now, t.start);
    hide Good, Addresses, Turned;
    DisconnectAllShouts(c, Gone(s.conns, t.now), t.now, t.start);
    ShoutsTells(s, c, q, a);
    hide Tells, Shouts, Sweep, DisconnectAll, Kept, Gone, Goes;
    TellsCurrent(s, q, Addresses(c.conns), a, [], t.now);
  }

  lemma FrameCurrent(s: Sys, t: Turn)
    requires Good(s, []) && !s.down && t.Frame? && Turned(s, t).posted != s.posted
    ensures var q := Turned(s, t);
      s.posted <= q.posted && Current(q.conns, q.posted[|s.posted|..], t.now) && q.conns == Kept(s.conns, t.now)
  {
    var q, m := Turned(s, t), DoFrame(s.game, t.next);
    assert s.game.running && q == OnFrame(s, t.now, t.next);
    FrameSweeps(s, t.now, t.next);
    hide *;
    KeptIff(s.conns, t.now);
    SentCurrent(s.posted, q.posted, m.game.gameId, m.events, Kept(s.conns, t.now), t.now);
  }

  lemma FrameSweeps(s: Sys, now: int, next: Pixels)
    requires Good(s, []) && !s.down && s.game.running
    ensures var q, m, kept := OnFrame(s, now, next), DoFrame(s.game, next), Kept(s.conns, now);
      && q.posted == s.posted + Broadcasts(m.game.gameId, m.events, Addresses(kept))
      && (m.events != [] ==> q.conns == kept)
  {
    var m := DoFrame(s.game, next);
    FrameEventsFit(s, next);
    hide Good, DoFrame, Deliver;
    DeliverPosts(s.(game := m.game), m.events, now);
    DeliverSweeps(s.(game := m.game), m.events, now);
  }

  lemma SentCurrent(
      before: seq<Letter>, after: seq<Letter>, id: U32, events: seq<Event>, kept: seq<Conn>, now: int)
    requires after == before + Broadcasts(id, events, Addresses(kept)) && forall c | c in kept :: Active(c, now)
    ensures before <= after && Current(kept, after[|before|..], now)
    ensures events == [] ==> after == before
  {
    assert after[|before|..] == Broadcasts(id, events, Addresses(kept));
  }

  lemma FrameEventsFit(s: Sys, next: Pixels)
    requires Good(s, []) && !s.down && s.game.running
    ensures AllFit(DoFrame(s.game, next).events)
  {
    if !Ends(s.game) {
      FrameFits(s.game, s.log, next);
    }
  }

  /** Exactly the clients heard less than two seconds ago are still there, up to the time when they were heard last, but
      for one that the turn replaces and one that comes with it. */
  ghost predicate Continues(conns: seq<Conn>, t: Turn, after: seq<Conn>)
    requires !t.Flush?
  {
    && (forall c | c in conns && t.now - c.stamp < 2_000_000_000 ::
          Replaces(t, c) || exists d | d in after :: Same(c, d))
    && forall d | d in after ::
         || (t.Receive? && d == Conn(t.from, t.request.session, t.request.name, t.now))
         || exists c | c in conns :: t.now - c.stamp < 2_000_000_000 && Same(c, d)
  }

  lemma KeptContinues(conns: seq<Conn>, t: Turn)
    requires !t.Flush?
    ensures Continues(conns, t, Kept(conns, t.now))
  {
    TimedOutIff(conns, t.now);
    hide Kept;
    assert forall c | c in conns :: Same(c, c);
  }

  lemma MessageContinues(s: Sys, t: Turn)
    requires Good(s, []) && !s.down && TurnOk(t) && !Turned(s, t).down && t.Receive?
    ensures Continues(s.conns, t, Turned(s, t).conns)
  {
    var r := t.request;
    assert Turned(s, t) == OnAction(s, r, t.from, t.now, t.start, false);
    OnActionKeeps(s, r, t.from, t.now, t.start);
    assert Unique(s.conns);
    hide Good, Goes, Turned, OnAction, TurnOk;
    RegisteredContinues(s.conns, t, Turned(s, t).conns);
  }

  lemma RegisteredContinues(conns: seq<Conn>, t: Turn, after: seq<Conn>)
    requires Unique(conns) && t.Receive?
    requires var r := t.request;
      Registered(LookUp(conns, t.from, r.session, t.now), Conn(t.from, r.session, r.name, t.now), after)
    ensures Continues(conns, t, after)
  {
    var l := LookUp(conns, t.from, t.request.session, t.now);
    LookupKeeps(conns, t.from, t.request.session, t.now);
    ComesFrom(conns, t.from, t.request.session, t.now);
    assert forall d | d in l.conns :: d in after;
    hide LookUp, Unique, Same;
  }

  lemma ComesFrom(conns: seq<Conn>, address: Address, session: nat, now: int)
    requires Unique(conns)
    ensures forall d | d in LookUp(conns, address, session, now).conns ::
      exists c | c in conns :: now - c.stamp < 2_000_000_000 && Same(c, d)
  {
    LookUpIff(conns, address, session, now);
    hide LookUp, Unique, Listed;
    forall d | d in LookUp(conns, address, session, now).conns
      ensures exists c | c in conns :: now - c.stamp < 2_000_000_000 && Same(c, d)
    {
      assert Remains(conns, address, session, now, d);
    }
  }

  /** A turn that looks for clients that timed out leaves exactly those heard less than two seconds ago, unless a
      message replaces one or brings one; it sends to nobody else, and nobody else has a player. */
  lemma TimeoutIff(s: Sys, t: Turn)
    requires Good(s, []) && !s.down && TurnOk(t) && !Turned(s, t).down && Looks(s, t)
    ensures var q, now := Turned(s, t), t.now;
      && (forall c | c in q.conns :: now - c.stamp < 2_000_000_000)
      && (forall n | n in Names(q.game.players) :: exists c | c in q.conns :: c.name == n)
      && s.posted <= q.posted
      && (forall l, a | l in q.posted[|s.posted|..] && a in l.to :: exists c | c in q.conns :: c.address == a)
      && Continues(s.conns, t, q.conns)
  {
    var q := Turned(s, t);
    TurnGood(s, t);
    RegistriesAgree(q);
    hide Good, Turned, TurnOk, Continues, Replaces, Current, Kept;
    match t {
      case Receive(_, _, _, _) => MessageCurrent(s, t); MessageContinues(s, t);
      case Timeout(_, _) => TimeoutCurrent(s, t, Address([])); KeptContinues(s.conns, t);
      case Frame(_, _) => FrameCurrent(s, t); KeptContinues(s.conns, t);
    }
    CurrentIs(q.conns, q.posted[|s.posted|..], t.now);
  }

  lemma CurrentIs(conns: seq<Conn>, letters: seq<Letter>, now: int)
    requires Current(conns, letters, now)
    ensures forall c | c in conns :: now - c.stamp < 2_000_000_000
    ensures forall l, a | l in letters && a in l.to :: exists c | c in conns :: c.address == a
  {
    forall l, a | l in letters && a in l.to ensures exists c | c in conns :: c.address == a {
      var i :| 0 <= i < |conns| && Addresses(conns)[i] == a;
      assert conns[i] in conns;
    }
  }

  /** Any other turn leaves clients, letters and log alone. */
  lemma QuietTurn(s: Sys, t: Turn)
    requires Good(s, []) && !s.down && !Looks(s, t)
    ensures var q := Turned(s, t); !q.down && q.conns == s.conns && q.posted == s.posted && q.log == s.log
  {
    if t.Frame? && s.game.running {
      var m := DoFrame(s.game, t.next);
      FrameEventsFit(s, t.next);
      DeliverPosts(s.(game := m.game), m.events, t.now);
      assert |m.events| == 0;
    }
  }

  // ---- Messages that are refused ----

  /** A message is refused if the client at its address has a newer session or, with the session given, another name; or
      if a client at another address has the name. Clients that timed out are no reason. */
  ghost predicate Declines(conns: seq<Conn>, r: Request, from: Address, now: int) {
    || (exists later, name | later > r.session :: Listed(conns, from, now, later, name))
    || (exists name | name != r.name :: Listed(conns, from, now, r.session, name))
    || (r.name != [] && exists c | c in conns :: now - c.stamp < 2_000_000_000 && c.name == r.name && c.address != from)
  }

  /** What the lookup makes of that. */
  ghost predicate Unwelcome(l: Lookup, r: Request) {
    match l.answer
    case NewerSession => true
    case Found(name) => name != r.name
    case NotFound => r.name != [] && exists c | c in l.conns :: c.name == r.name
  }

  lemma DeclinesIff(s: Sys, r: Request, from: Address, now: int)
    requires Good(s, []) && !s.down
    ensures Declines(s.conns, r, from, now) <==> Unwelcome(LookUp(s.conns, from, r.session, now), r)
  {
    var l := LookUp(s.conns, from, r.session, now);
    LookUpIff(s.conns, from, r.session, now);
    LookupKeeps(s.conns, from, r.session, now);
    RegistriesAgree(s);
    hide Good, LookUp;
    assert forall name | l.answer == Found(name) :: Listed(s.conns, from, now, r.session, name);
    if l.answer.NotFound? {
      TakenIff(s.conns, l, r, from, now);
    } else if l.answer == Found(r.name) && r.name != [] {
      NotTaken(s.conns, r, from, now);
    }
    hide Listed, Remains, Unique, AllActive;
  }

  lemma TakenIff(conns: seq<Conn>, l: Lookup, r: Request, from: Address, now: int)
    requires forall d :: d in l.conns <==> Remains(conns, from, r.session, now, d)
    requires forall d | d in l.conns :: d.address != from
    ensures (exists c | c in l.conns :: c.name == r.name) <==>
      exists c | c in conns :: now - c.stamp < 2_000_000_000 && c.name == r.name && c.address != from
  {
    forall c ensures c in l.conns <==> c in conns && now - c.stamp < 2_000_000_000 && c.address != from {
      if c in l.conns {
        assert Remains(conns, from, r.session, now, c);
      }
    }
  }

  lemma NotTaken(conns: seq<Conn>, r: Request, from: Address, now: int)
    requires Listed(conns, from, now, r.session, r.name) && r.name != []
    requires forall i, j | 0 <= i < j < |conns| :: conns[i].name == conns[j].name ==> conns[i].name == []
    ensures forall c | c in conns && c.name == r.name :: c.address == from
  {
    var d :| d in conns && d.address == from && d.name == r.name;
    var i :| 0 <= i < |conns| && conns[i] == d;
    forall c | c in conns && c.name == r.name ensures c.address == from {
      var j :| 0 <= j < |conns| && conns[j] == c;
      assert i == j;
    }
  }

  lemma RefusedStops(s: Sys, r: Request, from: Address, now: int, start: Pixels)
    requires Good(s, []) && !s.down && RequestOk(r)
    requires Unwelcome(LookUp(s.conns, from, r.session, now), r)
    ensures Turned(s, Receive(r, from, now, start)) == Cleared(s, r, from, now, start)
  {
    var l, u := LookUp(s.conns, from, r.session, now), Cleared(s, r, from, now, start);
    LookedUp(s, r, from, now, start);
    LookupGood(s, from, r.session, now);
    FirstStep(s, s.(conns := l.conns), u, now) by {
      hide LookUp;
      DisconnectAllKeeps(s.(conns := l.conns), l.gone, now, start);
    }
    hide LookUp, DisconnectAll, Good, AllActive;
    if !u.down && l.answer.NotFound? {
      NameTaken(u, r);
    }
  }

  lemma NameTaken(u: Sys, r: Request)
    requires Good(u, []) && !u.down && RequestOk(r) && r.name != [] && exists c | c in u.conns :: c.name == r.name
    ensures forall from: Address, now: int, start: Pixels :: OnConnect(u, r, from, now, start) == None
  {
    RegistriesAgree(u);
    HasIff(u.game.players, r.name);
  }

  /** The client is registered with the session and name that it gives, and as heard just now. */
  lemma WelcomeListed(s: Sys, r: Request, from: Address, now: int, start: Pixels)
    requires Good(s, []) && !s.down && RequestOk(r) && !Turned(s, Receive(r, from, now, start)).down
    requires !Unwelcome(LookUp(s.conns, from, r.session, now), r)
    ensures Conn(from, r.session, r.name, now) in Turned(s, Receive(r, from, now, start)).conns
  {
    var l, u := LookUp(s.conns, from, r.session, now), Cleared(s, r, from, now, start);
    var q := Turned(s, Receive(r, from, now, start));
    LookedUp(s, r, from, now, start);
    OnActionKeeps(s, r, from, now, start);
    LookupKeeps(s.conns, from, r.session, now);
    if l.answer.NotFound? {
      LookupGood(s, from, r.session, now);
      FirstStep(s, s.(conns := l.conns), u, now) by {
        hide LookUp;
        DisconnectAllKeeps(s.(conns := l.conns), l.gone, now, start);
      }
      assert q == if u.down then u else OnAnswer(u, NotFound, r, from, now, start, false);
      hide *;
      NotHeld(u, l.conns, r);
      ComesBack(u, r, from, now, start);
    }
  }

  lemma NotHeld(u: Sys, conns: seq<Conn>, r: Request)
    requires u.conns == conns && (r.name == [] || !exists c | c in conns :: c.name == r.name)
    ensures r.name != [] ==> Holders(u.conns, r.name) == 0
  {
    HoldersIff(u.conns, r.name);
  }

  /** After a refusal no client at this address has both the session and the name of the message. */
  lemma RefusedUnlisted(s: Sys, r: Request, from: Address, now: int, start: Pixels)
    requires Good(s, []) && !s.down && Unwelcome(LookUp(s.conns, from, r.session, now), r)
    ensures Conn(from, r.session, r.name, now) !in LookUp(s.conns, from, r.session, now).conns
  {
    var l := LookUp(s.conns, from, r.session, now);
    LookupKeeps(s.conns, from, r.session, now);
    LookUpIff(s.conns, from, r.session, now);
    assert Unique(s.conns);
    hide Good, LookUp;
    if l.answer.Found? {
      SameAddress(l.conns, Conn(from, r.session, l.answer.name, now), Conn(from, r.session, r.name, now));
    } else if l.answer.NewerSession? {
      var later, name :| later > r.session && Listed(s.conns, from, now, later, name);
      var c :| c in s.conns && now - c.stamp < 2_000_000_000 && c.address == from && c.session == later;
      assert Remains(s.conns, from, r.session, now, c);
      SameAddress(l.conns, c, Conn(from, r.session, r.name, now));
    }
  }

  /** A message is heeded or refused as a whole: its sender is registered anew or again exactly if it is not refused;
      and if it is, nothing is done beyond reporting those who timed out or made room, and nothing is sent unless that
      alone starts a game. */
  lemma AdmittedIff(s: Sys, r: Request, from: Address, now: int, start: Pixels)
    requires Good(s, []) && !s.down && RequestOk(r)
    ensures var q := Turned(s, Receive(r, from, now, start));
      && (!q.down ==> (Conn(from, r.session, r.name, now) in q.conns <==> !Declines(s.conns, r, from, now)))
      && (Declines(s.conns, r, from, now) ==>
            && q == Cleared(s, r, from, now, start)
            && (q.log == s.log ==> q.posted == s.posted))
  {
    var l, q := LookUp(s.conns, from, r.session, now), Turned(s, Receive(r, from, now, start));
    DeclinesIff(s, r, from, now);
    hide *;
    if Unwelcome(l, r) {
      RefusedStops(s, r, from, now, start);
      RefusedUnlisted(s, r, from, now, start);
      ClearedPosts(s, r, from, now, start);
    } else if !q.down {
      WelcomeListed(s, r, from, now, start);
    }
  }

  lemma ClearedPosts(s: Sys, r: Request, from: Address, now: int, start: Pixels)
    requires Good(s, []) && !s.down
    ensures var l, u := LookUp(s.conns, from, r.session, now), Cleared(s, r, from, now, start);
      (!u.down ==> u.conns == l.conns) && (u.log == s.log ==> u.posted == s.posted)
  {
    var l, u := LookUp(s.conns, from, r.session, now), Cleared(s, r, from, now, start);
    var c := s.(conns := l.conns);
    LookupGood(s, from, r.session, now);
    hide LookUp, Good;
    DisconnectAllShouts(c, l.gone, now, start);
    if u.down {
      SweepDownPosts(c, l.gone, now, start);
    }
    assert s.posted + [] == s.posted;
  }
}
