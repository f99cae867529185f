/** The turns that start a game, and with it may take the server down. */
module Starting {
  import opened Wire
  import opened Records
  import opened Packing
  import opened Arenas
  import opened GameRules
  import opened GameProofs
  import opened GameRuns
  import opened Registry
  import opened Service
  import opened ServiceProofs
  import opened ServiceFacts
  import opened EndToEnd

  /** The names that a game would seat, which are the longest run of names in order that add_player accepts, take too
      many bytes for a datagram. */
  ghost predicate Overlong(names: seq<Name>) {
    exists n: nat | n <= |names| ::
      MAX_EVENT_DATA_LEN - NEW_GAME_HEADER_LEN < |Join(names[..n])| <= MAX_EVENT_DATA_LEN
  }

  lemma JoinGrows(names: seq<Name>, m: nat, n: nat)
    requires m <= n <= |names|
    ensures |Join(names[..m])| <= |Join(names[..n])|
    ensures m < n ==> |Join(names[..m])| + |names[m]| + 1 <= |Join(names[..n])|
  {
    JoinAppend(names[..m], names[m..n]);
    assert names[..m] + names[m..n] == names[..n];
    if m < n {
      assert names[m..n][0] == names[m];
    }
  }

  lemma OverlongIff(names: seq<Name>, n: nat)
    requires n <= |names| && |Join(names[..n])| <= MAX_EVENT_DATA_LEN
    requires n == |names| || |Join(names[..n])| + |names[n]| + 1 > MAX_EVENT_DATA_LEN
    ensures Overlong(names) <==> |Join(names[..n])| > MAX_EVENT_DATA_LEN - NEW_GAME_HEADER_LEN
  {
    if Overlong(names) {
      var k: nat :| k <= |names| && MAX_EVENT_DATA_LEN - NEW_GAME_HEADER_LEN < |Join(names[..k])| <= MAX_EVENT_DATA_LEN;
      JoinGrows(names, if k < n then k else n, if k < n then n else k);
    }
  }

  /** A start takes the server down exactly when the names are too long. */
  lemma StartDownIff(g: Game, start: Pixels)
    requires Idle(g)
    ensures AllFit(Start(g, start).events) <==> !(Start(g, start).game.running && Overlong(Names(g.players)))
  {
    if Start(g, start).game.running {
      var n := StartFitsIff(g, start);
      var names := Names(g.players);
      assert n < |names| ==> names[n] == g.players[n].name;
      OverlongIff(names, n);
    }
  }

  /** This player is the last of 2 to 255 to get ready. */
  predicate Fires(players: seq<Player>, name: Name, dir: Direction) {
    dir != Straight && name in Names(players) && 2 <= |players| <= 0xFF && OthersReady(players, name)
  }

  /** The game that this player starts cannot be announced. */
  ghost predicate Fatal(players: seq<Player>, name: Name, dir: Direction) {
    Fires(players, name, dir) && Overlong(Names(players))
  }

  /** When an action takes a server down: the server is idle, and the game that the action starts is fatal. */
  lemma ActionDownIff(s: Sys, name: Name, dir: Direction, now: int, start: Pixels)
    requires Good(s, []) && !s.down
    ensures var m := PlayerAction(s.game, name, dir, start);
      Deliver(s.(game := m.game), m.events, now).down <==> !s.game.running && Fatal(s.game.players, name, dir)
  {
    var g := s.game;
    ActionDelivered(s, name, dir, now, start);
    if g.running {
      PlayerActionKeeps(g, s.log, name, dir, start);
    } else {
      ActionStartsIff(g, s.log, name, dir, start);
      if Has(g.players, name) {
        ActionFits(g, name, dir, start);
      }
    }
  }

  lemma ActionFits(g: Game, name: Name, dir: Direction, start: Pixels)
    requires GameInv(g, []) && !g.running && Has(g.players, name)
    ensures var m := PlayerAction(g, name, dir, start);
      AllFit(m.events) <==> !(m.game.running && Overlong(Names(g.players)))
  {
    var i := Lower(g.players, name);
    if !g.players[i].ready && dir != Straight {
      ReadyOne(g, i);
      hide PlayersOk;
      StartDownIff(Readied(g, i), start);
    }
  }

  lemma ActionDelivered(s: Sys, name: Name, dir: Direction, now: int, start: Pixels)
    requires Good(s, []) && !s.down
    ensures var m := PlayerAction(s.game, name, dir, start); var r := Deliver(s.(game := m.game), m.events, now);
      && Good(r, []) && Stays(s, r, now) && (r.down <==> !AllFit(m.events))
      && (m.game.running || m.events == [])
  {
    var m := PlayerAction(s.game, name, dir, start);
    PlayerActionKeeps(s.game, s.log, name, dir, start);
    ActsQuietly(s.game, s.log, name, dir, start);
    hide GameInv, PlayerAction, BoxOk, Unique, Drawn;
    DeliverGood(s, m.game, m.events, now, []);
  }

  function Without(players: seq<Player>, name: Name): seq<Player> {
    var i := Lower(players, name);
    if Has(players, name) then WithoutAt(players, i) else players
  }

  /** When this player leaves, 2 to 255 players remain, all ready. */
  predicate Releases(players: seq<Player>, name: Name) {
    name in Names(players) && 3 <= |players| <= 0x100 && OthersReady(players, name)
  }

  /** When a departure takes a server down: the server is idle, the departure starts a game, and the names of the
      players who remain are too long for a datagram. */
  lemma DisconnectDownIff(s: Sys, name: Name, pending: seq<Name>, now: int, start: Pixels)
    requires Good(s, [name] + pending) && !s.down
    ensures var players := s.game.players;
      Disconnect(s, name, now, start).down <==>
        !s.game.running && Releases(players, name) && Overlong(Names(Without(players, name)))
  {
    var g := s.game;
    DepartureDelivered(s, name, pending, now, start);
    HasIff(g.players, name);
    if g.running {
      RemovePlayerKeeps(g, s.log, name, start);
    } else {
      DepartureStartsIff(g, s.log, name, start);
      if Has(g.players, name) {
        DepartureFits(g, name, start);
      }
    }
  }

  lemma DepartureFits(g: Game, name: Name, start: Pixels)
    requires GameInv(g, []) && !g.running && Has(g.players, name)
    ensures name != []
    ensures var m := RemovePlayer(g, name, start);
      AllFit(m.events) <==> !(m.game.running && Overlong(Names(Without(g.players, name))))
  {
    var i := Lower(g.players, name);
    assert g.players[i] in g.players && NameOk(name);
    RemovedPlayers(g, i);
    hide PlayersOk, NameOk;
    StartDownIff(Removed(g, i), start);
  }

  lemma DepartureDelivered(s: Sys, name: Name, pending: seq<Name>, now: int, start: Pixels)
    requires Good(s, [name] + pending) && !s.down
    ensures var m := RemovePlayer(s.game, name, start);
      name != [] ==> (Disconnect(s, name, now, start).down <==> !AllFit(m.events))
  {
    if name != [] {
      var m := RemovePlayer(s.game, name, start);
      RemovePlayerKeeps(s.game, s.log, name, start);
      CoupledWithout(s.conns, name, pending, s.game.players, m.game.players);
      LeavesQuietly(s.game, s.log, name, start);
      hide GameInv, RemovePlayer, BoxOk, Unique, Drawn;
      DeliverGood(s, m.game, m.events, now, pending);
    }
  }

  // ---- Departures one after the other ----

  /** The players whom these names leave behind. */
  function Remaining(players: seq<Player>, names: seq<Name>): seq<Player>
    decreases |names|
  {
    if names == [] then players else Remaining(Without(players, names[0]), names[1..])
  }

  /** One of these departures starts a game. */
  predicate StartingSweep(players: seq<Player>, names: seq<Name>)
    decreases |names|
  {
    names != [] && (Releases(players, names[0]) || StartingSweep(Without(players, names[0]), names[1..]))
  }

  /** The first of these departures that starts a game leaves players whose names are too long for a datagram. */
  ghost predicate FatalSweep(players: seq<Player>, names: seq<Name>)
    decreases |names|
  {
    names != [] &&
    var left := Without(players, names[0]);
    if Releases(players, names[0]) then Overlong(Names(left)) else FatalSweep(left, names[1..])
  }

  /** What a departure leaves: a game goes on or starts, or the player is just gone. */
  lemma DisconnectStartsIff(s: Sys, name: Name, pending: seq<Name>, now: int, start: Pixels)
    requires Good(s, [name] + pending) && !s.down
    ensures var r := Disconnect(s, name, now, start);
      && (r.game.running <==> s.game.running || Releases(s.game.players, name))
      && (!r.game.running ==> r.game.players == Without(s.game.players, name) && r.posted == s.posted)
  {
    var g := s.game;
    assert forall p | p in g.players :: NameOk(p.name);
    if name == [] {
      HasIff(g.players, name);
    } else {
      var m := RemovePlayer(g, name, start);
      RemovePlayerKeeps(g, s.log, name, start);
      if g.running {
        DeliverRunning(s.(game := m.game), m.events, now);
      } else {
        DepartureStartsIff(g, s.log, name, start);
        if m.game.running {
          DeliverRunning(s.(game := m.game), m.events, now);
        } else {
          IdleDeparture(g, name, start);
        }
      }
    }
  }

  lemma IdleDeparture(g: Game, name: Name, start: Pixels)
    requires GameInv(g, []) && !g.running && !RemovePlayer(g, name, start).game.running
    ensures var m := RemovePlayer(g, name, start); m.events == [] && m.game.players == Without(g.players, name)
  {
    if Has(g.players, name) {
      RemovedPlayers(g, Lower(g.players, name));
      StartsIff(Removed(g, Lower(g.players, name)), start);
    }
  }

  lemma {:induction false} DeliverRunning(s: Sys, events: seq<Event>, now: int)
    requires s.game.running
    ensures Deliver(s, events, now).game.running
    decreases |events|
  {
    if events != [] {
      ForgetRunning(s.game, Gone(s.conns, now));
      DeliverRunning(OnEvent(s, events[0], now), events[1..], now);
    }
  }

  lemma {:induction false} ForgetRunning(g: Game, names: seq<Name>)
    requires g.running
    ensures ForgetAll(g, names).running
    decreases |names|
  {
    if names != [] {
      ForgetRunning(Forget(g, names[0]), names[1..]);
    }
  }

  lemma {:induction false} DownStays(s: Sys, names: seq<Name>, now: int, start: Pixels)
    requires s.down
    ensures DisconnectAll(s, names, now, start) == s
    decreases |names|
  {
    if names != [] {
      DownStays(s, names[1..], now, start);
    }
  }

  /** What many departures leave. */
  lemma {:induction false} SweepDownIff(s: Sys, names: seq<Name>, now: int, start: Pixels)
    requires Good(s, names) && !s.down
    ensures var r, players := DisconnectAll(s, names, now, start), s.game.players;
      && (r.down <==> !s.game.running && FatalSweep(players, names))
      && (r.game.running <==> s.game.running || StartingSweep(players, names))
      && (!r.game.running ==> r.game.players == Remaining(players, names) && r.posted == s.posted)
    decreases |names|
  {
    if names != [] {
      var t := Disconnect(s, names[0], now, start);
      assert names == [names[0]] + names[1..];
      DisconnectKeeps(s, names[0], names[1..], now, start);
      DisconnectDownIff(s, names[0], names[1..], now, start);
      DisconnectStartsIff(s, names[0], names[1..], now, start);
      hide Good, Disconnect, Releases, Without, Overlong;
      if t.down {
        DownStays(t, names[1..], now, start);
      } else {
        SweepDownIff(t, names[1..], now, start);
      }
    }
  }

  // ---- Whole turns ----

  /** The server when the sweep and the lookup of a message are over and reported. */
  function Cleared(s: Sys, r: Request, from: Address, now: int, start: Pixels): Sys {
    var l := LookUp(s.conns, from, r.session, now);
    DisconnectAll(s.(conns := l.conns), l.gone, now, start)
  }

  /** The players among whom the sender of the message then acts, if it gets to act. */
  function Company(g: Game, answer: Answer, r: Request): seq<Player> {
    match answer
    case NewerSession => []
    case Found(player) => if player == r.name then g.players else []
    case NotFound =>
      var joined := AddPlayer(g, r.name);
      if r.name != [] && joined.Joined? then joined.game.players else []
  }

  lemma AnsweredDownIff(u: Sys, player: Name, r: Request, from: Address, now: int, start: Pixels)
    requires Good(u, []) && !u.down
    ensures Answered(u, player, r, from, now, start).down <==>
      !u.game.running && player == r.name && Fatal(u.game.players, r.name, r.turn)
  {
    NoEmptyName(u);
    if player == r.name {
      if player == [] {
        ReplyKeeps(u, from, r.next, now);
      } else {
        ActionDelivered(u, player, r.turn, now, start);
        ActionDownIff(u, player, r.turn, now, start);
        var m := PlayerAction(u.game, player, r.turn, start);
        var t := Deliver(u.(game := m.game), m.events, now);
        hide Good, Fatal, Reply, PlayerAction, Stays;
        if !t.down {
          ReplyKeeps(t, from, r.next, now);
        }
      }
    }
  }

  lemma NoEmptyName(u: Sys)
    requires Good(u, []) && !u.down
    ensures [] !in Names(u.game.players)
  {
    assert forall p | p in u.game.players :: NameOk(p.name);
  }

  /** A message takes a server down during its sweep or afterwards. */
  lemma ClearedDownIff(s: Sys, r: Request, from: Address, now: int, start: Pixels)
    requires Good(s, []) && !s.down && RequestOk(r)
    ensures var u := Cleared(s, r, from, now, start);
      var players := Company(u.game, LookUp(s.conns, from, r.session, now).answer, r);
      Turned(s, Receive(r, from, now, start)).down <==>
        u.down || (!u.game.running && Fatal(players, r.name, r.turn))
  {
    var l := LookUp(s.conns, from, r.session, now);
    LookedUp(s, r, from, now, start);
    var u := Cleared(s, r, from, now, start);
    assert Turned(s, Receive(r, from, now, start)) ==
      if u.down then u else OnAnswer(u, l.answer, r, from, now, start, false);
    hide Good, LookUp, AllActive, OnAnswer, Fatal;
    if !u.down {
      AnswerDownIff(u, l.answer, r, from, now, start);
    }
  }

  /** When a message takes an idle server down: a departure that its sweep reports does so; or none starts a game, the
      sender gets to act among the players who remain, and the game that this starts is fatal. */
  ghost predicate FatalMessage(s: Sys, r: Request, from: Address, now: int) {
    var l, players := LookUp(s.conns, from, r.session, now), s.game.players;
    || FatalSweep(players, l.gone)
    || (!StartingSweep(players, l.gone)
        && Fatal(Company(s.game.(players := Remaining(players, l.gone)), l.answer, r), r.name, r.turn))
  }

  lemma ReceiveDownIff(s: Sys, r: Request, from: Address, now: int, start: Pixels)
    requires Good(s, []) && !s.down && RequestOk(r)
    ensures Turned(s, Receive(r, from, now, start)).down <==> !s.game.running && FatalMessage(s, r, from, now)
  {
    var l := LookUp(s.conns, from, r.session, now);
    ClearedDownIff(s, r, from, now, start);
    LookupGood(s, from, r.session, now);
    SweepDownIff(s.(conns := l.conns), l.gone, now, start);
    hide Good, LookUp, FatalSweep, StartingSweep, Remaining, Turned, Fatal, DisconnectAll, RequestOk;
    var u := Cleared(s, r, from, now, start);
    if !u.game.running {
      SameCompany(u.game, s.game.(players := u.game.players), l.answer, r);
    }
  }

  lemma SameCompany(g: Game, h: Game, answer: Answer, r: Request)
    requires g.players == h.players
    ensures Company(g, answer, r) == Company(h, answer, r)
  {
  }

  /** When a timeout of the poll takes an idle server down: the first of the departures that starts a game is fatal. */
  lemma TimeoutDownIff(s: Sys, now: int, start: Pixels)
    requires Good(s, []) && !s.down
    ensures Turned(s, Timeout(now, start)).down <==>
      !s.game.running && FatalSweep(s.game.players, Gone(s.conns, now))
  {
    SweepGood(s, now);
    hide Good, FatalSweep, StartingSweep, Remaining;
    SweepDownIff(s.(conns := Kept(s.conns, now)), Gone(s.conns, now), now, start);
  }

  /** Before any turn it can be told whether the turn takes the server down. */
  ghost predicate Fells(s: Sys, t: Turn) {
    !s.game.running &&
    match t
    case Receive(r, from, now, _) => FatalMessage(s, r, from, now)
    case Timeout(now, _) => FatalSweep(s.game.players, Gone(s.conns, now))
    case Frame(_, _) => false
    case Flush(_) => false
  }

  lemma TurnDownIff(s: Sys, t: Turn)
    requires Good(s, []) && !s.down && TurnOk(t)
    ensures Turned(s, t).down <==> Fells(s, t)
  {
    if s.game.running {
      PlayingStaysUp(s, t);
    } else {
      match t
      case Receive(r, from, now, start) => ReceiveDownIff(s, r, from, now, start);
      case Timeout(now, start) => TimeoutDownIff(s, now, start);
      case Frame(_, _) =>
      case Flush(_) =>
    }
  }

  lemma AnswerDownIff(u: Sys, answer: Answer, r: Request, from: Address, now: int, start: Pixels)
    requires Good(u, []) && !u.down && RequestOk(r) && AllActive(u.conns, now)
    requires answer.NotFound? ==> forall c | c in u.conns :: c.address != from
    ensures OnAnswer(u, answer, r, from, now, start, false).down <==>
      !u.game.running && Fatal(Company(u.game, answer, r), r.name, r.turn)
  {
    NobodyIsFine(r);
    match answer
    case NewerSession =>
    case Found(player) => AnsweredDownIff(u, player, r, from, now, start);
    case NotFound =>
      ConnectKeeps(u, r, from, now, start);
      NewCompany(u, r, from, now, start);
      hide Good, Fatal, OnConnect, Answered, AllActive;
      if OnConnect(u, r, from, now, start).Some? {
        var v := OnConnect(u, r, from, now, start).value;
        Connected(v, u.conns, r, from, now, start);
        AnsweredDownIff(v, r.name, r, from, now, start);
      }
  }

  lemma NobodyIsFine(r: Request)
    ensures !Fatal([], r.name, r.turn)
  {
  }

  lemma NewCompany(u: Sys, r: Request, from: Address, now: int, start: Pixels)
    requires Good(u, []) && !u.down && RequestOk(r) && AllActive(u.conns, now)
    ensures match OnConnect(u, r, from, now, start)
      case None => Company(u.game, NotFound, r) == []
      case Some(v) =>
        && v.game.running == u.game.running
        && (Fatal(v.game.players, r.name, r.turn) <==> Fatal(Company(u.game, NotFound, r), r.name, r.turn))
  {
    KeptAll(u.conns, now);
    NoEmptyName(u);
    NobodyIsFine(r);
  }

  /** Nothing takes a server down while it plays. */
  lemma PlayingStaysUp(s: Sys, t: Turn)
    requires Good(s, []) && !s.down && s.game.running && TurnOk(t)
    ensures !Turned(s, t).down
  {
    match t
    case Receive(r, from, now, start) => ReceiveDownIff(s, r, from, now, start);
    case Timeout(now, start) => TimeoutDownIff(s, now, start);
    case Frame(now, next) =>
      if Ends(s.game) { OverKeeps(s, now, next); } else { FrameLogs(s, now, next); }
    case Flush(blocks) =>
  }

  // ---- The last turn of a server that goes down ----

  /** It is NEW_GAME, the first event, that does not fit. */
  lemma UnfitFirst(g: Game, start: Pixels)
    requires Idle(g) && !AllFit(Start(g, start).events)
    ensures Start(g, start).events != [] && !Start(g, start).events[0].Fits()
  {
    var events := Start(g, start).events;
    if Start(g, start).game.running {
      var n := StartSeats(g, start);
      hide PlayersOk, Seated, Balanced, Fates, OnBoard;
      forall i | 0 < i < |events| ensures events[i].Fits() {
        assert events[i] == events[1..][i - 1];
      }
    }
  }

  lemma UnfitPosts(s: Sys, events: seq<Event>, now: int)
    requires !s.down && events != [] && !events[0].Fits()
    ensures Deliver(s, events, now).posted == s.posted
  {
    DeadStays(OnEvent(s, events[0], now), events[1..], now);
  }

  lemma ActionDownPosts(s: Sys, name: Name, dir: Direction, now: int, start: Pixels)
    requires Good(s, []) && !s.down
    ensures var m := PlayerAction(s.game, name, dir, start);
      var r := Deliver(s.(game := m.game), m.events, now);
      (r.down ==> r.posted == s.posted) && (!r.game.running ==> r.posted == s.posted)
  {
    var g, m := s.game, PlayerAction(s.game, name, dir, start);
    var r := Deliver(s.(game := m.game), m.events, now);
    ActionDelivered(s, name, dir, now, start);
    if m.game.running {
      DeliverRunning(s.(game := m.game), m.events, now);
    }
    if r.down {
      ActionUnfit(g, s.log, name, dir, start);
      UnfitPosts(s.(game := m.game), m.events, now);
    }
  }

  lemma ActionUnfit(g: Game, log: seq<Event>, name: Name, dir: Direction, start: Pixels)
    requires GameInv(g, log) && !AllFit(PlayerAction(g, name, dir, start).events)
    ensures var m := PlayerAction(g, name, dir, start); m.events != [] && !m.events[0].Fits()
  {
    if Has(g.players, name) && !g.running && !g.players[Lower(g.players, name)].ready && dir != Straight {
      var i := Lower(g.players, name);
      ReadyOne(g, i);
      hide PlayersOk;
      UnfitFirst(Readied(g, i), start);
    }
  }

  lemma DepartureUnfit(g: Game, log: seq<Event>, name: Name, start: Pixels)
    requires GameInv(g, log) && !AllFit(RemovePlayer(g, name, start).events)
    ensures var m := RemovePlayer(g, name, start); m.events != [] && !m.events[0].Fits()
  {
    if Has(g.players, name) && !g.running {
      var i := Lower(g.players, name);
      RemovedPlayers(g, i);
      hide PlayersOk;
      UnfitFirst(Removed(g, i), start);
    }
  }

  lemma DisconnectDownPosts(s: Sys, name: Name, pending: seq<Name>, now: int, start: Pixels)
    requires Good(s, [name] + pending) && !s.down && Disconnect(s, name, now, start).down
    ensures Disconnect(s, name, now, start).posted == s.posted
  {
    var m := RemovePlayer(s.game, name, start);
    DepartureDelivered(s, name, pending, now, start);
    DepartureUnfit(s.game, s.log, name, start);
    UnfitPosts(s.(game := m.game), m.events, now);
  }

  lemma {:induction false} SweepDownPosts(s: Sys, names: seq<Name>, now: int, start: Pixels)
    requires Good(s, names) && !s.down && DisconnectAll(s, names, now, start).down
    ensures DisconnectAll(s, names, now, start).posted == s.posted
    decreases |names|
  {
    if names != [] {
      var t := Disconnect(s, names[0], now, start);
      assert names == [names[0]] + names[1..];
      SweepDownIff(s, names, now, start);
      DisconnectKeeps(s, names[0], names[1..], now, start);
      DisconnectStartsIff(s, names[0], names[1..], now, start);
      hide Good, Disconnect, Releases, Without, Overlong, FatalSweep, StartingSweep;
      if t.down {
        DisconnectDownPosts(s, names[0], names[1..], now, start);
        DownStays(t, names[1..], now, start);
      } else {
        SweepDownIff(t, names[1..], now, start);
        SweepDownPosts(t, names[1..], now, start);
      }
    }
  }

  lemma AnsweredDownPosts(u: Sys, player: Name, r: Request, from: Address, now: int, start: Pixels)
    requires Good(u, []) && !u.down && Answered(u, player, r, from, now, start).down
    ensures Answered(u, player, r, from, now, start).posted == u.posted
  {
    if player == [] {
      ReplyKeeps(u, from, r.next, now);
    } else {
      ActionDelivered(u, player, r.turn, now, start);
      ActionDownPosts(u, player, r.turn, now, start);
      var m := PlayerAction(u.game, player, r.turn, start);
      var t := Deliver(u.(game := m.game), m.events, now);
      hide Good, Reply, PlayerAction, Stays;
      if !t.down {
        ReplyKeeps(t, from, r.next, now);
      }
    }
  }

  lemma AnswerDownPosts(u: Sys, answer: Answer, r: Request, from: Address, now: int, start: Pixels)
    requires Good(u, []) && !u.down && RequestOk(r) && AllActive(u.conns, now)
    requires answer.NotFound? ==> forall c | c in u.conns :: c.address != from
    requires OnAnswer(u, answer, r, from, now, start, false).down
    ensures OnAnswer(u, answer, r, from, now, start, false).posted == u.posted
  {
    match answer
    case NewerSession =>
    case Found(player) => AnsweredDownPosts(u, player, r, from, now, start);
    case NotFound =>
      ConnectKeeps(u, r, from, now, start);
      ConnectPosts(u, r, from, now, start);
      hide Good, OnConnect, Answered, AllActive;
      if OnConnect(u, r, from, now, start).Some? {
        var v := OnConnect(u, r, from, now, start).value;
        Connected(v, u.conns, r, from, now, start);
        AnsweredDownPosts(v, r.name, r, from, now, start);
      }
  }

  lemma ConnectPosts(u: Sys, r: Request, from: Address, now: int, start: Pixels)
    requires AllActive(u.conns, now) && !u.down
    ensures match OnConnect(u, r, from, now, start)
      case None => true
      case Some(v) => v.posted == u.posted && v.game.running == u.game.running && v.log == u.log
  {
    KeptAll(u.conns, now);
  }

  /** A turn that takes the server down posts nothing: the NEW_GAME that fits no datagram comes first. */
  lemma TurnDownPosts(s: Sys, t: Turn)
    requires Good(s, []) && !s.down && TurnOk(t) && Turned(s, t).down
    ensures Turned(s, t).posted == s.posted && !s.game.running
  {
    TurnDownIff(s, t);
    match t
    case Receive(r, from, now, start) =>
      var l := LookUp(s.conns, from, r.session, now);
      var c, u := s.(conns := l.conns), Cleared(s, r, from, now, start);
      LookupGood(s, from, r.session, now);
      LookedUp(s, r, from, now, start);
      assert Turned(s, t) == if u.down then u else OnAnswer(u, l.answer, r, from, now, start, false);
      hide Good, LookUp, AllActive, OnAnswer, Turned, Fells, RequestOk;
      SweepDownIff(c, l.gone, now, start);
      if u.down {
        SweepDownPosts(c, l.gone, now, start);
      } else {
        AnswerDownIff(u, l.answer, r, from, now, start);
        AnswerDownPosts(u, l.answer, r, from, now, start);
      }
    case Timeout(now, start) =>
      SweepGood(s, now);
      hide Good;
      SweepDownPosts(s.(conns := Kept(s.conns, now)), Gone(s.conns, now), now, start);
    case Frame(_, _) =>
    case Flush(_) =>
  }
}
