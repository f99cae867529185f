/** What every step of the server keeps. */
module ServiceProofs {
  import opened Wire
  import opened Records
  import opened Parsing
  import opened Packing
  import opened Generator
  import opened Arenas
  import opened GameRules
  import opened GameProofs
  import opened GameRuns
  import opened Registry
  import opened Outbox
  import opened Service

  // ---- The invariant ----

  /** The players of the game are the names of the connections that are left and of those yet to be reported as
      disconnected, each held once; observers have the empty name. */
  ghost predicate Coupled(conns: seq<Conn>, pending: seq<Name>, players: seq<Player>) {
    forall n: Name | n != [] :: Holders(conns, n) + Count(pending, n) == if n in Names(players) then 1 else 0
  }

  function FanOut(crc: Checksum, posted: seq<Letter>): seq<Pair> {
    if posted == [] then [] else
    var l := posted[|posted| - 1];
    FanOut(crc, posted[..|posted| - 1]) + Fan(Datagram(crc, l.id, l.events), l.to)
  }

  /** Every pair that was posted was sent or is pending, in order; and the server waits to write what is pending. */
  ghost predicate BoxOk(s: Sys) {
    FanOut(s.crc, s.posted) == s.sent + Pending(s.box) && Awake(s.box)
  }

  /** The server is down exactly when an event was logged that fits no datagram. */
  ghost predicate Good(s: Sys, pending: seq<Name>) {
    && BoxOk(s) && Unique(s.conns)
    && (s.down <==> !AllFit(s.log))
    && (!s.down ==> GameInv(s.game, s.log) && Drawn(s.game) && Coupled(s.conns, pending, s.game.players))
  }

  /** The letters posted since are of this game and carry nothing but these events. */
  ghost predicate News(before: seq<Letter>, after: seq<Letter>, id: U32, events: seq<Event>) {
    && before <= after
    && forall i | |before| <= i < |after| :: Carries(after[i], id, events)
  }

  ghost predicate Carries(l: Letter, id: U32, events: seq<Event>) {
    && l.id == id && l.events != [] && TotalLen(l.events) <= MAX_MESSAGE_DATA_LEN
    && forall e | e in l.events :: e in events
  }

  lemma NewsTogether(
      a: seq<Letter>, b: seq<Letter>, c: seq<Letter>, id: U32, es: seq<Event>, fs: seq<Event>, all: seq<Event>)
    requires News(a, b, id, es) && News(b, c, id, fs)
    requires (forall e | e in es :: e in all) && forall e | e in fs :: e in all
    ensures News(a, c, id, all)
  {
    forall i | |a| <= i < |c| ensures Carries(c[i], id, all) {
      if i < |b| {
        assert c[i] == b[i];
      }
    }
  }

  lemma PostKeeps(s: Sys, l: Letter)
    requires BoxOk(s) && l.events != [] && TotalLen(l.events) <= MAX_MESSAGE_DATA_LEN
    ensures BoxOk(Post(s, l)) && News(s.posted, Post(s, l).posted, l.id, l.events)
  {
    PostBox(s, l);
    hide BoxOk;
    assert Carries(l, l.id, l.events);
  }

  lemma PostBox(s: Sys, l: Letter)
    requires BoxOk(s)
    ensures BoxOk(Post(s, l))
  {
    var r, m := Post(s, l), Outbox.Message(Datagram(s.crc, l.id, l.events), l.to);
    assert r.posted[..|s.posted|] == s.posted;
    assert FanOut(s.crc, r.posted) == FanOut(s.crc, s.posted) + Fan(m.bytes, m.addresses);
    hide Fan, Pending, Datagram, Awake, FanOut, Add;
    AddPending(s.box, m);
    Associate(s.sent, Pending(s.box), Fan(m.bytes, m.addresses));
  }

  // ---- Forgetting players ----

  lemma CountIff(names: seq<Name>, n: Name)
    ensures Count(names, n) > 0 <==> n in names
    decreases |names|
  {
    if names != [] {
      CountIff(names[..|names| - 1], n);
      assert names == names[..|names| - 1] + [names[|names| - 1]];
    }
  }

  /** The players are those of g without the names, and nothing but the players changed. */
  ghost predicate Forgot(g: Game, names: seq<Name>, r: Game) {
    && PlayersOk(r) && r == g.(players := r.players, readyCount := r.readyCount)
    && (forall p | p in r.players :: p in g.players)
    && forall n | n != [] :: n in Names(r.players) <==> n in Names(g.players) && n !in names
  }

  lemma ForgetOne(g: Game, name: Name)
    requires PlayersOk(g) && g.running
    ensures Forgot(g, [name], Forget(g, name))
  {
    if name != [] {
      HasIff(g.players, name);
      if Has(g.players, name) {
        RemovedPlayers(g, Lower(g.players, name));
      }
    }
  }

  lemma {:induction false} ForgetAllKeeps(g: Game, names: seq<Name>)
    requires PlayersOk(g) && g.running
    ensures Forgot(g, names, ForgetAll(g, names))
    decreases |names|
  {
    if names != [] {
      hide PlayersOk, Forget;
      ForgetOne(g, names[0]);
      ForgetAllKeeps(Forget(g, names[0]), names[1..]);
    }
  }

  /** Some players left; nothing else changed. */
  ghost predicate Trimmed(g: Game, r: Game) {
    && PlayersOk(r) && r == g.(players := r.players, readyCount := r.readyCount)
    && (forall p | p in r.players :: p in g.players)
  }

  lemma TrimmedKeeps(g: Game, log: seq<Event>, r: Game)
    requires GameInv(g, log) && g.running && Trimmed(g, r) && Drawn(g)
    ensures GameInv(r, log) && Drawn(r)
  {
    hide ArenaInv, PlayersOk, NameOk, Advance;
  }

  /** Sweeping keeps players and connections coupled. */
  lemma SweepCoupled(conns: seq<Conn>, pending: seq<Name>, g: Game, r: Game, now: int)
    requires Coupled(conns, pending, g.players) && Forgot(g, Gone(conns, now), r)
    ensures Coupled(Kept(conns, now), pending, r.players)
  {
    forall n: Name | n != []
      ensures Holders(Kept(conns, now), n) + Count(pending, n) == if n in Names(r.players) then 1 else 0
    {
      SweepNames(conns, now, n);
      CountIff(Gone(conns, now), n);
    }
  }

  // ---- Delivering events ----

  lemma OnEventKeeps(s: Sys, e: Event, now: int, pending: seq<Name>)
    requires !s.down && s.game.running && PlayersOk(s.game) && BoxOk(s) && Unique(s.conns) && AllFit(s.log)
    requires Coupled(s.conns, pending, s.game.players)
    ensures var r := OnEvent(s, e, now);
      && BoxOk(r) && r.log == Logged(s.log, e) && (r.down <==> !e.Fits()) && (r.down <==> !AllFit(r.log))
      && Moves(s, r, pending, now)
      && (!r.down ==> News(s.posted, r.posted, s.game.gameId, [e]))
  {
    var r := OnEvent(s, e, now);
    assert r.down <==> !AllFit(r.log) by {
      LoggedFits(s.log, e);
    }
    if e.Fits() {
      ForgetAllKeeps(s.game, Gone(s.conns, now));
      SweepCoupled(s.conns, pending, s.game, r.game, now);
      KeptUnique(s.conns, now);
      if AllActive(s.conns, now) { KeptAll(s.conns, now); }
      hide Coupled, PlayersOk, Unique, AllActive;
      TotalOne(e);
      PostKeeps(s.(log := r.log, conns := r.conns, game := r.game), Letter(s.game.gameId, [e], Addresses(r.conns)));
    }
  }

  lemma TotalOne(e: Event)
    ensures TotalLen([e]) == e.Len()
  {
    assert [e][1..] == [];
  }

  lemma LoggedFits(log: seq<Event>, e: Event)
    requires AllFit(log)
    ensures AllFit(Logged(log, e)) <==> e.Fits()
  {
    if !e.Fits() {
      assert e in log + [e];
    }
  }

  /** What delivering events to the server leaves of the rest of it. */
  ghost predicate Moves(s: Sys, r: Sys, pending: seq<Name>, now: int) {
    && r.crc == s.crc && Unique(r.conns)
    && (!r.down ==>
          && Trimmed(s.game, r.game) && Coupled(r.conns, pending, r.game.players)
          && (AllActive(s.conns, now) ==> r.conns == s.conns))
  }

  /** Every event of a game is logged and sent to all clients in one letter; the sweeps on the way only remove players
      together with their connections. */
  lemma {:induction false} DeliverKeeps(s: Sys, events: seq<Event>, now: int, pending: seq<Name>)
    requires !s.down && s.game.running && PlayersOk(s.game) && BoxOk(s) && Unique(s.conns) && AllFit(s.log)
    requires Coupled(s.conns, pending, s.game.players)
    ensures var r := Deliver(s, events, now);
      && BoxOk(r) && (r.down <==> !AllFit(events)) && (r.down <==> !AllFit(r.log))
      && Moves(s, r, pending, now)
      && (!r.down ==> r.log == LoggedAll(s.log, events) && News(s.posted, r.posted, s.game.gameId, events))
    decreases |events|
  {
    if events == [] {
      assert Trimmed(s.game, s.game);
    } else {
      var e, rest := events[0], events[1..];
      assert events == [e] + rest;
      OnEventKeeps(s, e, now, pending);
      var t := OnEvent(s, e, now);
      hide OnEvent, PlayersOk, BoxOk, Coupled, Unique, AllActive, News;
      if t.down {
        DeadStays(t, rest, now);
      } else {
        assert Trimmed(s.game, t.game);
        DeliverKeeps(t, rest, now, pending);
        var r := Deliver(t, rest, now);
        if !r.down {
          NewsTogether(s.posted, t.posted, r.posted, s.game.gameId, [e], rest, events);
        }
      }
    }
  }

  lemma {:induction false} DeadStays(s: Sys, events: seq<Event>, now: int)
    requires s.down
    ensures Deliver(s, events, now) == s
    decreases |events|
  {
    if events != [] {
      DeadStays(s, events[1..], now);
    }
  }

  // ---- Steps ----

  /** The same game goes on, its log only grows, and all that was posted comes from it. */
  ghost predicate Goes(s: Sys, r: Sys) {
    && r.crc == s.crc
    && (!r.down ==>
          && !s.down && r.game.gameId == s.game.gameId && s.log <= r.log
          && News(s.posted, r.posted, s.game.gameId, r.log))
  }

  ghost predicate Stays(s: Sys, r: Sys, now: int) {
    Goes(s, r) && (!r.down && AllActive(s.conns, now) ==> r.conns == s.conns)
  }

  lemma GoesTogether(s: Sys, t: Sys, r: Sys)
    requires Goes(s, t) && Goes(t, r)
    ensures Goes(s, r)
  {
    if !r.down {
      assert forall e | e in t.log :: e in r.log;
      NewsTogether(s.posted, t.posted, r.posted, s.game.gameId, t.log, r.log, r.log);
    }
  }

  lemma StaysTogether(s: Sys, t: Sys, r: Sys, now: int)
    requires Stays(s, t, now) && Stays(t, r, now)
    ensures Stays(s, r, now)
  {
    GoesTogether(s, t, r);
  }

  /** The game has moved to g and hands its events over. */
  lemma DeliverGood(s: Sys, g: Game, events: seq<Event>, now: int, pending: seq<Name>)
    requires !s.down && BoxOk(s) && Unique(s.conns) && AllFit(s.log) && NoGameOver(events)
    requires GameInv(g, LoggedAll(s.log, events)) && (g.running || events == [])
    requires Drawn(g) && g.gameId == s.game.gameId
    requires Coupled(s.conns, pending, g.players)
    ensures var r := Deliver(s.(game := g), events, now);
      Good(r, pending) && Stays(s, r, now) && (r.down <==> !AllFit(events))
  {
    LoggedAppends(s.log, events);
    var t := s.(game := g);
    var r := Deliver(t, events, now);
    hide ArenaInv, Seated, HeaderOk, Coupled, Unique, AllActive, Drawn;
    if events != [] {
      DeliverKeeps(t, events, now, pending);
      if !r.down {
        TrimmedKeeps(g, r.log, r.game);
        NewsTogether(s.posted, s.posted, r.posted, g.gameId, [], events, r.log);
      }
    }
  }

  lemma CountCons(n: Name, names: seq<Name>, name: Name)
    ensures Count([n] + names, name) == Count(names, name) + if n == name then 1 else 0
    decreases |names|
  {
    if names == [] {
      assert [n] + names == [n] && [n][..0] == [];
    } else {
      assert ([n] + names)[..|names|] == [n] + names[..|names| - 1];
      CountCons(n, names[..|names| - 1], name);
    }
  }

  /** Reporting a disconnection takes the name from the pending ones and from the players. */
  lemma CoupledWithout(conns: seq<Conn>, name: Name, pending: seq<Name>, players: seq<Player>, left: seq<Player>)
    requires Coupled(conns, [name] + pending, players)
    requires forall n | n != [] :: n in Names(left) <==> n in Names(players) && n != name
    ensures Coupled(conns, pending, left)
  {
    forall n: Name | n != []
      ensures Holders(conns, n) + Count(pending, n) == if n in Names(left) then 1 else 0
    {
      CountCons(name, pending, n);
    }
  }

  lemma DisconnectKeeps(s: Sys, name: Name, pending: seq<Name>, now: int, start: Pixels)
    requires Good(s, [name] + pending)
    ensures var r := Disconnect(s, name, now, start); Good(r, pending) && (r == s || Stays(s, r, now))
  {
    hide Deliver, Unique, Coupled, BoxOk, Advance;
    if s.down {
    } else if name == [] {
      CoupledWithout(s.conns, name, pending, s.game.players, s.game.players);
    } else {
      var m := RemovePlayer(s.game, name, start);
      RemovePlayerKeeps(s.game, s.log, name, start);
      CoupledWithout(s.conns, name, pending, s.game.players, m.game.players);
      LeavesQuietly(s.game, s.log, name, start);
      hide GameInv, RemovePlayer, Drawn;
      DeliverGood(s, m.game, m.events, now, pending);
    }
  }

  lemma LeavesQuietly(g: Game, log: seq<Event>, name: Name, start: Pixels)
    requires GameInv(g, log)
    ensures var r := RemovePlayer(g, name, start);
      NoGameOver(r.events) && r.game.gameId == g.gameId && (Drawn(g) ==> Drawn(r.game))
  {
    hide Advance;
    if Has(g.players, name) && !g.running {
      LeaveStarts(g, name, start);
    }
  }

  lemma {:induction false} DisconnectAllKeeps(s: Sys, names: seq<Name>, now: int, start: Pixels)
    requires Good(s, names)
    ensures var r := DisconnectAll(s, names, now, start); Good(r, []) && (r == s || Stays(s, r, now))
    decreases |names|
  {
    hide Good, Stays;
    if names != [] {
      assert names == [names[0]] + names[1..];
      DisconnectKeeps(s, names[0], names[1..], now, start);
      var t := Disconnect(s, names[0], now, start);
      DisconnectAllKeeps(t, names[1..], now, start);
      var r := DisconnectAll(s, names, now, start);
      if t != s && r != t {
        StaysTogether(s, t, r, now);
      }
    }
  }

  /** The clients that a sweep leaves, with the names that it reports. */
  lemma SweepGood(s: Sys, now: int)
    requires Good(s, []) && !s.down
    ensures Good(s.(conns := Kept(s.conns, now)), Gone(s.conns, now)) && AllActive(Kept(s.conns, now), now)
  {
    var t := s.(conns := Kept(s.conns, now));
    KeptUnique(s.conns, now);
    KeptIff(s.conns, now);
    forall n: Name | n != []
      ensures Holders(t.conns, n) + Count(Gone(s.conns, now), n) == if n in Names(s.game.players) then 1 else 0
    {
      SweepNames(s.conns, now, n);
      assert Count([], n) == 0;
    }
    hide GameInv, BoxOk, Unique;
  }

  lemma SweepKeeps(s: Sys, now: int, start: Pixels)
    requires Good(s, []) && !s.down
    ensures var r := Sweep(s, now, start); var t := s.(conns := Kept(s.conns, now));
      Good(r, []) && (r == t || Stays(t, r, now)) && AllActive(t.conns, now)
  {
    SweepGood(s, now);
    hide Good;
    DisconnectAllKeeps(s.(conns := Kept(s.conns, now)), Gone(s.conns, now), now, start);
  }

  lemma {:induction false} FlattenHas(parts: seq<seq<Event>>)
    ensures forall p, e | p in parts && e in p :: e in Flatten(parts)
    decreases |parts|
  {
    if parts != [] {
      FlattenHas(parts[1..]);
      assert parts == [parts[0]] + parts[1..];
    }
  }

  lemma {:induction false} PostAllKeeps(s: Sys, to: Address, parts: seq<seq<Event>>, events: seq<Event>)
    requires BoxOk(s)
    requires forall p | p in parts :: p != [] && TotalLen(p) <= MAX_MESSAGE_DATA_LEN && forall e | e in p :: e in events
    ensures var r := PostAll(s, to, parts);
      r == s.(box := r.box, posted := r.posted) && BoxOk(r) && News(s.posted, r.posted, s.game.gameId, events)
    decreases |parts|
  {
    if parts != [] {
      assert parts[0] in parts && forall p | p in parts[1..] :: p in parts;
      var l := Letter(s.game.gameId, parts[0], [to]);
      PostKeeps(s, l);
      var t := Post(s, l);
      hide BoxOk, News;
      PostAllKeeps(t, to, parts[1..], events);
      NewsTogether(s.posted, t.posted, PostAll(t, to, parts[1..]).posted, s.game.gameId, parts[0], events, events);
    }
  }

  lemma ReplyKeeps(s: Sys, to: Address, next: nat, now: int)
    requires Good(s, []) && !s.down
    ensures var r := Reply(s, to, next); Good(r, []) && Stays(s, r, now) && r == s.(box := r.box, posted := r.posted)
  {
    var events := From(s.log, next);
    assert forall e | e in events :: e in s.log;
    if events != [] {
      var parts := Pack([], events);
      PackExact([], events);
      FlattenHas(parts);
      assert [] + events == events;
      assert News(s.posted, s.posted, s.game.gameId, []);
      hide BoxOk, News, GameInv, Coupled, Unique, Drawn;
      PostAllKeeps(s, to, parts, events);
      NewsTogether(s.posted, s.posted, PostAll(s, to, parts).posted, s.game.gameId, [], events, s.log);
    }
  }

  lemma ActsQuietly(g: Game, log: seq<Event>, name: Name, dir: Direction, start: Pixels)
    requires GameInv(g, log)
    ensures var r := PlayerAction(g, name, dir, start);
      NoGameOver(r.events) && r.game.gameId == g.gameId && (Drawn(g) ==> Drawn(r.game))
  {
    hide Advance;
    if Has(g.players, name) && !g.running {
      ActStarts(g, name, dir, start);
    }
  }

  lemma AnsweredKeeps(s: Sys, player: Name, r: Request, from: Address, now: int, start: Pixels)
    requires Good(s, []) && !s.down && AllActive(s.conns, now)
    ensures var q := Answered(s, player, r, from, now, start); Good(q, []) && (q == s || Stays(s, q, now))
  {
    if player == r.name {
      if player == [] {
        ReplyKeeps(s, from, r.next, now);
      } else {
        var m := PlayerAction(s.game, player, r.turn, start);
        PlayerActionKeeps(s.game, s.log, player, r.turn, start);
        ActsQuietly(s.game, s.log, player, r.turn, start);
        hide GameInv, PlayerAction, BoxOk, Unique, Reply, Goes, Drawn;
        DeliverGood(s, m.game, m.events, now, []);
        var t := Deliver(s.(game := m.game), m.events, now);
        if !t.down {
          ReplyKeeps(t, from, r.next, now);
          StaysTogether(s, t, Reply(t, from, r.next), now);
        }
      }
    }
  }

  // ---- Connecting ----

  ghost predicate RequestOk(r: Request) {
    r.name == [] || NameOk(r.name)
  }

  lemma FindLast(conns: seq<Conn>, c: Conn)
    requires forall d | d in conns :: d.address != c.address
    ensures Find(conns + [c], c.address) == |conns|
  {
    assert (conns + [c])[|conns|] == c;
    assert forall j | 0 <= j < |conns| :: (conns + [c])[j] == conns[j] && conns[j] in conns;
  }

  /** The client that was just added is found. */
  lemma FoundAfterAdd(conns: seq<Conn>, c: Conn)
    requires AllActive(conns, c.stamp) && forall d | d in conns :: d.address != c.address
    ensures LookUp(conns + [c], c.address, c.session, c.stamp) == Lookup(conns + [c], [], Found(c.name))
    ensures AllActive(conns + [c], c.stamp)
  {
    KeptAll(conns + [c], c.stamp);
    FindLast(conns, c);
  }

  lemma CoupledWith(conns: seq<Conn>, c: Conn, players: seq<Player>, more: seq<Player>)
    requires Coupled(conns, [], players) && (c.name != [] ==> c.name !in Names(players))
    requires forall n | n != [] :: n in Names(more) <==> n in Names(players) || n == c.name
    ensures Coupled(conns + [c], [], more)
  {
    forall n: Name | n != []
      ensures Holders(conns + [c], n) + Count([], n) == if n in Names(more) then 1 else 0
    {
      HoldersSnoc(conns, c, n);
    }
  }

  /** A new client gets its connection and, unless it observes, its player at the same time, or neither. */
  lemma ConnectKeeps(s: Sys, r: Request, from: Address, now: int, start: Pixels)
    requires Good(s, []) && !s.down && RequestOk(r) && AllActive(s.conns, now)
    requires forall c | c in s.conns :: c.address != from
    ensures match OnConnect(s, r, from, now, start)
      case None => true
      case Some(t) => Good(t, []) && !t.down && t.conns == s.conns + [Conn(from, r.session, r.name, now)] && Goes(s, t)
  {
    var c := Conn(from, r.session, r.name, now);
    KeptAll(s.conns, now);
    var joined := AddPlayer(s.game, r.name);
    if r.name == [] {
      assert OnConnect(s, r, from, now, start) == Some(s.(game := s.game, conns := s.conns + [c]));
      CoupledWith(s.conns, c, s.game.players, s.game.players);
      hide *;
      Admitted(s, c, s.game);
    } else if joined.Joined? {
      var g := joined.game;
      assert OnConnect(s, r, from, now, start) == Some(s.(game := g, conns := s.conns + [c]));
      AddPlayerKeeps(s.game, s.log, r.name);
      HasIff(s.game.players, r.name);
      CoupledWith(s.conns, c, s.game.players, g.players);
      AddPlayerDraws(s.game, r.name);
      hide *;
      Admitted(s, c, g);
    }
  }

  lemma AddPlayerDraws(g: Game, name: Name)
    requires Drawn(g) && AddPlayer(g, name).Joined?
    ensures Drawn(AddPlayer(g, name).game) && AddPlayer(g, name).game.gameId == g.gameId
  {
    hide Advance;
  }

  lemma Admitted(s: Sys, c: Conn, g: Game)
    requires Good(s, []) && !s.down && forall d | d in s.conns :: d.address != c.address
    requires GameInv(g, s.log) && Drawn(g) && g.gameId == s.game.gameId && Coupled(s.conns + [c], [], g.players)
    ensures var t := s.(game := g, conns := s.conns + [c]); Good(t, []) && Goes(s, t)
  {
    UniqueWith(s.conns, c);
    hide GameInv, Drawn, Coupled, BoxOk, Unique;
  }

  lemma UniqueWith(conns: seq<Conn>, c: Conn)
    requires Unique(conns) && forall d | d in conns :: d.address != c.address
    ensures Unique(conns + [c])
  {
  }

  /** The connections after a message are those that looking up the client leaves, or these and the new one. */
  ghost predicate Registered(l: Lookup, c: Conn, conns: seq<Conn>) {
    conns == l.conns || (l.answer.NotFound? && conns == l.conns + [c])
  }

  lemma OnActionKeeps(s: Sys, r: Request, from: Address, now: int, start: Pixels)
    requires Good(s, []) && !s.down && RequestOk(r)
    ensures var q := OnAction(s, r, from, now, start, false);
      && Good(q, []) && Goes(s, q)
      && (!q.down ==> Registered(LookUp(s.conns, from, r.session, now), Conn(from, r.session, r.name, now), q.conns))
  {
    var l := LookUp(s.conns, from, r.session, now);
    var t := s.(conns := l.conns);
    LookupGood(s, from, r.session, now);
    hide Good, LookUp;
    DisconnectAllKeeps(t, l.gone, now, start);
    var u := DisconnectAll(t, l.gone, now, start);
    FirstStep(s, t, u, now);
    if !u.down {
      hide AllActive, DisconnectAll, OnAnswer;
      AnswerKeeps(u, l, r, from, now, start);
      GoesTogether(s, u, OnAnswer(u, l.answer, r, from, now, start, false));
    }
  }

  lemma AnswerKeeps(u: Sys, l: Lookup, r: Request, from: Address, now: int, start: Pixels)
    requires Good(u, []) && !u.down && RequestOk(r)
    requires u.conns == l.conns && AllActive(l.conns, now)
    requires l.answer.NotFound? ==> forall c | c in l.conns :: c.address != from
    ensures var q := OnAnswer(u, l.answer, r, from, now, start, false);
      && Good(q, []) && Goes(u, q)
      && (!q.down ==> Registered(l, Conn(from, r.session, r.name, now), q.conns))
  {
    assert Goes(u, u);
    hide Good, AllActive, OnConnect, Answered;
    if l.answer.Found? {
      AnsweredKeeps(u, l.answer.name, r, from, now, start);
      GoesOn(u, u, Answered(u, l.answer.name, r, from, now, start), now);
    } else if l.answer.NotFound? {
      ConnectKeeps(u, r, from, now, start);
      if OnConnect(u, r, from, now, start).Some? {
        var v := OnConnect(u, r, from, now, start).value;
        Connected(v, u.conns, r, from, now, start);
        AnsweredKeeps(v, r.name, r, from, now, start);
        GoesOn(u, v, Answered(v, r.name, r, from, now, start), now);
      }
    }
  }

  lemma FirstStep(s: Sys, t: Sys, u: Sys, now: int)
    requires !s.down && t == s.(conns := t.conns) && (u == t || Stays(t, u, now)) && AllActive(t.conns, now)
    ensures Goes(s, u) && (!u.down ==> u.conns == t.conns)
  {
  }

  lemma GoesOn(s: Sys, u: Sys, q: Sys, now: int)
    requires Goes(s, u) && (q == u || Stays(u, q, now)) && !u.down && AllActive(u.conns, now)
    ensures Goes(s, q) && (!q.down ==> q.conns == u.conns)
  {
    if q != u {
      GoesTogether(s, u, q);
    }
  }

  /** A client that was just added gets its answer. */
  lemma Connected(v: Sys, conns: seq<Conn>, r: Request, from: Address, now: int, start: Pixels)
    requires !v.down && v.conns == conns + [Conn(from, r.session, r.name, now)]
    requires AllActive(conns, now) && forall c | c in conns :: c.address != from
    ensures AllActive(v.conns, now)
    ensures OnAction(v, r, from, now, start, true) == Answered(v, r.name, r, from, now, start)
  {
    FoundAfterAdd(conns, Conn(from, r.session, r.name, now));
    assert v.(conns := v.conns) == v;
  }

  lemma LookupGood(s: Sys, from: Address, session: nat, now: int)
    requires Good(s, []) && !s.down
    ensures var l := LookUp(s.conns, from, session, now);
      && Good(s.(conns := l.conns), l.gone) && AllActive(l.conns, now)
      && (l.answer.NotFound? ==> forall c | c in l.conns :: c.address != from)
  {
    LookupKeeps(s.conns, from, session, now);
    var l := LookUp(s.conns, from, session, now);
    forall n: Name | n != []
      ensures Holders(l.conns, n) + Count(l.gone, n) == if n in Names(s.game.players) then 1 else 0
    {
      LookupNames(s.conns, from, session, now, n);
      assert Count([], n) == 0;
    }
  }

  /** The server after the sweep and the lookup of a message. */
  lemma LookedUp(s: Sys, r: Request, from: Address, now: int, start: Pixels)
    requires Good(s, []) && !s.down
    ensures var l := LookUp(s.conns, from, r.session, now);
      var u := DisconnectAll(s.(conns := l.conns), l.gone, now, start);
      && Good(u, [])
      && (!u.down ==>
            && AllActive(u.conns, now)
            && (l.answer.NotFound? ==> forall c | c in u.conns :: c.address != from))
  {
    var l := LookUp(s.conns, from, r.session, now);
    var t := s.(conns := l.conns);
    LookupGood(s, from, r.session, now);
    hide Good, LookUp;
    DisconnectAllKeeps(t, l.gone, now, start);
    FirstStep(s, t, DisconnectAll(t, l.gone, now, start), now);
  }

  // ---- Frames and writes ----

  lemma OnFrameKeeps(s: Sys, now: int, next: Pixels)
    requires Good(s, []) && !s.down
    ensures var r := OnFrame(s, now, next);
      && Good(r, [])
      && (s.game.running && !Ends(s.game) ==> Stays(s, r, now))
      && (s.game.running && Ends(s.game) ==>
            && !r.down && r.crc == s.crc && r.log == []
            && r.game.gameId == s.game.rand
            && News(s.posted, r.posted, s.game.gameId, [GameOver(s.game.arena.eventNo)]))
  {
    if s.game.running {
      var m := DoFrame(s.game, next);
      if Ends(s.game) {
        OverKeeps(s, now, next);
      } else {
        FrameStepKeeps(s.game, s.log, next);
        FrameDraws(GameRuns.State(s.game, s.log), next);
        hide GameInv, BoxOk, Unique, Coupled, Drawn;
        DeliverGood(s, m.game, m.events, now, []);
      }
    }
  }

  /** The end of a game: the last event goes out, the log is emptied, and the players stay for the next game. */
  lemma OverKeeps(s: Sys, now: int, next: Pixels)
    requires Good(s, []) && !s.down && s.game.running && Ends(s.game)
    ensures var r := OnFrame(s, now, next);
      && Good(r, []) && !r.down && r.crc == s.crc && r.log == [] && r.game.gameId == s.game.rand
      && News(s.posted, r.posted, s.game.gameId, [GameOver(s.game.arena.eventNo)])
  {
    var e := GameOver(s.game.arena.eventNo);
    var g := DoFrame(s.game, next).game;
    var t := s.(game := g);
    assert PlayersOk(g) && Roomy(g.arena);
    OnEventKeeps(t, e, now, []);
    var u := OnEvent(t, e, now);
    assert [e][1..] == [] && Deliver(t, [e], now) == u by { DeliverOne(t, e, now); }
    FinishKeeps(u.game);
    FinishDraws(u.game);
    SameNames(u.conns, u.game.players, Finish(u.game).players);
    hide OnEvent, PlayersOk, Unique, BoxOk, Finish, Drawn;
  }

  lemma DeliverOne(s: Sys, e: Event, now: int)
    ensures Deliver(s, [e], now) == OnEvent(s, e, now)
  {
    assert [e][1..] == [];
  }

  lemma SameNames(conns: seq<Conn>, a: seq<Player>, b: seq<Player>)
    requires Coupled(conns, [], a) && Names(a) == Names(b)
    ensures Coupled(conns, [], b)
  {
  }

  lemma OnWriteKeeps(s: Sys, blocks: bool)
    requires Good(s, [])
    ensures var r := OnWrite(s, blocks); Good(r, []) && r == s.(box := r.box, sent := r.sent) && s.sent <= r.sent
  {
    WriteConserves(FanOut(s.crc, s.posted), s.sent, s.box, blocks);
    hide GameInv, Unique, Coupled, Write, Drawn;
  }

  lemma WriteConserves(all: seq<Pair>, sent: seq<Pair>, b: Box, blocks: bool)
    requires all == sent + Pending(b) && Awake(b)
    ensures var w := Write(b, blocks); all == sent + Taken(w) + Pending(w.box) && Awake(w.box)
  {
    hide *;
    WriteTakesFirst(b, blocks);
    StaysAwake(b, blocks);
  }

  // ---- Runs ----

  ghost predicate TurnOk(t: Turn) {
    t.Receive? ==> RequestOk(t.request)
  }

  lemma BootGood(crc: Checksum, width: U32, height: U32, seed: U32)
    requires BoardOk(width, height)
    ensures Good(Boot(crc, width, height, seed), [])
  {
    InitialKeeps(width, height, seed);
  }

  lemma TurnGood(s: Sys, t: Turn)
    requires Good(s, []) && TurnOk(t)
    ensures Good(Turned(s, t), [])
  {
    if !s.down {
      match t
      case Receive(r, from, now, start) => OnActionKeeps(s, r, from, now, start);
      case Timeout(now, start) => SweepKeeps(s, now, start);
      case Frame(now, next) => OnFrameKeeps(s, now, next);
      case Flush(blocks) => OnWriteKeeps(s, blocks);
    }
  }

  /** Every run of the server keeps the invariant: players and connections are coupled, addresses are unique, the game
      and its log agree, posted letters are sent or pending in order, and the server is up as long as every logged
      event fits a datagram. */
  lemma {:induction false} EveryRunGood(crc: Checksum, width: U32, height: U32, seed: U32, turns: seq<Turn>)
    requires BoardOk(width, height)
    requires forall i | 0 <= i < |turns| :: TurnOk(turns[i])
    ensures Good(Served(Boot(crc, width, height, seed), turns), [])
    decreases |turns|
  {
    hide Good, TurnOk;
    BootGood(crc, width, height, seed);
    if turns != [] {
      EveryRunGood(crc, width, height, seed, turns[..|turns| - 1]);
      TurnGood(Served(Boot(crc, width, height, seed), turns[..|turns| - 1]), turns[|turns| - 1]);
    }
  }
}
