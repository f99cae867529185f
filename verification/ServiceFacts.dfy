/** What the server's invariant means for its clients and for the life of the process. */
module ServiceFacts {
  import opened Wire
  import opened Records
  import opened Packing
  import opened Arenas
  import opened GameRules
  import opened GameProofs
  import opened Registry
  import opened Service
  import opened ServiceProofs

  lemma {:induction false} HoldersIff(conns: seq<Conn>, n: Name)
    ensures Holders(conns, n) > 0 <==> exists c | c in conns :: c.name == n
    ensures forall i, j | 0 <= i < j < |conns| && conns[i].name == n && conns[j].name == n :: Holders(conns, n) > 1
    decreases |conns|
  {
    if conns != [] {
      var k := |conns| - 1;
      var rest := conns[..k];
      HoldersIff(rest, n);
      assert conns == rest + [conns[k]];
      forall i, j | 0 <= i < j < |conns| && conns[i].name == n && conns[j].name == n ensures Holders(conns, n) > 1 {
        assert rest[i] == conns[i] && conns[i] in rest;
        if j < k {
          assert rest[j] == conns[j];
        }
      }
    }
  }

  /** Between steps of a server that is up, the names of the players are exactly the non-empty names of its clients;
      no two clients share such a name, and no two clients share an address. */
  lemma RegistriesAgree(s: Sys)
    requires Good(s, []) && !s.down
    ensures forall n :: n in Names(s.game.players) <==> n != [] && exists c | c in s.conns :: c.name == n
    ensures forall i, j | 0 <= i < j < |s.conns| ::
      s.conns[i].address != s.conns[j].address && (s.conns[i].name == s.conns[j].name ==> s.conns[i].name == [])
  {
    forall n ensures n in Names(s.game.players) <==> n != [] && exists c | c in s.conns :: c.name == n {
      HoldersIff(s.conns, n);
      assert Count([], n) == 0;
      if n in Names(s.game.players) {
        assert exists p | p in s.game.players :: p.name == n;
      }
    }
    forall i, j | 0 <= i < j < |s.conns| && s.conns[i].name == s.conns[j].name ensures s.conns[i].name == [] {
      HoldersIff(s.conns, s.conns[i].name);
      assert Count([], s.conns[i].name) == 0;
    }
  }

  /** The client has not timed out at the time of the turn. */
  predicate SeenAt(c: Conn, t: Turn) {
    match t
    case Receive(_, _, now, _) => Active(c, now)
    case Timeout(now, _) => Active(c, now)
    case Frame(now, _) => Active(c, now)
    case Flush(_) => true
  }

  /** While an address stays connected without a timeout, its session never gets lower. */
  lemma SessionsGrow(s: Sys, t: Turn, c: Conn, d: Conn)
    requires Good(s, []) && !s.down && TurnOk(t) && !Turned(s, t).down
    requires c in s.conns && SeenAt(c, t) && d in Turned(s, t).conns && d.address == c.address
    ensures d.session >= c.session
  {
    assert Unique(s.conns);
    match t
    case Receive(r, from, now, start) =>
      OnActionKeeps(s, r, from, now, start);
      hide Good, Goes, OnAction;
      ReceiveSession(s.conns, r, from, now, Turned(s, t).conns, c, d);
    case Timeout(now, start) =>
      SweepKeeps(s, now, start);
      hide Good;
      KeptIff(s.conns, now);
      SameAddress(s.conns, c, d);
    case Frame(now, next) =>
      FrameConns(s, now, next);
      KeptIff(s.conns, now);
      SameAddress(s.conns, c, d);
    case Flush(blocks) =>
      SameAddress(s.conns, c, d);
  }

  lemma ReceiveSession(conns: seq<Conn>, r: Request, from: Address, now: int, after: seq<Conn>, c: Conn, d: Conn)
    requires Unique(conns) && c in conns && Active(c, now) && d in after && d.address == c.address
    requires Registered(LookUp(conns, from, r.session, now), Conn(from, r.session, r.name, now), after)
    ensures d.session >= c.session
  {
    LookupKeeps(conns, from, r.session, now);
    hide LookUp;
  }

  lemma SameAddress(conns: seq<Conn>, c: Conn, d: Conn)
    requires Unique(conns) && c in conns && d.address == c.address
    ensures d in conns ==> d == c
  {
  }

  /** Frames touch the clients only by sweeping. */
  lemma FrameConns(s: Sys, now: int, next: Pixels)
    ensures forall d | d in OnFrame(s, now, next).conns :: d in s.conns
  {
    if s.game.running {
      var m := DoFrame(s.game, next);
      DeliverConns(s.(game := m.game), m.events, now);
    }
  }

  lemma {:induction false} DeliverConns(s: Sys, events: seq<Event>, now: int)
    ensures forall d | d in Deliver(s, events, now).conns :: d in s.conns
    decreases |events|
  {
    if events != [] {
      KeptIff(s.conns, now);
      assert forall d | d in OnEvent(s, events[0], now).conns :: d in s.conns;
      DeliverConns(OnEvent(s, events[0], now), events[1..], now);
    }
  }

  /** A client that comes back with a newer session and its own name is connected anew. */
  lemma Reconnects(s: Sys, r: Request, from: Address, now: int, start: Pixels, c: Conn)
    requires Good(s, []) && !s.down && RequestOk(r)
    requires c in s.conns && Active(c, now) && c.address == from && c.session < r.session && c.name == r.name
    ensures var q := OnAction(s, r, from, now, start, false);
      !q.down ==> Conn(from, r.session, r.name, now) in q.conns
  {
    var l := LookUp(s.conns, from, r.session, now);
    var t := s.(conns := l.conns);
    LookupGood(s, from, r.session, now);
    OnlyHolder(s, r, from, now, c);
    hide Good, LookUp, OnAnswer;
    DisconnectAllKeeps(t, l.gone, now, start);
    var u := DisconnectAll(t, l.gone, now, start);
    if !u.down {
      FirstStep(s, t, u, now);
      hide DisconnectAll, AllActive, RequestOk;
      ComesBack(u, r, from, now, start);
    }
  }

  lemma ComesBack(u: Sys, r: Request, from: Address, now: int, start: Pixels)
    requires Good(u, []) && !u.down && RequestOk(r) && AllActive(u.conns, now)
    requires (forall c | c in u.conns :: c.address != from) && (r.name != [] ==> Holders(u.conns, r.name) == 0)
    ensures var q := OnAnswer(u, NotFound, r, from, now, start, false);
      !q.down ==> Conn(from, r.session, r.name, now) in q.conns
  {
    NameIsFree(u, r);
    var v := OnConnect(u, r, from, now, start).value;
    assert OnAnswer(u, NotFound, r, from, now, start, false) == OnAction(v, r, from, now, start, true);
    hide *;
    ConnectKeeps(u, r, from, now, start);
    Connected(v, u.conns, r, from, now, start);
    AnsweredKeeps(v, r.name, r, from, now, start);
    Itself(v);
    GoesOn(v, v, Answered(v, r.name, r, from, now, start), now);
  }

  lemma Itself(s: Sys)
    requires !s.down
    ensures Goes(s, s)
  {
  }

  lemma NameIsFree(u: Sys, r: Request)
    requires Good(u, []) && !u.down && RequestOk(r) && (r.name != [] ==> Holders(u.conns, r.name) == 0)
    ensures forall from: Address, now: int, start: Pixels :: OnConnect(u, r, from, now, start).Some?
  {
    if r.name != [] {
      assert Count([], r.name) == 0;
      HasIff(u.game.players, r.name);
    }
  }

  lemma OnlyHolder(s: Sys, r: Request, from: Address, now: int, c: Conn)
    requires Good(s, []) && !s.down
    requires c in s.conns && Active(c, now) && c.address == from && c.session < r.session && c.name == r.name
    ensures var l := LookUp(s.conns, from, r.session, now);
      l.answer.NotFound? && (r.name != [] ==> Holders(l.conns, r.name) == 0)
  {
    assert Unique(s.conns);
    if c.name != [] {
      SoleHolder(s, c);
    }
    hide *;
    Replaced(s.conns, r.session, now, c);
  }

  /** A newer session takes the client out. */
  lemma Replaced(conns: seq<Conn>, session: nat, now: int, c: Conn)
    requires Unique(conns) && c in conns && Active(c, now) && c.session < session
    ensures var l := LookUp(conns, c.address, session, now);
      l.answer.NotFound? && Holders(l.conns, c.name) < Holders(conns, c.name)
  {
    hide Kept, Gone, Holders, Find, Active;
    var kept := Kept(conns, now);
    FoundAt(conns, c, now);
    HoldersWithout(kept, Find(kept, c.address), c.name);
    SweepNames(conns, now, c.name);
  }

  /** An active client is what its address leads to after a sweep. */
  lemma FoundAt(conns: seq<Conn>, c: Conn, now: int)
    requires Unique(conns) && c in conns && Active(c, now)
    ensures var kept := Kept(conns, now); var i := Find(kept, c.address); i < |kept| && kept[i] == c
  {
    KeptIff(conns, now);
    KeptUnique(conns, now);
    hide Kept, Find, Active;
  }

  lemma SoleHolder(s: Sys, c: Conn)
    requires Good(s, []) && !s.down && c in s.conns && c.name != []
    ensures Holders(s.conns, c.name) == 1
  {
    HoldersIff(s.conns, c.name);
    assert Count([], c.name) == 0;
  }

  // ---- What is sent ----

  lemma {:induction false} ForgetKeepsId(g: Game, names: seq<Name>)
    ensures ForgetAll(g, names).gameId == g.gameId
    decreases |names|
  {
    if names != [] {
      ForgetKeepsId(Forget(g, names[0]), names[1..]);
    }
  }

  /** One letter for each event, to these clients. */
  function Broadcasts(id: U32, events: seq<Event>, to: seq<Address>): (ls: seq<Letter>)
    ensures |ls| == |events|
  {
    seq(|events|, i requires 0 <= i < |events| => Letter(id, [events[i]], to))
  }

  /** Every event that the game announces goes out in a letter of its own, to all clients that are connected then. */
  lemma {:induction false} DeliverPosts(s: Sys, events: seq<Event>, now: int)
    requires !s.down && AllFit(events)
    ensures Deliver(s, events, now).posted ==
      s.posted + Broadcasts(s.game.gameId, events, Addresses(Kept(s.conns, now)))
    decreases |events|
  {
    var id, to := s.game.gameId, Addresses(Kept(s.conns, now));
    if events == [] {
      assert s.posted + Broadcasts(id, [], to) == s.posted;
    } else {
      var e, rest := events[0], events[1..];
      assert e in events && forall f | f in rest :: f in events;
      EventPosts(s, e, now);
      assert [Letter(id, [e], to)] + Broadcasts(id, rest, to) == Broadcasts(id, events, to);
      hide OnEvent, AllFit, Broadcasts;
      DeliverPosts(OnEvent(s, e, now), rest, now);
      Associate(s.posted, [Letter(id, [e], to)], Broadcasts(id, rest, to));
    }
  }

  /** Every event goes out in one letter, and the clients that get it would get the next one, too. */
  lemma EventPosts(s: Sys, e: Event, now: int)
    requires !s.down && e.Fits()
    ensures var t, to := OnEvent(s, e, now), Addresses(Kept(s.conns, now));
      && !t.down && t.game.gameId == s.game.gameId && Addresses(Kept(t.conns, now)) == to
      && t.posted == s.posted + [Letter(s.game.gameId, [e], to)]
  {
    ForgetKeepsId(s.game, Gone(s.conns, now));
    KeptIff(s.conns, now);
    KeptAll(Kept(s.conns, now), now);
    hide Kept, Gone, ForgetAll, Logged, Addresses;
  }

  /** These are the clients seen within the timeout, and nobody is addressed twice. */
  lemma Recipients(conns: seq<Conn>, now: int)
    requires Unique(conns)
    ensures var to := Addresses(Kept(conns, now));
      && (forall a :: a in to <==> exists c | c in conns && Active(c, now) :: c.address == a)
      && forall i, j | 0 <= i < j < |to| :: to[i] != to[j]
  {
    KeptIff(conns, now);
    KeptUnique(conns, now);
    var kept := Kept(conns, now);
    var to := Addresses(kept);
    forall a ensures a in to <==> exists c | c in conns && Active(c, now) :: c.address == a {
      if a in to {
        var i :| 0 <= i < |to| && to[i] == a;
        assert kept[i] in kept;
      }
      if c :| c in conns && Active(c, now) && c.address == a {
        assert c in kept;
        var i :| 0 <= i < |kept| && kept[i] == c;
        assert to[i] == a;
      }
    }
  }

  // ---- How the server goes down ----

  /** Over every run the server is down exactly when it has logged a NEW_GAME whose name list add_player let grow beyond
      487 bytes. Which turns lead there is the matter of the module Starting. */
  lemma DownIff(crc: Checksum, width: U32, height: U32, seed: U32, turns: seq<Turn>)
    requires BoardOk(width, height)
    requires forall i | 0 <= i < |turns| :: TurnOk(turns[i])
    ensures var s := Served(Boot(crc, width, height, seed), turns);
      s.down <==> exists e | e in s.log :: e.NewGame? && e.namesLen > MAX_EVENT_DATA_LEN - NEW_GAME_HEADER_LEN
  {
    EveryRunGood(crc, width, height, seed, turns);
    var s := Served(Boot(crc, width, height, seed), turns);
    forall e: Event ensures !e.Fits() <==> e.NewGame? && e.namesLen > MAX_EVENT_DATA_LEN - NEW_GAME_HEADER_LEN {
      NewGameFits(e);
    }
  }

  /** When a game starts, its NEW_GAME fits exactly when the names of the players it seats take at most 487 bytes with
      their NULs; they are the longest run of names, in order, of at most 495. */
  lemma StartFitsIff(g: Game, start: Pixels) returns (n: nat)
    requires Idle(g) && Start(g, start).game.running
    ensures 2 <= n <= |g.players| && |Join(Names(g.players)[..n])| <= MAX_EVENT_DATA_LEN
    ensures n == |g.players| || |Join(Names(g.players)[..n])| + |g.players[n].name| + 1 > MAX_EVENT_DATA_LEN
    ensures AllFit(Start(g, start).events) <==>
      |Join(Names(g.players)[..n])| <= MAX_EVENT_DATA_LEN - NEW_GAME_HEADER_LEN
  {
    n := StartSeats(g, start);
    var r := Start(g, start);
    assert forall i | 0 < i < |r.events| :: r.events[i] == r.events[1..][i - 1];
    hide Seated, PlayersOk, Balanced, Fates, OnBoard;
    forall e | e in r.events
      ensures e.Fits() <==> e != r.events[0] || e.namesLen <= MAX_EVENT_DATA_LEN - NEW_GAME_HEADER_LEN
    {
      NewGameFits(e);
    }
    assert r.events[0] in r.events;
  }

  lemma {:induction false} JoinUniform(names: seq<Name>)
    requires forall n | n in names :: |n| == 60
    ensures |Join(names)| == 61 * |names|
    decreases |names|
  {
    if names != [] {
      assert names[0] in names && forall n | n in names[1..] :: n in names;
      JoinUniform(names[1..]);
      assert |Join(names)| == |names[0]| + 1 + |Join(names[1..])|;
    }
  }
}
