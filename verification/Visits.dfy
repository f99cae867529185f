/** Runs from the boot of the server to the start of a first game. */
module Visits {
  import opened Wire
  import opened Records
  import opened Arenas
  import opened GameRules
  import opened GameProofs
  import opened GameRuns
  import opened Registry
  import opened Service
  import opened ServiceProofs
  import opened ServiceFacts
  import opened Starting

  function AddressOf(i: nat): Address
    requires i < 0x1_0000_0000
  {
    Address(PutU32(i))
  }

  lemma AddressesDiffer(i: nat, j: nat)
    requires i < 0x1_0000_0000 && j < 0x1_0000_0000
    ensures AddressOf(i) == AddressOf(j) ==> i == j
  {
    GetPut(PutU32(i), 0, i);
    GetPut(PutU32(j), 0, j);
  }

  function Guest(names: seq<Name>, i: nat): Conn
    requires i < |names| < 0x1_0000_0000
  {
    Conn(AddressOf(i), 0, names[i], 0)
  }

  function Guests(names: seq<Name>, k: nat): seq<Conn>
    requires k <= |names| < 0x1_0000_0000
  {
    seq(k, i requires 0 <= i < k => Guest(names, i))
  }

  function Visit(names: seq<Name>, i: nat, dir: Direction): Turn
    requires i < |names| < 0x1_0000_0000
  {
    Receive(Request(0, dir, 0, names[i]), AddressOf(i), 0, NOWHERE)
  }

  /** All clients connect, each from its own address; then one after the other turns left. */
  function Visiting(names: seq<Name>): (turns: seq<Turn>)
    requires |names| < 0x1_0000_0000
    ensures |turns| == 2 * |names|
  {
    seq(2 * |names|, i requires 0 <= i < 2 * |names| =>
      if i < |names| then Visit(names, i, Straight) else Visit(names, i - |names|, Left))
  }

  /** The first k clients are connected, and the first j of them are ready. */
  ghost predicate Assembled(s: Sys, names: seq<Name>, k: nat, j: nat)
    requires j <= k <= |names| < 0x1_0000_0000
  {
    && Good(s, []) && !s.down && !s.game.running
    && s.conns == Guests(names, k) && |s.game.players| == k
    && (forall n :: n in Names(s.game.players) <==> n in names[..k])
    && forall p | p in s.game.players :: p.ready <==> p.name in names[..j]
  }

  ghost predicate Callers(names: seq<Name>) {
    && 2 <= |names| < 0x1_0000_0000 && (forall n | n in names :: NameOk(n))
    && forall i, j | 0 <= i < j < |names| :: names[i] != names[j]
  }

  // ---- Connecting ----

  lemma FreshAddress(names: seq<Name>, k: nat)
    requires k < |names| < 0x1_0000_0000
    ensures var conns, c := Guests(names, k), Guest(names, k);
      && LookUp(conns, c.address, 0, 0) == Lookup(conns, [], NotFound)
      && AllActive(conns, 0) && conns + [c] == Guests(names, k + 1)
      && forall d | d in conns :: d.address != c.address
  {
    var conns, address := Guests(names, k), AddressOf(k);
    forall d | d in conns ensures Active(d, 0) && d.address != address {
      var i :| 0 <= i < k && conns[i] == d;
      AddressesDiffer(i, k);
    }
    assert conns + [Guest(names, k)] == Guests(names, k + 1);
    assert AllActive(conns, 0) && Guest(names, k).address == address;
    hide Guests, Guest, Active, Find;
    KeptAll(conns, 0);
    FindNone(conns, address);
  }

  lemma {:induction false} FindNone(conns: seq<Conn>, address: Address)
    requires forall d | d in conns :: d.address != address
    ensures Find(conns, address) == |conns|
    decreases |conns|
  {
    if conns != [] {
      assert conns[0] in conns && forall d | d in conns[1..] :: d in conns;
      FindNone(conns[1..], address);
    }
  }

  lemma Connects(s: Sys, names: seq<Name>, k: nat)
    requires Callers(names) && k < |names| && Assembled(s, names, k, 0)
    ensures Assembled(Turned(s, Visit(names, k, Straight)), names, k + 1, 0)
  {
    var r, from := Request(0, Straight, 0, names[k]), AddressOf(k);
    var g := s.game;
    NewName(g, names, k);
    var joined := AddPlayer(g, names[k]).game;
    var v := s.(game := joined, conns := Guests(names, k + 1));
    ConnectsTo(s, names, k);
    TurnGood(s, Visit(names, k, Straight));
    Joining(g, s.log, names, k);
  }

  lemma NewName(g: Game, names: seq<Name>, k: nat)
    requires Callers(names) && k < |names| && PlayersOk(g)
    requires forall n :: n in Names(g.players) <==> n in names[..k]
    ensures AddPlayer(g, names[k]).Joined? && NameOk(names[k])
  {
    assert names[k] in names;
    HasIff(g.players, names[k]);
  }

  /** The player joins and does nothing yet. */
  lemma ConnectsTo(s: Sys, names: seq<Name>, k: nat)
    requires Callers(names) && k < |names| && Assembled(s, names, k, 0) && AddPlayer(s.game, names[k]).Joined?
    ensures Turned(s, Visit(names, k, Straight)) ==
      s.(game := AddPlayer(s.game, names[k]).game, conns := Guests(names, k + 1))
  {
    var r, from := Request(0, Straight, 0, names[k]), AddressOf(k);
    assert names[k] in names && NameOk(names[k]);
    assert s.log == [] && !s.game.running;
    FreshAddress(names, k);
    hide Good, Assembled, AllActive, Callers;
    JoinsIn(s, r, from);
  }

  /** A new client that goes straight joins an idle game. */
  lemma JoinsIn(s: Sys, r: Request, from: Address)
    requires !s.down && !s.game.running && s.log == [] && r.turn == Straight && r.session == 0
    requires LookUp(s.conns, from, 0, 0) == Lookup(s.conns, [], NotFound)
    requires AllActive(s.conns, 0) && forall d | d in s.conns :: d.address != from
    requires r.name != [] && AddPlayer(s.game, r.name).Joined?
    ensures Turned(s, Receive(r, from, 0, NOWHERE)) ==
      s.(game := AddPlayer(s.game, r.name).game, conns := s.conns + [Conn(from, 0, r.name, 0)])
  {
    var t := s.(game := AddPlayer(s.game, r.name).game);
    var v := t.(conns := s.conns + [Conn(from, 0, r.name, 0)]);
    KeptAll(s.conns, 0);
    assert Sweep(t, 0, NOWHERE) == t by { assert t.(conns := t.conns) == t; }
    assert OnConnect(s, r, from, 0, NOWHERE) == Some(v);
    Connected(v, s.conns, r, from, 0, NOWHERE);
    assert s.(conns := s.conns) == s;
    GoesStraight(v, r, from);
    hide AddPlayer, Sweep, OnConnect, Answered, LookUp;
  }

  lemma GoesStraight(v: Sys, r: Request, from: Address)
    requires !v.game.running && v.log == [] && r.turn == Straight
    ensures Answered(v, r.name, r, from, 0, NOWHERE) == v
  {
    var m := PlayerAction(v.game, r.name, Straight, NOWHERE);
    assert m == Moved(v.game, []);
    assert v.(game := v.game) == v;
  }

  lemma Joining(g: Game, log: seq<Event>, names: seq<Name>, k: nat)
    requires Callers(names) && k < |names| && GameInv(g, log) && AddPlayer(g, names[k]).Joined? && |g.players| == k
    requires forall n :: n in Names(g.players) <==> n in names[..k]
    requires forall p | p in g.players :: !p.ready
    ensures var r := AddPlayer(g, names[k]).game;
      && |r.players| == k + 1 && (forall n :: n in Names(r.players) <==> n in names[..k + 1])
      && (forall p | p in r.players :: !p.ready) && r.running == g.running
  {
    assert names[k] in names;
    AddPlayerKeeps(g, log, names[k]);
    assert names[..k + 1] == names[..k] + [names[k]];
  }

  // ---- Getting ready ----

  lemma KnownAddress(names: seq<Name>, j: nat)
    requires j < |names| < 0x1_0000_0000
    ensures var conns := Guests(names, |names|);
      LookUp(conns, AddressOf(j), 0, 0) == Lookup(conns, [], Found(names[j])) && AllActive(conns, 0)
  {
    var conns, address := Guests(names, |names|), AddressOf(j);
    assert forall d | d in conns :: Active(d, 0);
    KeptAll(conns, 0);
    var i := Find(conns, address);
    assert conns[j].address == address;
    assert i <= j && conns[i].address == AddressOf(i);
    AddressesDiffer(i, j);
    assert conns[i := conns[i].(stamp := 0)] == conns;
  }

  /** A turn of a connected player is the player's action. */
  lemma Acting(s: Sys, names: seq<Name>, j: nat)
    requires Callers(names) && j < |names| && Good(s, []) && !s.down && s.conns == Guests(names, |names|)
    ensures Turned(s, Visit(names, j, Left)) ==
      Answered(s, names[j], Request(0, Left, 0, names[j]), AddressOf(j), 0, NOWHERE)
  {
    KnownAddress(names, j);
    assert s.(conns := s.conns) == s;
    hide Answered;
  }

  lemma GetsReady(s: Sys, names: seq<Name>, j: nat)
    requires Callers(names) && j + 1 < |names| && Assembled(s, names, |names|, j)
    ensures Assembled(Turned(s, Visit(names, j, Left)), names, |names|, j + 1)
  {
    var g, name := s.game, names[j];
    Acting(s, names, j);
    TurnGood(s, Visit(names, j, Left));
    assert name in names[..|names|] && name != [];
    HasIff(g.players, name);
    var i := Lower(g.players, name);
    NotAlone(g, names, j);
    ReadyOnly(g, s.log, name, NOWHERE);
    var t := s.(game := Readied(g, i));
    assert Deliver(t, [], 0) == t;
    assert Turned(s, Visit(names, j, Left)) == t;
    ReadyNow(g, names, j);
  }

  lemma NotAlone(g: Game, names: seq<Name>, j: nat)
    requires Callers(names) && j + 1 < |names| && PlayersOk(g)
    requires forall n :: n in Names(g.players) <==> n in names[..|names|]
    requires forall p | p in g.players :: p.ready <==> p.name in names[..j]
    ensures !OthersReady(g.players, names[j])
    ensures Has(g.players, names[j]) && !g.players[Lower(g.players, names[j])].ready
  {
    var last := names[|names| - 1];
    assert last in names[..|names|] && last !in names[..j] && last != names[j];
    var m :| 0 <= m < |g.players| && Names(g.players)[m] == last;
    assert g.players[m] in g.players && !g.players[m].ready;
    assert names[j] in names[..|names|] && names[j] !in names[..j];
    HasIff(g.players, names[j]);
    assert g.players[Lower(g.players, names[j])] in g.players;
  }

  /** Unless the player is the last one, getting ready is all that happens. */
  lemma ReadyOnly(g: Game, log: seq<Event>, name: Name, start: Pixels)
    requires GameInv(g, log) && !g.running && Has(g.players, name) && !OthersReady(g.players, name)
    requires !g.players[Lower(g.players, name)].ready
    ensures PlayerAction(g, name, Left, start) == Moved(Readied(g, Lower(g.players, name)), [])
  {
    ActionStartsIff(g, log, name, Left, start);
    var i := Lower(g.players, name);
    ReadyOne(g, i);
    StartsIff(Readied(g, i), start);
  }

  lemma ReadyNow(g: Game, names: seq<Name>, j: nat)
    requires Callers(names) && j < |names| && PlayersOk(g) && Has(g.players, names[j])
    requires forall p | p in g.players :: p.ready <==> p.name in names[..j]
    ensures var r := Readied(g, Lower(g.players, names[j]));
      && Names(r.players) == Names(g.players)
      && forall p | p in r.players :: p.ready <==> p.name in names[..j + 1]
  {
    var i := Lower(g.players, names[j]);
    var r := Readied(g, i);
    Singled(g.players, i);
    assert Names(r.players) == Names(g.players);
    assert names[..j + 1] == names[..j] + [names[j]];
    forall p | p in r.players ensures p.ready <==> p.name in names[..j + 1] {
      var m :| 0 <= m < |r.players| && r.players[m] == p;
      assert m != i ==> g.players[m] in g.players;
    }
  }

  // ---- The runs ----

  /** The server after the first n turns of the visit. */
  ghost function Party(crc: Checksum, width: U32, height: U32, seed: U32, names: seq<Name>, n: nat): Sys
    requires |names| < 0x1_0000_0000 && n <= 2 * |names|
  {
    Served(Boot(crc, width, height, seed), Visiting(names)[..n])
  }

  lemma VisitAt(names: seq<Name>, i: nat)
    requires i < 2 * |names| && |names| < 0x1_0000_0000
    ensures Visiting(names)[i] == if i < |names| then Visit(names, i, Straight) else Visit(names, i - |names|, Left)
  {
  }

  lemma NextVisit(crc: Checksum, width: U32, height: U32, seed: U32, names: seq<Name>, n: nat)
    requires |names| < 0x1_0000_0000 && n < 2 * |names|
    ensures Party(crc, width, height, seed, names, n + 1) ==
      Turned(Party(crc, width, height, seed, names, n), Visiting(names)[n])
  {
    var turns := Visiting(names);
    assert turns[..n + 1][..n] == turns[..n] && turns[..n + 1][n] == turns[n];
    hide Turned, Visiting;
  }

  lemma {:induction false} AllConnect(crc: Checksum, width: U32, height: U32, seed: U32, names: seq<Name>, k: nat)
    requires BoardOk(width, height) && Callers(names) && k <= |names|
    ensures Assembled(Party(crc, width, height, seed, names, k), names, k, 0)
    decreases k
  {
    if k == 0 {
      BootGood(crc, width, height, seed);
      assert Guests(names, 0) == [] && Names([]) == [];
    } else {
      hide Good, Visiting, Visit, Callers;
      AllConnect(crc, width, height, seed, names, k - 1);
      NextVisit(crc, width, height, seed, names, k - 1);
      VisitAt(names, k - 1);
      Connects(Party(crc, width, height, seed, names, k - 1), names, k - 1);
    }
  }

  lemma {:induction false} AllButOneReady(crc: Checksum, width: U32, height: U32, seed: U32, names: seq<Name>, j: nat)
    requires BoardOk(width, height) && Callers(names) && j < |names|
    ensures Assembled(Party(crc, width, height, seed, names, |names| + j), names, |names|, j)
    decreases j
  {
    hide Assembled, Visiting, Visit, Party, BoardOk, Served;
    if j == 0 {
      AllConnect(crc, width, height, seed, names, |names|);
    } else {
      var m := |names| + (j - 1);
      assert m + 1 == |names| + j && m - |names| == j - 1;
      AllButOneReady(crc, width, height, seed, names, j - 1);
      NextVisit(crc, width, height, seed, names, m);
      VisitAt(names, m);
      GetsReady(Party(crc, width, height, seed, names, m), names, j - 1);
    }
  }

  /** With up to 255 players the last turn of a visit has started the game or taken the server down, which the names
      decide; with more, nothing has happened although all are ready. */
  ghost predicate Decided(before: Sys, after: Sys, names: seq<Name>) {
    && (forall n :: n in Names(before.game.players) <==> n in names) && |before.game.players| == |names|
    && Good(after, [])
    && (after.down <==> |names| <= 0xFF && Overlong(Names(before.game.players)))
    && (after.game.running <==> |names| <= 0xFF)
    && (|names| > 0xFF ==> |after.game.players| == |names| && AllReady(after.game.players))
  }

  /** What comes of it when any number of clients with different names, two at least, connect and then get ready. */
  lemma VisitIff(crc: Checksum, width: U32, height: U32, seed: U32, names: seq<Name>)
    requires BoardOk(width, height) && Callers(names)
    ensures Decided(Party(crc, width, height, seed, names, 2 * |names| - 1),
                    Party(crc, width, height, seed, names, 2 * |names|), names)
  {
    hide Decided, Party, BoardOk;
    LastVisit(crc, width, height, seed, names, |names| - 1);
  }

  lemma LastVisit(crc: Checksum, width: U32, height: U32, seed: U32, names: seq<Name>, n: nat)
    requires BoardOk(width, height) && Callers(names) && |names| == n + 1
    ensures Decided(Party(crc, width, height, seed, names, |names| + n),
                    Party(crc, width, height, seed, names, |names| + n + 1), names)
  {
    hide Served, Visiting, Decided, Party, Assembled, Visit, BoardOk;
    var m := |names| + n;
    AllButOneReady(crc, width, height, seed, names, n);
    NextVisit(crc, width, height, seed, names, m);
    VisitAt(names, m);
    assert m - |names| == n == |names| - 1;
    LastOne(Party(crc, width, height, seed, names, m), names);
  }

  lemma WholeParty(crc: Checksum, width: U32, height: U32, seed: U32, names: seq<Name>)
    requires 1 <= |names| < 0x1_0000_0000
    ensures Party(crc, width, height, seed, names, 2 * |names|) ==
      Served(Boot(crc, width, height, seed), Visiting(names))
  {
    assert Visiting(names)[..2 * |names|] == Visiting(names);
  }

  lemma LastOne(s: Sys, names: seq<Name>)
    requires Callers(names) && Assembled(s, names, |names|, |names| - 1)
    ensures Decided(s, Turned(s, Visit(names, |names| - 1, Left)), names)
  {
    var turn := Visit(names, |names| - 1, Left);
    LastAction(s, names);
    TurnGood(s, turn);
    LastStarts(s, names);
    hide Good, Turned, Callers, Visit, Overlong, Fires, PlayerAction;
  }

  /** Whether the server goes down, plays or waits after the last turn. */
  lemma LastStarts(s: Sys, names: seq<Name>)
    requires Callers(names) && Assembled(s, names, |names|, |names| - 1)
    ensures var after := Turned(s, Visit(names, |names| - 1, Left));
      && (after.down <==> |names| <= 0xFF && Overlong(Names(s.game.players)))
      && (after.game.running <==> |names| <= 0xFF)
      && (|names| > 0xFF ==> |after.game.players| == |names| && AllReady(after.game.players))
  {
    var name := names[|names| - 1];
    var r, from := Request(0, Left, 0, name), AddressOf(|names| - 1);
    LastAction(s, names);
    Acting(s, names, |names| - 1);
    hide Answered, Visit, Fires, PlayerAction, Overlong, Turned, Guests;
    AnsweredDownIff(s, name, r, from, 0, NOWHERE);
    if |names| <= 0xFF {
      StartedRuns(s, name, r, from);
    } else {
      NothingStarts(s, names, r, from);
    }
  }

  lemma LastAction(s: Sys, names: seq<Name>)
    requires Callers(names) && Assembled(s, names, |names|, |names| - 1)
    ensures var name, players := names[|names| - 1], s.game.players;
      && name != [] && NameOk(name) && (forall n :: n in Names(players) <==> n in names)
      && (Fires(players, name, Left) <==> |names| <= 0xFF)
      && (PlayerAction(s.game, name, Left, NOWHERE).game.running <==> |names| <= 0xFF)
  {
    var name := names[|names| - 1];
    assert names[..|names|] == names && name in names && NameOk(name);
    AllOthersReady(s, names);
    ActionStartsIff(s.game, s.log, name, Left, NOWHERE);
  }

  /** With more than 255 players the last one gets ready, and that is all. */
  lemma NothingStarts(s: Sys, names: seq<Name>, r: Request, from: Address)
    requires Callers(names) && |names| > 0xFF && Assembled(s, names, |names|, |names| - 1)
    requires r == Request(0, Left, 0, names[|names| - 1])
    ensures var after := Answered(s, r.name, r, from, 0, NOWHERE);
      && !after.game.running && |after.game.players| == |names| && AllReady(after.game.players)
  {
    var t := LastReady(s, names, r, from);
    ReadyNow(s.game, names, |names| - 1);
    assert names[..|names| - 1 + 1] == names;
    hide Answered, Assembled, GameInv, PlayersOk;
    forall p | p in t.players ensures p.ready {
      var m :| 0 <= m < |t.players| && t.players[m] == p;
      assert Names(t.players)[m] == p.name;
    }
  }

  lemma LastReady(s: Sys, names: seq<Name>, r: Request, from: Address) returns (t: Game)
    requires Callers(names) && |names| > 0xFF && Assembled(s, names, |names|, |names| - 1)
    requires r == Request(0, Left, 0, names[|names| - 1])
    ensures var i := Lower(s.game.players, r.name);
      i < |s.game.players| && s.game.players[i].name == r.name && t == Readied(s.game, i) && !t.running
    ensures Answered(s, r.name, r, from, 0, NOWHERE) == s.(game := t)
  {
    var g, name := s.game, r.name;
    assert name in names[..|names|] && name !in names[..|names| - 1] && NameOk(name);
    HasIff(g.players, name);
    var i := Lower(g.players, name);
    assert g.players[i] in g.players && !g.players[i].ready;
    ReadyOne(g, i);
    t := Readied(g, i);
    StartsIff(t, NOWHERE);
    assert Deliver(s.(game := t), [], 0) == s.(game := t);
  }

  lemma AllOthersReady(s: Sys, names: seq<Name>)
    requires Callers(names) && Assembled(s, names, |names|, |names| - 1)
    ensures OthersReady(s.game.players, names[|names| - 1])
  {
    assert names[..|names|] == names;
    forall p | p in s.game.players && p.name != names[|names| - 1] ensures p.ready {
      var m :| 0 <= m < |s.game.players| && s.game.players[m] == p;
      assert Names(s.game.players)[m] == p.name && p.name in names;
    }
  }

  /** A game that an action starts runs on when its events are delivered and the sender has its answer. */
  lemma StartedRuns(s: Sys, name: Name, r: Request, from: Address)
    requires Good(s, []) && !s.down && name != [] && r.name == name
    requires PlayerAction(s.game, name, r.turn, NOWHERE).game.running
    ensures Answered(s, name, r, from, 0, NOWHERE).game.running
  {
    var m := PlayerAction(s.game, name, r.turn, NOWHERE);
    ActionDelivered(s, name, r.turn, 0, NOWHERE);
    var t := Deliver(s.(game := m.game), m.events, 0);
    DeliverRunning(s.(game := m.game), m.events, 0);
    hide Good, PlayerAction, Deliver, Reply;
    if !t.down {
      ReplyKeeps(t, from, r.next, 0);
    }
  }

  // ---- Three of these runs ----

  /** Two players with one-letter names get a game. */
  lemma TwoPlay(crc: Checksum, width: U32, height: U32, seed: U32)
    requires BoardOk(width, height)
    ensures var s := Served(Boot(crc, width, height, seed), Visiting([[65], [66]]));
      Good(s, []) && !s.down && s.game.running
  {
    var names: seq<Name> := [[65], [66]];
    assert forall n | n in names :: NameOk(n);
    assert [65][0] != [66][0];
    assert Callers(names) && forall n | n in names :: |n| == 1;
    hide *;
    PairPlays(crc, width, height, seed, names);
  }

  lemma PairPlays(crc: Checksum, width: U32, height: U32, seed: U32, names: seq<Name>)
    requires BoardOk(width, height) && Callers(names) && |names| == 2 && forall n | n in names :: |n| == 1
    ensures var s := Served(Boot(crc, width, height, seed), Visiting(names));
      Good(s, []) && !s.down && s.game.running
  {
    hide Callers, Served, Visiting, Party, Good, BoardOk, Overlong;
    VisitIff(crc, width, height, seed, names);
    WholeParty(crc, width, height, seed, names);
    ShortNames(Names(Party(crc, width, height, seed, names, 3).game.players), names);
  }

  lemma ShortNames(listed: seq<Name>, names: seq<Name>)
    requires |listed| == 2 && (forall n :: n in listed <==> n in names) && forall n | n in names :: |n| == 1
    ensures !Overlong(listed)
  {
    NotOverlong(listed);
  }

  lemma NotOverlong(names: seq<Name>)
    requires |names| == 2 && forall n | n in names :: |n| == 1
    ensures !Overlong(names)
  {
    assert names[0] in names && names[1] in names;
    JoinTwo(names);
    forall n: nat | n <= |names| ensures |Join(names[..n])| <= 4 {
      JoinGrows(names, n, 2);
      assert names[..2] == names;
    }
  }

  lemma JoinTwo(names: seq<Name>)
    requires |names| == 2
    ensures |Join(names)| == |names[0]| + |names[1]| + 2
  {
    assert names[1..] == [names[1]] && names[1..][1..] == [];
    assert Join(names[1..]) == names[1] + [0] + Join([]);
  }

  /** 256 names of two characters. */
  function ManyNames(): (names: seq<Name>)
    ensures |names| == 0x100
    ensures forall i | 0 <= i < 0x100 :: |names[i]| == 2 && names[i][0] == 65 + i / 16 && names[i][1] == 65 + i % 16
  {
    seq(0x100, i requires 0 <= i < 0x100 => [65 + i / 16, 65 + i % 16])
  }

  /** 256 clients are connected and ready, and no game starts. */
  lemma FullHouse(crc: Checksum, width: U32, height: U32, seed: U32)
    requires BoardOk(width, height)
    ensures var s := Served(Boot(crc, width, height, seed), Visiting(ManyNames()));
      && Good(s, []) && !s.down && !s.game.running
      && |s.game.players| == 0x100 && AllReady(s.game.players)
  {
    var names := ManyNames();
    ManyCallers();
    hide ManyNames, Callers, Served, Visiting;
    VisitIff(crc, width, height, seed, names);
    WholeParty(crc, width, height, seed, names);
  }

  lemma ManyCallers()
    ensures Callers(ManyNames())
  {
    var names := ManyNames();
    forall n | n in names ensures NameOk(n) {
      var i :| 0 <= i < 0x100 && names[i] == n;
    }
    forall i, j | 0 <= i < j < |names| ensures names[i] != names[j] {
      assert i == 16 * (i / 16) + i % 16 && j == 16 * (j / 16) + j % 16;
    }
  }

  /** Eight names of sixty characters. */
  function LongNames(): (names: seq<Name>)
    ensures |names| == 8 && forall i | 0 <= i < 8 :: |names[i]| == 60 && names[i][0] == 65 + i && NameOk(names[i])
  {
    seq(8, i requires 0 <= i < 8 => LongName(i))
  }

  function LongName(i: nat): (name: Name)
    requires i < 8
    ensures |name| == 60 && name[0] == 65 + i && NameOk(name)
  {
    seq(60, j requires 0 <= j < 60 => if j == 0 then 65 + i else 65)
  }

  /** Eight players whose names have sixty characters take the server down. */
  lemma EightGoDown(crc: Checksum, width: U32, height: U32, seed: U32)
    requires BoardOk(width, height)
    ensures Served(Boot(crc, width, height, seed), Visiting(LongNames())).down
  {
    var names := LongNames();
    assert Callers(names);
    VisitIff(crc, width, height, seed, names);
    WholeParty(crc, width, height, seed, names);
    var before := Party(crc, width, height, seed, names, 15).game.players;
    var listed := Names(before);
    forall n | n in listed ensures |n| == 60 {
      assert n in names;
    }
    JoinUniform(listed);
    assert listed[..8] == listed;
  }
}
