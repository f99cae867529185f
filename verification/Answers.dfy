/** A whole turn of the server as the client sees it that sent the message. */
module Answers {
  import opened Wire
  import opened Records
  import opened Parsing
  import opened Packing
  import opened Delivery
  import opened Arenas
  import opened GameRules
  import opened GameProofs
  import opened GameRuns
  import opened Registry
  import opened Outbox
  import opened Service
  import opened ServiceProofs
  import opened ServiceFacts
  import opened Starting
  import opened EndToEnd

  // ---- What a turn posts ----

  /** All events that were logged meanwhile went out, one by one, to all clients. */
  ghost predicate Shouts(s: Sys, r: Sys) {
    && s.log <= r.log && r.conns == s.conns && r.game.gameId == s.game.gameId && r.crc == s.crc
    && r.posted == s.posted + Broadcasts(s.game.gameId, r.log[|s.log|..], Addresses(s.conns))
  }

  lemma ShoutsNothing(s: Sys, g: Game)
    requires g.gameId == s.game.gameId
    ensures Shouts(s, s.(game := g))
  {
    assert s.posted + [] == s.posted;
  }

  lemma ShoutsTogether(s: Sys, t: Sys, r: Sys)
    requires Shouts(s, t) && Shouts(t, r)
    ensures Shouts(s, r)
  {
    var id, to := s.game.gameId, Addresses(s.conns);
    var a, b, c := t.log[|s.log|..], r.log[|t.log|..], r.log[|s.log|..];
    assert c == a + b;
    assert Broadcasts(id, c, to) == Broadcasts(id, a, to) + Broadcasts(id, b, to);
    hide Broadcasts, Addresses;
    Associate(s.posted, Broadcasts(id, a, to), Broadcasts(id, b, to));
  }

  lemma DeliverShouts(s: Sys, g: Game, events: seq<Event>, now: int, pending: seq<Name>)
    requires !s.down && BoxOk(s) && Unique(s.conns) && AllFit(s.log) && NoGameOver(events) && AllActive(s.conns, now)
    requires GameInv(g, LoggedAll(s.log, events)) && (g.running || events == [])
    requires Drawn(g) && g.gameId == s.game.gameId && Coupled(s.conns, pending, g.players)
    ensures var r := Deliver(s.(game := g), events, now); !r.down ==> Shouts(s, r)
  {
    var t := s.(game := g);
    var r := Deliver(t, events, now);
    DeliverGood(s, g, events, now, pending);
    if events == [] {
      ShoutsNothing(s, g);
    } else if !r.down {
      assert PlayersOk(g);
      hide GameInv, Drawn, Good, PlayersOk;
      DeliverKeeps(t, events, now, pending);
      LoggedAppends(s.log, events);
      DeliverPosts(t, events, now);
      KeptAll(s.conns, now);
      hide BoxOk, Unique, Coupled, Deliver, AllActive, Broadcasts;
      assert r.log[|s.log|..] == events;
    }
  }

  lemma DisconnectShouts(s: Sys, name: Name, pending: seq<Name>, now: int, start: Pixels)
    requires Good(s, [name] + pending) && !s.down && AllActive(s.conns, now)
    ensures var r := Disconnect(s, name, now, start); !r.down ==> Shouts(s, r)
  {
    if name == [] {
      ShoutsNothing(s, s.game);
    } else {
      var m := RemovePlayer(s.game, name, start);
      RemovePlayerKeeps(s.game, s.log, name, start);
      CoupledWithout(s.conns, name, pending, s.game.players, m.game.players);
      LeavesQuietly(s.game, s.log, name, start);
      hide GameInv, RemovePlayer, Drawn, Unique, Coupled, BoxOk, AllActive, Shouts;
      DeliverShouts(s, m.game, m.events, now, pending);
    }
  }

  lemma {:induction false} DisconnectAllShouts(s: Sys, names: seq<Name>, now: int, start: Pixels)
    requires Good(s, names) && !s.down && AllActive(s.conns, now)
    ensures var r := DisconnectAll(s, names, now, start); !r.down ==> Shouts(s, r)
    decreases |names|
  {
    hide Good, Shouts, AllActive, Disconnect;
    if names == [] {
      ShoutsNothing(s, s.game);
    } else {
      assert names == [names[0]] + names[1..];
      var t := Disconnect(s, names[0], now, start);
      DisconnectKeeps(s, names[0], names[1..], now, start);
      DisconnectShouts(s, names[0], names[1..], now, start);
      if t.down {
        DownStays(t, names[1..], now, start);
      } else {
        DisconnectAllShouts(t, names[1..], now, start);
        if !DisconnectAll(t, names[1..], now, start).down {
          ShoutsTogether(s, t, DisconnectAll(t, names[1..], now, start));
        }
      }
    }
  }

  lemma ActionShouts(s: Sys, name: Name, dir: Direction, now: int, start: Pixels)
    requires Good(s, []) && !s.down && AllActive(s.conns, now)
    ensures var m := PlayerAction(s.game, name, dir, start);
      var r := Deliver(s.(game := m.game), m.events, now); !r.down ==> Shouts(s, r)
  {
    var m := PlayerAction(s.game, name, dir, start);
    PlayerActionKeeps(s.game, s.log, name, dir, start);
    ActsQuietly(s.game, s.log, name, dir, start);
    SameNames(s.conns, s.game.players, m.game.players);
    hide GameInv, PlayerAction, Drawn, Unique, Coupled, BoxOk, AllActive, Shouts;
    DeliverShouts(s, m.game, m.events, now, []);
  }

  /** The server before it answers a client that it has found. */
  function Acted(s: Sys, r: Request, from: Address, now: int, start: Pixels): Sys {
    var u := Cleared(s, r, from, now, start);
    if u.down || r.name == [] then u else
    var m := PlayerAction(u.game, r.name, r.turn, start);
    Deliver(u.(game := m.game), m.events, now)
  }

  /** A message of a client that is found first lets the server shout what has begun, then answers the client. */
  lemma TurnShouts(s: Sys, r: Request, from: Address, now: int, start: Pixels)
    requires Good(s, []) && !s.down && RequestOk(r)
    requires var l := LookUp(s.conns, from, r.session, now); l.answer == Found(r.name)
    ensures var l, t := LookUp(s.conns, from, r.session, now), Acted(s, r, from, now, start);
      var q := Turned(s, Receive(r, from, now, start));
      && (q.down <==> t.down)
      && (!q.down ==> Good(t, []) && Shouts(s.(conns := l.conns), t) && q == Reply(t, from, r.next))
  {
    var l := LookUp(s.conns, from, r.session, now);
    var c := s.(conns := l.conns);
    var u := Cleared(s, r, from, now, start);
    LookupGood(s, from, r.session, now);
    LookedUp(s, r, from, now, start);
    DisconnectAllShouts(c, l.gone, now, start);
    hide Good, LookUp, Shouts, AllActive, RequestOk, Reply;
    if !u.down {
      if r.name == [] {
        ReplyKeeps(u, from, r.next, now);
      } else {
        ActionDelivered(u, r.name, r.turn, now, start);
        ActionShouts(u, r.name, r.turn, now, start);
        var t := Acted(s, r, from, now, start);
        if !t.down {
          ShoutsTogether(c, u, t);
          ReplyKeeps(t, from, r.next, now);
        }
      }
    }
  }

  // ---- What the client makes of it ----

  lemma {:induction false} ReceiveAppend(crc: Checksum, r: Receiver, a: seq<Bytes>, b: seq<Bytes>)
    ensures ReceiveDatagrams(crc, r, a + b) == ReceiveDatagrams(crc, ReceiveDatagrams(crc, r, a), b)
    decreases |a|
  {
    if a == [] {
      assert a + b == b;
    } else {
      assert (a + b)[1..] == a[1..] + b;
      ReceiveAppend(crc, ReceiveBytes(crc, r, a[0]), a[1..], b);
    }
  }

  /** The bytes of a turn: what was shouted, and the answer. */
  function TurnBodies(crc: Checksum, id: U32, to: Address, shouted: seq<Event>, parts: seq<seq<Event>>): seq<Bytes> {
    Bodies(crc, Letters(id, to, Singly(shouted))) + Bodies(crc, Letters(id, to, parts))
  }

  lemma PostedBodies(
      crc: Checksum, before: seq<Letter>, after: seq<Letter>, id: U32, events: seq<Event>, all: seq<Address>,
      to: Address, parts: seq<seq<Event>>)
    requires after == (before + Broadcasts(id, events, all)) + Letters(id, to, parts) && to in all
    ensures before <= after && Bodies(crc, after[|before|..]) == TurnBodies(crc, id, to, events, parts)
    ensures forall i | |before| <= i < |after| :: to in after[i].to
  {
    hide Datagram;
    assert after[|before|..] == Broadcasts(id, events, all) + Letters(id, to, parts);
  }

  lemma PartsGenuine(crc: Checksum, log: seq<Event>, id: U32, to: Address, parts: seq<seq<Event>>)
    requires forall p | p in parts :: TotalLen(p) <= MAX_MESSAGE_DATA_LEN && forall e | e in p :: e in log
    ensures forall b | b in Bodies(crc, Letters(id, to, parts)) :: Genuine(crc, b, id, log)
  {
    hide Datagram;
    var bodies := Bodies(crc, Letters(id, to, parts));
    forall b | b in bodies ensures Genuine(crc, b, id, log) {
      var i :| 0 <= i < |bodies| && bodies[i] == b;
      assert parts[i] in parts && b == Datagram(crc, id, parts[i]);
    }
  }

  /** The parts that a reply or a broadcast is made of carry events of the log. */
  lemma PartsOfLog(log: seq<Event>, parts: seq<seq<Event>>, events: seq<Event>)
    requires Flatten(parts) == events && forall e | e in events :: e in log
    ensures forall p | p in parts :: forall e | e in p :: e in log
  {
    FlattenHas(parts);
  }

  /** A client of the game: whatever is shouted, an answer from a place that it has reached on brings it to the end of
      the log. */
  lemma AnswerReaches(
      crc: Checksum, r: Receiver, log: seq<Event>, before: seq<Line>, k: nat, from: nat, m: nat, to: Address,
      parts: seq<seq<Event>>)
    requires GameLog(log) && (forall e | e in log :: e.Canonical()) && AllFit(log)
    requires from <= k <= |log| && m <= |log| && Holds(r, log, before, k)
    requires Flatten(parts) == log[from..] && forall p | p in parts :: TotalLen(p) <= MAX_MESSAGE_DATA_LEN
    ensures Holds(ReceiveDatagrams(crc, r, TurnBodies(crc, r.gameId, to, log[m..], parts)), log, before, |log|)
  {
    var id, shouted := r.gameId, log[m..];
    FlattenSingly(shouted);
    SinglesFit(shouted) by { assert forall e | e in shouted :: e in log; }
    hide GameLog, Holds, Genuine;
    PartsOfLog(log, Singly(shouted), shouted);
    PartsGenuine(crc, log, id, to, Singly(shouted));
    var bodies := Bodies(crc, Letters(id, to, Singly(shouted)));
    var k' := NetworkSafe(crc, r, log, before, k, bodies);
    Consume(crc, ReceiveDatagrams(crc, r, bodies), log, before, k', from, parts, id, to);
    ReceiveAppend(crc, r, bodies, Bodies(crc, Letters(id, to, parts)));
  }

  /** A client that holds what was logged before: what is shouted brings it to the end, and nothing else that is sent
      undoes that. */
  lemma ShoutsReach(
      crc: Checksum, r: Receiver, log: seq<Event>, before: seq<Line>, m: nat, to: Address, parts: seq<seq<Event>>)
    requires GameLog(log) && (forall e | e in log :: e.Canonical()) && AllFit(log)
    requires m <= |log| && Holds(r, log, before, m)
    requires forall p | p in parts :: TotalLen(p) <= MAX_MESSAGE_DATA_LEN && forall e | e in p :: e in log
    ensures var r' := ReceiveDatagrams(crc, r, TurnBodies(crc, r.gameId, to, log[m..], parts));
      Holds(r', log, before, |log|) && r'.gameId == r.gameId
  {
    var id, shouted := r.gameId, log[m..];
    FlattenSingly(shouted);
    SinglesFit(shouted) by { assert forall e | e in shouted :: e in log; }
    hide GameLog, Holds, Genuine;
    Consume(crc, r, log, before, m, m, Singly(shouted), id, to);
    PartsGenuine(crc, log, id, to, parts);
    var bodies := Bodies(crc, Letters(id, to, Singly(shouted)));
    var answer := Bodies(crc, Letters(id, to, parts));
    var k' := NetworkSafe(crc, ReceiveDatagrams(crc, r, bodies), log, before, |log|, answer);
    ReceiveAppend(crc, r, bodies, answer);
  }

  // ---- The whole turn ----

  /** The turn of a client that the server finds, and that leaves a game running. */
  ghost predicate Answering(s: Sys, r: Request, from: Address, now: int, start: Pixels) {
    var q := Turned(s, Receive(r, from, now, start));
    && Good(s, []) && !s.down && RequestOk(r)
    && LookUp(s.conns, from, r.session, now).answer == Found(r.name)
    && !q.down && q.game.running
  }

  /** What all clients are told and what the sender is answered in such a turn. */
  lemma TurnPosts(s: Sys, r: Request, from: Address, now: int, start: Pixels) returns (parts: seq<seq<Event>>)
    requires Answering(s, r, from, now, start)
    ensures var q := Turned(s, Receive(r, from, now, start));
      && s.log <= q.log && q.game.gameId == s.game.gameId && q.crc == s.crc && s.posted <= q.posted
      && (forall i | |s.posted| <= i < |q.posted| :: from in q.posted[i].to)
      && Bodies(s.crc, q.posted[|s.posted|..]) == TurnBodies(s.crc, s.game.gameId, from, q.log[|s.log|..], parts)
      && Flatten(parts) == From(q.log, r.next) && (forall p | p in parts :: TotalLen(p) <= MAX_MESSAGE_DATA_LEN)
      && GameLog(q.log) && (forall e | e in q.log :: e.Canonical()) && AllFit(q.log)
  {
    var t, q := Acted(s, r, from, now, start), Turned(s, Receive(r, from, now, start));
    var conns := LookUp(s.conns, from, r.session, now).conns;
    TurnShouts(s, r, from, now, start);
    FoundListed(s, from, r.session, now);
    hide Good, LookUp, Turned, Acted, Reply, RequestOk;
    ReplyKeeps(t, from, r.next, now);
    Running(t);
    parts := ReplyPosts(t, from, r.next);
    hide GameLog;
    PostedBodies(s.crc, s.posted, q.posted, s.game.gameId, t.log[|s.log|..], Addresses(conns), from, parts);
  }

  lemma Running(t: Sys)
    requires Good(t, []) && !t.down && t.game.running
    ensures GameLog(t.log) && (forall e | e in t.log :: e.Canonical()) && AllFit(t.log)
  {
    LogAcceptable(t.game, t.log);
    InLog(t.log);
  }

  lemma FoundListed(s: Sys, from: Address, session: nat, now: int)
    requires Good(s, [])
    ensures var l := LookUp(s.conns, from, session, now); l.answer.Found? ==> from in Addresses(l.conns)
  {
    var l := LookUp(s.conns, from, session, now);
    LookupKeeps(s.conns, from, session, now);
    hide LookUp, Good;
    if l.answer.Found? {
      var i :| 0 <= i < |l.conns| && l.conns[i].address == from;
      assert Addresses(l.conns)[i] == from;
    }
  }

  /** A client of the running game that asks for events from a place on which it has reached by now gets letters which,
      serialised, parsed and handled, leave it with the whole log. */
  lemma MessageCatchesUp(s: Sys, r: Request, from: Address, now: int, start: Pixels, c: Receiver, before: seq<Line>)
    requires Answering(s, r, from, now, start) && s.game.running
    requires c.gameId == s.game.gameId && r.next <= c.eventNo <= |s.log|
    requires (c.eventNo > 0 ==> GameLog(s.log)) && Holds(c, s.log, before, c.eventNo)
    ensures var q := Turned(s, Receive(r, from, now, start));
      && GameLog(q.log) && s.posted <= q.posted && (forall i | |s.posted| <= i < |q.posted| :: from in q.posted[i].to)
      && Holds(ReceiveDatagrams(s.crc, c, Bodies(s.crc, q.posted[|s.posted|..])), q.log, before, |q.log|)
  {
    hide Answering, GameLog, Holds, TurnBodies, Turned;
    var parts := TurnPosts(s, r, from, now, start);
    var q := Turned(s, Receive(r, from, now, start));
    HoldsOn(c, s.log, q.log, before, c.eventNo);
    AnswerReaches(s.crc, c, q.log, before, c.eventNo, r.next, |s.log|, from, parts);
  }

  /** When the turn starts a game, the letters bring the sender from wherever it was to the whole log of that game, on
      top of what it had delivered before. */
  lemma MessageStarts(s: Sys, r: Request, from: Address, now: int, start: Pixels, c: Receiver)
    requires Answering(s, r, from, now, start) && !s.game.running
    requires !c.stopped && (c.gameId == s.game.gameId ==> c.eventNo == 0)
    ensures var q := Turned(s, Receive(r, from, now, start));
      && GameLog(q.log) && s.posted <= q.posted && (forall i | |s.posted| <= i < |q.posted| :: from in q.posted[i].to)
      && Holds(ReceiveDatagrams(s.crc, c, Bodies(s.crc, q.posted[|s.posted|..])), q.log, c.delivered, |q.log|)
  {
    assert s.log == [];
    hide Answering, Turned;
    var parts := TurnPosts(s, r, from, now, start);
    var q := Turned(s, Receive(r, from, now, start));
    var entered := c.(gameId := s.game.gameId, eventNo := 0);
    assert q.log[|s.log|..] == q.log;
    assert c.delivered + Lines(q.log, 0) == c.delivered;
    hide GameLog;
    assert q.log[0..] == q.log;
    PartsOfLog(q.log, parts, From(q.log, r.next)) by { assert forall e | e in From(q.log, r.next) :: e in q.log; }
    ShoutsReach(s.crc, entered, q.log, c.delivered, 0, from, parts);
    if c != entered {
      EntersTurn(s.crc, c, s.game.gameId, q.log, from, parts);
    }
  }

  lemma EntersTurn(crc: Checksum, c: Receiver, id: U32, log: seq<Event>, to: Address, parts: seq<seq<Event>>)
    requires !c.stopped && c.gameId != id && GameLog(log) && (forall e | e in log :: e.Canonical()) && AllFit(log)
    ensures var bodies := TurnBodies(crc, id, to, log, parts);
      ReceiveDatagrams(crc, c, bodies) == ReceiveDatagrams(crc, c.(gameId := id, eventNo := 0), bodies)
  {
    var firsts := Bodies(crc, Letters(id, to, Singly(log)));
    FlattenSingly(log);
    SinglesFit(log);
    PartsOfLog(log, Singly(log), log);
    PartsGenuine(crc, log, id, to, Singly(log));
    assert firsts[0] in firsts;
    assert TurnBodies(crc, id, to, log, parts)[0] == firsts[0];
    hide Genuine, Datagram, Singly, Letters;
    Entering(crc, c, id, log, TurnBodies(crc, id, to, log, parts));
  }
}
