/** A client that stays connected, over whole runs of the server. */
module Following {
  import opened Wire
  import opened Records
  import opened Parsing
  import opened Packing
  import opened Generator
  import opened Delivery
  import opened Arenas
  import opened GameRules
  import opened GameProofs
  import opened GameRuns
  import opened Registry
  import opened Outbox
  import opened Service
  import opened ServiceProofs
  import opened ServiceFacts
  import opened Starting
  import opened EndToEnd
  import opened Answers
  import opened Chronicles

  /** The client at this address has not timed out, and this turn does not replace it by a newer session. */
  ghost predicate Hears(s: Sys, t: Turn, a: Address) {
    exists c | c in s.conns ::
      c.address == a && SeenAt(c, t) && !(t.Receive? && t.from == a && c.session < t.request.session)
  }

  // ---- What a turn posts ----

  /** The events logged meanwhile went out to these addresses, and then parts of the log to another one. */
  ghost predicate Tells(s: Sys, q: Sys, to: seq<Address>, from: Address, parts: seq<seq<Event>>) {
    && s.log <= q.log && q.game.gameId == s.game.gameId && q.crc == s.crc
    && q.posted == (s.posted + Broadcasts(s.game.gameId, q.log[|s.log|..], to)) + Letters(s.game.gameId, from, parts)
    && forall p | p in parts :: p != [] && TotalLen(p) <= MAX_MESSAGE_DATA_LEN && forall e | e in p :: e in q.log
  }

  lemma ShoutsTells(s: Sys, c: Sys, q: Sys, from: Address)
    requires Shouts(c, q) && c == s.(conns := c.conns)
    ensures Tells(s, q, Addresses(c.conns), from, [])
  {
    var posted := s.posted + Broadcasts(s.game.gameId, q.log[|s.log|..], Addresses(c.conns));
    assert posted + [] == posted;
  }

  /** A shout may be followed by an answer. */
  lemma AnswerTells(c: Sys, t: Sys, from: Address, next: nat) returns (parts: seq<seq<Event>>)
    requires Shouts(c, t) && Good(t, []) && !t.down
    ensures Tells(c, Reply(t, from, next), Addresses(c.conns), from, parts)
  {
    ReplyKeeps(t, from, next, 0);
    assert AllFit(t.log);
    parts := ReplyPosts(t, from, next);
    assert forall e | e in From(t.log, next) :: e in t.log;
    PartsOfLog(t.log, parts, From(t.log, next));
    hide Good, Reply, Broadcasts, Letters, Addresses;
  }

  /** Nothing new is logged while a game is played and nothing is done but to act. */
  lemma PlayingLogs(v: Sys, name: Name, dir: Direction, now: int, start: Pixels)
    requires Good(v, []) && !v.down && v.game.running
    ensures var m := PlayerAction(v.game, name, dir, start); Deliver(v.(game := m.game), m.events, now).log == v.log
  {
    PlayerActionKeeps(v.game, v.log, name, dir, start);
  }

  /** What an answer posts, for a client that is known by now. */
  lemma AnsweredTells(v: Sys, player: Name, r: Request, from: Address, now: int, start: Pixels)
    returns (parts: seq<seq<Event>>)
    requires Good(v, []) && !v.down && AllActive(v.conns, now) && !Answered(v, player, r, from, now, start).down
    ensures var q := Answered(v, player, r, from, now, start);
      && Tells(v, q, Addresses(v.conns), from, parts) && (v.game.running ==> q.log == v.log)
      && q.conns == v.conns
  {
    parts := [];
    AnsweredKeeps(v, player, r, from, now, start);
    ShoutsNothing(v, v.game);
    if player != r.name {
      ShoutsTells(v, v, v, from);
    } else if player == [] {
      ReplyKeeps(v, from, r.next, now);
      parts := AnswerTells(v, v, from, r.next);
    } else {
      var m := PlayerAction(v.game, player, r.turn, start);
      var t := Deliver(v.(game := m.game), m.events, now);
      ActionDelivered(v, player, r.turn, now, start);
      ActionShouts(v, player, r.turn, now, start);
      if v.game.running {
        PlayingLogs(v, player, r.turn, now, start);
      }
      hide Good, PlayerAction, Shouts, Tells, Reply, Stays, Deliver, AllActive;
      ReplyKeeps(t, from, r.next, now);
      parts := AnswerTells(v, t, from, r.next);
    }
  }

  /** A departure in an idle game and an answer in a running one do not both tell something new. */
  lemma TellsTogether(
      s: Sys, c: Sys, u: Sys, v: Sys, q: Sys, from: Address, parts: seq<seq<Event>>)
    returns (to: seq<Address>)
    requires Shouts(c, u) && c == s.(conns := c.conns)
    requires v.posted == u.posted && v.log == u.log && v.game.gameId == u.game.gameId && v.crc == u.crc
    requires Tells(v, q, Addresses(v.conns), from, parts)
    requires u.log == s.log || q.log == u.log
    ensures Tells(s, q, to, from, parts) && (to == Addresses(c.conns) || to == Addresses(v.conns))
  {
    var id := s.game.gameId;
    if u.log == s.log {
      to := Addresses(v.conns);
      assert u.posted == s.posted;
    } else {
      to := Addresses(c.conns);
      assert Broadcasts(id, q.log[|v.log|..], Addresses(v.conns)) == [];
      assert v.posted + [] == v.posted;
    }
  }

  /** The answer to a message, when its sender is connected at last. */
  lemma OnAnswerTells(u: Sys, answer: Answer, r: Request, from: Address, now: int, start: Pixels)
    returns (v: Sys, parts: seq<seq<Event>>)
    requires Good(u, []) && !u.down && RequestOk(r) && AllActive(u.conns, now)
    requires answer.NotFound? ==> forall c | c in u.conns :: c.address != from
    requires answer.Found? ==> from in Addresses(u.conns)
    requires !OnAnswer(u, answer, r, from, now, start, false).down
    ensures var q := OnAnswer(u, answer, r, from, now, start, false);
      && q.conns == v.conns && (parts != [] ==> from in Addresses(v.conns))
      && v.posted == u.posted && v.log == u.log && v.game.gameId == u.game.gameId && v.crc == u.crc
      && v.game.running == u.game.running && u.conns <= v.conns
      && Tells(v, q, Addresses(v.conns), from, parts) && (v.game.running ==> q.log == v.log)
  {
    v, parts := u, [];
    NothingTold(u, from);
    match answer
    case NewerSession =>
    case Found(player) => parts := AnsweredTells(u, player, r, from, now, start);
    case NotFound =>
      ConnectKeeps(u, r, from, now, start);
      ConnectPosts(u, r, from, now, start);
      hide Good, OnConnect, Answered, AllActive, Tells;
      if OnConnect(u, r, from, now, start).Some? {
        v := OnConnect(u, r, from, now, start).value;
        Connected(v, u.conns, r, from, now, start);
        parts := AnsweredTells(v, r.name, r, from, now, start);
        SameId(u, v);
        assert Addresses(v.conns)[|u.conns|] == from;
      }
  }

  lemma SameId(u: Sys, v: Sys)
    requires Goes(u, v) && !v.down
    ensures v.game.gameId == u.game.gameId && v.crc == u.crc
  {
  }

  lemma NothingTold(u: Sys, from: Address)
    ensures Tells(u, u, Addresses(u.conns), from, [])
  {
    ShoutsNothing(u, u.game);
    assert u.(game := u.game) == u;
    ShoutsTells(u, u, u, from);
  }

  lemma MessageSpeaks(s: Sys, r: Request, from: Address, now: int, start: Pixels)
    returns (to: seq<Address>, parts: seq<seq<Event>>)
    requires Good(s, []) && !s.down && RequestOk(r) && !Turned(s, Receive(r, from, now, start)).down
    ensures var q := Turned(s, Receive(r, from, now, start));
      && Tells(s, q, to, from, parts) && (parts != [] ==> from in Addresses(q.conns))
      && (forall a | a in to :: a in Addresses(q.conns))
      && forall a | a in Addresses(LookUp(s.conns, from, r.session, now).conns) :: a in to
  {
    var l := LookUp(s.conns, from, r.session, now);
    var c, u := s.(conns := l.conns), Cleared(s, r, from, now, start);
    var q := Turned(s, Receive(r, from, now, start));
    assert q == if u.down then u else OnAnswer(u, l.answer, r, from, now, start, false);
    LookupGood(s, from, r.session, now);
    LookedUp(s, r, from, now, start);
    FoundListed(s, from, r.session, now);
    DisconnectAllShouts(c, l.gone, now, start);
    IdleLog(s, u);
    hide Good, LookUp, Turned, AllActive, RequestOk, OnAnswer, DisconnectAll, Cleared, Addresses, Tells;
    var v;
    v, parts := OnAnswerTells(u, l.answer, r, from, now, start);
    MoreAddresses(u.conns, v.conns);
    to := TellsTogether(s, c, u, v, q, from, parts);
  }

  lemma MessageTells(s: Sys, r: Request, from: Address, now: int, start: Pixels, a: Address)
    returns (to: seq<Address>, parts: seq<seq<Event>>)
    requires var t := Receive(r, from, now, start);
      Good(s, []) && !s.down && RequestOk(r) && !Turned(s, t).down && Hears(s, t, a)
    ensures Tells(s, Turned(s, Receive(r, from, now, start)), to, from, parts) && a in to
  {
    StillListed(s, r, from, now, start, a);
    hide *;
    to, parts := MessageSpeaks(s, r, from, now, start);
  }

  /** Behind the log of a server there is something new only if it plays by now. */
  lemma IdleLog(s: Sys, u: Sys)
    requires Good(u, []) && !u.down && s.log <= u.log
    ensures u.log == s.log || u.game.running
  {
  }

  /** A client that hears the turn is still listed when its sweep and lookup are over. */
  lemma StillListed(s: Sys, r: Request, from: Address, now: int, start: Pixels, a: Address)
    requires Good(s, []) && Hears(s, Receive(r, from, now, start), a)
    ensures a in Addresses(LookUp(s.conns, from, r.session, now).conns)
  {
    var conns := LookUp(s.conns, from, r.session, now).conns;
    var t := Receive(r, from, now, start);
    var c :| c in s.conns && c.address == a && SeenAt(c, t) && !(t.from == a && c.session < t.request.session);
    LookupKeeps(s.conns, from, r.session, now);
    hide LookUp, Good;
    var d :| d in conns && Same(c, d);
    var i :| 0 <= i < |conns| && conns[i] == d;
    assert Addresses(conns)[i] == a;
  }

  lemma MoreAddresses(conns: seq<Conn>, more: seq<Conn>)
    requires conns <= more
    ensures forall a | a in Addresses(conns) :: a in Addresses(more)
  {
    forall a | a in Addresses(conns) ensures a in Addresses(more) {
      var i :| 0 <= i < |conns| && Addresses(conns)[i] == a;
      assert Addresses(more)[i] == a;
    }
  }

  lemma ActiveListed(s: Sys, now: int, a: Address)
    requires Unique(s.conns) && exists c | c in s.conns :: c.address == a && Active(c, now)
    ensures a in Addresses(Kept(s.conns, now))
  {
    Recipients(s.conns, now);
  }

  lemma TimeoutTells(s: Sys, now: int, start: Pixels, a: Address) returns (to: seq<Address>)
    requires Good(s, []) && !s.down && !Turned(s, Timeout(now, start)).down && Hears(s, Timeout(now, start), a)
    ensures Tells(s, Turned(s, Timeout(now, start)), to, a, []) && a in to
  {
    var c := s.(conns := Kept(s.conns, now));
    ActiveListed(s, now, a);
    SweepGood(s, now);
    hide Good, Addresses;
    DisconnectAllShouts(c, Gone(s.conns, now), now, start);
    ShoutsTells(s, c, Turned(s, Timeout(now, start)), a);
    to := Addresses(c.conns);
  }

  lemma FrameTells(s: Sys, now: int, next: Pixels, a: Address) returns (to: seq<Address>)
    requires Good(s, []) && !s.down && !Ended(s, Turn.Frame(now, next)) && Hears(s, Turn.Frame(now, next), a)
    ensures Tells(s, Turned(s, Turn.Frame(now, next)), to, a, []) && a in to
  {
    to := Addresses(Kept(s.conns, now));
    ActiveListed(s, now, a);
    if s.game.running {
      FramePostsAll(s, now, next, a);
    } else {
      assert s.posted + [] == s.posted;
    }
  }

  lemma FramePostsAll(s: Sys, now: int, next: Pixels, from: Address)
    requires Good(s, []) && !s.down && s.game.running && !Ends(s.game)
    ensures Tells(s, OnFrame(s, now, next), Addresses(Kept(s.conns, now)), from, [])
  {
    var q, m := OnFrame(s, now, next), DoFrame(s.game, next);
    assert q == Deliver(s.(game := m.game), m.events, now);
    hide Good, DoFrame, Deliver, Addresses, OnFrame;
    FrameLogs(s, now, next);
    OnFrameKeeps(s, now, next);
    DeliverPosts(s.(game := m.game), m.events, now);
    assert q.log[|s.log|..] == m.events;
    assert q.posted + [] == q.posted;
  }

  /** What a turn posts that does not end a game: to everybody who hears it, all that it logs. */
  lemma TurnTells(s: Sys, t: Turn, a: Address)
    returns (to: seq<Address>, from: Address, parts: seq<seq<Event>>)
    requires Good(s, []) && !s.down && TurnOk(t) && !Ended(s, t) && !Turned(s, t).down && Hears(s, t, a)
    ensures Tells(s, Turned(s, t), to, from, parts) && a in to
  {
    from, parts := a, [];
    match t
    case Receive(r, sender, now, start) =>
      from := sender;
      to, parts := MessageTells(s, r, sender, now, start, a);
    case Timeout(now, start) => to := TimeoutTells(s, now, start, a);
    case Frame(now, next) => to := FrameTells(s, now, next, a);
    case Flush(blocks) =>
      to := [a];
      assert s.posted + [] == s.posted;
  }

  // ---- The letters of one client ----

  /** The letters addressed to the client, in order. */
  function Inbox(letters: seq<Letter>, a: Address): seq<Letter>
    decreases |letters|
  {
    if letters == [] then [] else
    (if a in letters[0].to then [letters[0]] else []) + Inbox(letters[1..], a)
  }

  lemma {:induction false} InboxAppend(x: seq<Letter>, y: seq<Letter>, a: Address)
    ensures Inbox(x + y, a) == Inbox(x, a) + Inbox(y, a)
    decreases |x|
  {
    if x == [] {
      assert x + y == y;
    } else {
      assert (x + y)[1..] == x[1..] + y;
      InboxAppend(x[1..], y, a);
    }
  }

  lemma {:induction false} InboxOfAll(letters: seq<Letter>, a: Address)
    requires forall l | l in letters :: a in l.to
    ensures Inbox(letters, a) == letters
    decreases |letters|
  {
    if letters != [] {
      assert letters[0] in letters && forall l | l in letters[1..] :: l in letters;
      InboxOfAll(letters[1..], a);
    }
  }

  lemma {:induction false} InboxOfNone(letters: seq<Letter>, a: Address)
    requires forall l | l in letters :: a !in l.to
    ensures Inbox(letters, a) == []
    decreases |letters|
  {
    if letters != [] {
      assert letters[0] in letters && forall l | l in letters[1..] :: l in letters;
      InboxOfNone(letters[1..], a);
    }
  }

  lemma {:induction false} InboxIn(letters: seq<Letter>, a: Address)
    ensures forall l | l in Inbox(letters, a) :: l in letters
    decreases |letters|
  {
    if letters != [] {
      InboxIn(letters[1..], a);
      assert letters == [letters[0]] + letters[1..];
    }
  }

  /** The bytes of a turn that reach a client who hears it. */
  lemma InboxTells(s: Sys, q: Sys, to: seq<Address>, from: Address, parts: seq<seq<Event>>, a: Address)
    requires Tells(s, q, to, from, parts) && a in to
    ensures s.posted <= q.posted
    ensures Bodies(s.crc, Inbox(q.posted[|s.posted|..], a)) ==
      TurnBodies(s.crc, s.game.gameId, a, q.log[|s.log|..], if a == from then parts else [])
  {
    var id, events := s.game.gameId, q.log[|s.log|..];
    var x, y := Broadcasts(id, events, to), Letters(id, from, parts);
    assert q.posted[|s.posted|..] == x + y;
    BroadcastBodies(s.crc, id, events, to, a);
    InboxOfAll(x, a);
    if a == from {
      InboxOfAll(y, a);
    } else {
      InboxOfNone(y, a);
    }
    hide Datagram, Inbox, Bodies, Broadcasts, Letters;
    InboxAppend(x, y, a);
    BodiesAppend(s.crc, x, Inbox(y, a));
    assert Letters(id, a, []) == [];
  }

  lemma BodiesAppend(crc: Checksum, x: seq<Letter>, y: seq<Letter>)
    ensures Bodies(crc, x + y) == Bodies(crc, x) + Bodies(crc, y)
  {
    hide Datagram;
  }

  lemma BroadcastBodies(crc: Checksum, id: U32, events: seq<Event>, to: seq<Address>, a: Address)
    ensures Bodies(crc, Broadcasts(id, events, to)) == Bodies(crc, Letters(id, a, Singly(events)))
  {
    hide Datagram;
  }

  // ---- Keeping up ----

  /** The client holds all that was logged of the current game, and before that delivered these lines; a client that has
      nothing of an idle server's next game, or whose server is down, has delivered just these lines. */
  ghost predicate UpToDate(c: Receiver, s: Sys, before: seq<Line>) {
    && !c.stopped
    && if s.down || (c.gameId != s.game.gameId && !s.game.running) then c.delivered == before
       else c.gameId == s.game.gameId && (s.log != [] ==> GameLog(s.log)) && Holds(c, s.log, before, |s.log|)
  }

  ghost function AllLines(log: seq<Event>): seq<Line> {
    if GameLog(log) then Lines(log, |log|) else []
  }

  /** The games that were played to their end in these turns, line by line. */
  ghost function History(s: Sys, turns: seq<Turn>): seq<Line>
    decreases |turns|
  {
    if turns == [] then [] else
    var t := Served(s, turns[..|turns| - 1]);
    History(s, turns[..|turns| - 1]) + Finished(t, turns[|turns| - 1])
  }

  ghost function Finished(t: Sys, turn: Turn): seq<Line> {
    if Ended(t, turn) then AllLines(t.log) else []
  }

  /** What the client gets of a stretch of the posted letters. */
  function Mail(crc: Checksum, letters: seq<Letter>, a: Address): seq<Bytes> {
    Bodies(crc, Inbox(letters, a))
  }

  /** The client got in order all letters addressed to it that were posted between two states. */
  ghost function Informed(c: Receiver, s: Sys, q: Sys, a: Address): Receiver
    requires s.posted <= q.posted
  {
    ReceiveDatagrams(s.crc, c, Mail(s.crc, q.posted[|s.posted|..], a))
  }

  /** A turn of a running game, or one that starts it. */
  lemma TellsKeepUp(
      s: Sys, q: Sys, to: seq<Address>, from: Address, parts: seq<seq<Event>>, a: Address,
      c: Receiver, before: seq<Line>)
    requires Tells(s, q, to, from, parts) && a in to && Good(s, []) && Good(q, []) && !s.down && !q.down
    requires UpToDate(c, s, before) && q.game.running
    ensures s.posted <= q.posted
    ensures UpToDate(Informed(c, s, q, a), q, before)
  {
    var answer := if a == from then parts else [];
    var id, log, m := s.game.gameId, q.log, |s.log|;
    InboxTells(s, q, to, from, parts, a);
    Running(q);
    assert !s.game.running ==> s.log == [];
    hide Good, Inbox, Bodies, TurnBodies;
    if c.gameId == id {
      HoldsOn(c, s.log, log, before, m);
      ShoutsReach(s.crc, c, log, before, m, a, answer);
    } else {
      var entered := c.(gameId := id, eventNo := 0);
      assert c.delivered + Lines(log, 0) == c.delivered;
      assert log[0..] == log && log[m..] == log;
      EntersTurn(s.crc, c, id, log, a, answer);
      ShoutsReach(s.crc, entered, log, before, 0, a, answer);
    }
  }

  /** An idle server tells nothing. */
  lemma IdleKeepsUp(
      s: Sys, q: Sys, to: seq<Address>, from: Address, parts: seq<seq<Event>>, a: Address,
      c: Receiver, before: seq<Line>)
    requires Tells(s, q, to, from, parts) && Good(q, []) && !s.down && !q.down && UpToDate(c, s, before)
    requires !s.game.running && !q.game.running
    ensures s.posted <= q.posted
    ensures UpToDate(Informed(c, s, q, a), q, before)
  {
    assert q.log == [] && s.log == [];
    NoParts(q.log, parts);
    assert q.posted == s.posted;
    assert q.posted[|s.posted|..] == [];
  }

  lemma NoParts(log: seq<Event>, parts: seq<seq<Event>>)
    requires forall p | p in parts :: p != [] && forall e | e in p :: e in log
    ensures parts == [] || log != []
  {
    if parts != [] {
      assert parts[0] in parts && parts[0][0] in parts[0];
    }
  }

  /** Whoever hears a turn that does not end a game is up to date after it. */
  lemma TurnKeepsUp(s: Sys, t: Turn, a: Address, c: Receiver, before: seq<Line>)
    requires Good(s, []) && !s.down && TurnOk(t) && !Ended(s, t) && !Turned(s, t).down
    requires Hears(s, t, a) && UpToDate(c, s, before)
    ensures var q := Turned(s, t);
      && s.posted <= q.posted
      && UpToDate(Informed(c, s, q, a), q, before)
  {
    hide UpToDate, Hears, Turned, Tells, Mail, TurnOk, Ended;
    var q := Turned(s, t);
    var to, from, parts := TurnTells(s, t, a);
    TurnGood(s, t);
    TurnGoes(s, t);
    GoesRunning(s, q);
    if q.game.running {
      TellsKeepUp(s, q, to, from, parts, a, c, before);
    } else {
      IdleKeepsUp(s, q, to, from, parts, a, c, before);
    }
  }

  /** The end of a game brings at most its GAME_OVER. */
  lemma EndKeepsUp(s: Sys, t: Turn, a: Address, c: Receiver, before: seq<Line>)
    requires Good(s, []) && TurnOk(t) && Ended(s, t) && UpToDate(c, s, before) && s.game.gameId % RANDOM_MOD != 0
    ensures var q := Turned(s, t);
      && s.posted <= q.posted
      && UpToDate(Informed(c, s, q, a), q, before + AllLines(s.log))
  {
    var q := Turned(s, t);
    EndPosts(s, t);
    EndDates(s, t);
    Running(s);
    NewIdDiffers(s, q);
    var latest := q.posted[|s.posted|..];
    assert c.gameId == s.game.gameId && Holds(c, s.log, before, |s.log|) && q.posted == s.posted + latest;
    hide Good, Turned, Ended, TurnOk, Holds, GameLog, Genuine;
    MailGenuine(s, q, a);
    hide *;
    var k := NetworkSafe(s.crc, c, s.log, before, |s.log|, Mail(s.crc, latest, a));
    Delivered(ReceiveDatagrams(s.crc, c, Mail(s.crc, latest, a)), s.log, before);
    BetweenGames(c, s, q, a, before + AllLines(s.log));
  }

  /** A client of the last game that delivered these lines waits for the next one. */
  lemma BetweenGames(c: Receiver, s: Sys, q: Sys, a: Address, before: seq<Line>)
    requires s.posted <= q.posted
    requires var r := ReceiveDatagrams(s.crc, c, Mail(s.crc, q.posted[|s.posted|..], a));
      !r.stopped && r.delivered == before && r.gameId != q.game.gameId
    requires !q.down && !q.game.running
    ensures UpToDate(Informed(c, s, q, a), q, before)
  {
    hide Mail;
  }

  lemma Delivered(c: Receiver, log: seq<Event>, before: seq<Line>)
    requires GameLog(log) && Holds(c, log, before, |log|)
    ensures !c.stopped && c.delivered == before + AllLines(log)
  {
  }

  lemma NewIdDiffers(s: Sys, q: Sys)
    requires Good(s, []) && !s.down && s.game.running && s.game.gameId % RANDOM_MOD != 0
    requires q.game.gameId == Advance(s.game.gameId, 3 * |s.game.arena.snakes| + 1)
    ensures q.game.gameId != s.game.gameId
  {
    assert 2 <= |s.game.arena.snakes| <= MAX_SNAKES;
    hide Good, Advance;
    IdsDiffer(s.game.gameId, |s.game.arena.snakes|);
  }

  lemma MailGenuine(s: Sys, q: Sys, a: Address)
    requires News(s.posted, q.posted, s.game.gameId, [GameOver(s.game.arena.eventNo)])
    ensures forall b | b in Mail(s.crc, q.posted[|s.posted|..], a) :: Genuine(s.crc, b, s.game.gameId, s.log)
  {
    var latest := q.posted[|s.posted|..];
    forall l | l in latest ensures Carries(l, s.game.gameId, [GameOver(s.game.arena.eventNo)]) {
      var j :| 0 <= j < |latest| && latest[j] == l;
      assert q.posted[|s.posted| + j] == l;
    }
    InboxIn(latest, a);
    hide Inbox, News;
    BodiesGenuine(s.crc, Inbox(latest, a), s.game.gameId, s.log, GameOver(s.game.arena.eventNo));
  }

  lemma BodiesGenuine(crc: Checksum, letters: seq<Letter>, id: U32, log: seq<Event>, e: Event)
    requires e.GameOver? && forall l | l in letters :: Carries(l, id, [e])
    ensures forall b | b in Bodies(crc, letters) :: Genuine(crc, b, id, log)
  {
    hide Datagram;
    var bodies := Bodies(crc, letters);
    forall b | b in bodies ensures Genuine(crc, b, id, log) {
      var i :| 0 <= i < |bodies| && bodies[i] == b;
      assert letters[i] in letters && b == Datagram(crc, id, letters[i].events);
    }
  }

  /** A turn that takes the server down brings nothing. */
  lemma DownKeepsUp(s: Sys, t: Turn, a: Address, c: Receiver, before: seq<Line>)
    requires Good(s, []) && TurnOk(t) && Turned(s, t).down && UpToDate(c, s, before)
    ensures var q := Turned(s, t);
      && s.posted <= q.posted
      && UpToDate(Informed(c, s, q, a), q, before)
  {
    var q := Turned(s, t);
    if !s.down {
      TurnDownPosts(s, t);
      assert s.log == [];
    }
    assert q.posted[|s.posted|..] == [];
    hide Good, Turned;
  }

  /** One turn more. */
  lemma AnyTurnKeepsUp(s: Sys, t: Turn, a: Address, c: Receiver, before: seq<Line>)
    requires Good(s, []) && TurnOk(t) && UpToDate(c, s, before)
    requires !s.down ==> Hears(s, t, a) && s.game.gameId % RANDOM_MOD != 0
    ensures var q := Turned(s, t);
      && s.posted <= q.posted && q.crc == s.crc && (!q.down ==> q.game.gameId % RANDOM_MOD != 0)
      && UpToDate(Informed(c, s, q, a), q, before + Finished(s, t))
  {
    assert before + [] == before;
    EndsUp(s, t);
    DownForGood(s, t);
    assert !Ended(s, t) ==> Finished(s, t) == [];
    assert Ended(s, t) ==> Finished(s, t) == AllLines(s.log) && !s.down;
    hide Good, UpToDate, Hears, Turned, Finished, Ended, Mail;
    TurnIds(s, t);
    if Turned(s, t).down {
      DownKeepsUp(s, t, a, c, before);
    } else if Ended(s, t) {
      EndKeepsUp(s, t, a, c, before);
    } else {
      TurnKeepsUp(s, t, a, c, before);
    }
  }

  lemma DownForGood(s: Sys, t: Turn)
    ensures s.down ==> Turned(s, t).down
  {
  }

  lemma EndsUp(s: Sys, t: Turn)
    requires Good(s, []) && TurnOk(t)
    ensures Turned(s, t).down ==> !Ended(s, t)
  {
    if Ended(s, t) {
      EndDates(s, t);
    }
  }

  lemma TurnIds(s: Sys, t: Turn)
    requires Good(s, []) && TurnOk(t) && (!s.down ==> s.game.gameId % RANDOM_MOD != 0)
    ensures var q := Turned(s, t); q.crc == s.crc && (!q.down ==> q.game.gameId % RANDOM_MOD != 0)
  {
    var q := Turned(s, t);
    if s.down {
    } else if Ended(s, t) {
      assert Drawn(s.game);
      hide Good, Drawn;
      OnFrameKeeps(s, t.now, t.next);
      DrawnZero(s.game);
    } else {
      TurnGoes(s, t);
    }
  }

  /** The client hears every turn of the run, as long as the server is up. */
  ghost predicate HearsAll(s: Sys, turns: seq<Turn>, a: Address) {
    forall i | 0 <= i < |turns| :: Served(s, turns[..i]).down || Hears(Served(s, turns[..i]), turns[i], a)
  }

  /** Keeping up: a client that is up to date once, and hears every turn from then on, and gets in order all letters
      addressed to it, is up to date at every turn boundary. It has delivered all games that were played to their end
      meanwhile, each once and whole, and holds all of the current one. */
  lemma {:induction false} KeepsUp(s: Sys, turns: seq<Turn>, a: Address, c: Receiver, before: seq<Line>)
    requires Good(s, []) && AllOk(turns) && UpToDate(c, s, before)
    requires !s.down ==> s.game.gameId % RANDOM_MOD != 0
    requires HearsAll(s, turns, a)
    ensures var q := Served(s, turns);
      && Good(q, []) && s.posted <= q.posted && q.crc == s.crc && (!q.down ==> q.game.gameId % RANDOM_MOD != 0)
      && UpToDate(Informed(c, s, q, a), q, before + History(s, turns))
    decreases |turns|
  {
    hide *;
    if turns == [] {
      NothingHeard(s, a, c, before);
    } else {
      var n := |turns| - 1;
      var t, turn, told := Served(s, turns[..n]), turns[n], History(s, turns[..n]);
      HeardBefore(s, turns, a);
      KeepsUp(s, turns[..n], a, c, before);
      TurnGood(t, turn);
      AnyTurnKeepsUp(t, turn, a, Informed(c, s, t, a), before + told);
      MailAppend(c, s, t, Turned(t, turn), a);
      Associate(before, told, Finished(t, turn));
    }
  }

  lemma NothingHeard(s: Sys, a: Address, c: Receiver, before: seq<Line>)
    ensures Served(s, []) == s && Informed(c, s, s, a) == c && before + History(s, []) == before
  {
    assert s.posted[|s.posted|..] == [];
  }

  lemma HeardBefore(s: Sys, turns: seq<Turn>, a: Address)
    requires turns != [] && AllOk(turns) && HearsAll(s, turns, a)
    ensures var n := |turns| - 1; var rest := turns[..n]; var t, turn := Served(s, rest), turns[n];
      && AllOk(rest) && TurnOk(turn) && (t.down || Hears(t, turn, a))
      && Served(s, turns) == Turned(t, turn) && History(s, turns) == History(s, rest) + Finished(t, turn)
      && HearsAll(s, rest, a)
  {
    var rest := turns[..|turns| - 1];
    forall i | 0 <= i < |rest| ensures Served(s, rest[..i]).down || Hears(Served(s, rest[..i]), rest[i], a) {
      assert rest[..i] == turns[..i];
    }
  }

  lemma MailAppend(c: Receiver, s: Sys, t: Sys, q: Sys, a: Address)
    requires s.posted <= t.posted && t.posted <= q.posted && t.crc == s.crc
    ensures s.posted <= q.posted && Informed(c, s, q, a) == Informed(Informed(c, s, t, a), t, q, a)
  {
    var x, y := t.posted[|s.posted|..], q.posted[|t.posted|..];
    assert q.posted[|s.posted|..] == x + y;
    InboxAppend(x, y, a);
    hide Inbox, Bodies;
    BodiesAppend(s.crc, Inbox(x, a), Inbox(y, a));
    ReceiveAppend(s.crc, c, Mail(s.crc, x, a), Mail(s.crc, y, a));
  }

  // ---- Sessions ----

  /** At every turn of the run the address has a client that has not timed out. */
  ghost predicate SeenAll(s: Sys, turns: seq<Turn>, a: Address) {
    forall i | 0 <= i < |turns| :: Seen(Served(s, turns[..i]).conns, turns[i], a)
  }

  ghost predicate Seen(conns: seq<Conn>, t: Turn, a: Address) {
    exists e | e in conns :: e.address == a && SeenAt(e, t)
  }

  /** While an address stays connected over a run without a timeout, its session never gets lower. */
  lemma {:induction false} RunSessionsGrow(s: Sys, turns: seq<Turn>, c: Conn, d: Conn)
    requires Good(s, []) && AllOk(turns) && !Served(s, turns).down
    requires c in s.conns && d in Served(s, turns).conns && d.address == c.address
    requires SeenAll(s, turns, c.address)
    ensures d.session >= c.session
    decreases |turns|
  {
    if turns == [] {
      assert Unique(s.conns);
    } else {
      hide *;
      var n := |turns| - 1;
      var t, turn := Served(s, turns[..n]), turns[n];
      var e := SeenBefore(s, turns, c.address);
      LastTurn(s, turns);
      RunIsGood(s, turns[..n]);
      DownForGood(t, turn);
      RunSessionsGrow(s, turns[..n], c, e);
      SessionsGrow(t, turn, e, d);
    }
  }

  lemma Witness(conns: seq<Conn>, t: Turn, a: Address) returns (e: Conn)
    requires Seen(conns, t, a)
    ensures e in conns && e.address == a && SeenAt(e, t)
  {
    e :| e in conns && e.address == a && SeenAt(e, t);
  }

  lemma SeenBefore(s: Sys, turns: seq<Turn>, a: Address) returns (e: Conn)
    requires turns != [] && SeenAll(s, turns, a)
    ensures var n := |turns| - 1;
      && SeenAll(s, turns[..n], a)
      && e in Served(s, turns[..n]).conns && e.address == a && SeenAt(e, turns[n])
  {
    var rest := turns[..|turns| - 1];
    e := Witness(Served(s, rest).conns, turns[|turns| - 1], a);
    hide Seen, SeenAt;
    forall i | 0 <= i < |rest| ensures Seen(Served(s, rest[..i]).conns, rest[i], a) {
      assert rest[..i] == turns[..i];
    }
  }

  lemma {:induction false} RunIsGood(s: Sys, turns: seq<Turn>)
    requires Good(s, []) && AllOk(turns)
    ensures Good(Served(s, turns), [])
    decreases |turns|
  {
    if turns != [] {
      LastTurn(s, turns);
      hide *;
      RunIsGood(s, turns[..|turns| - 1]);
      TurnGood(Served(s, turns[..|turns| - 1]), turns[|turns| - 1]);
    }
  }
}
