/** The server, the network and the client together. */
module EndToEnd {
  import opened Wire
  import opened Records
  import opened Parsing
  import opened Datagrams
  import opened Packing
  import opened Delivery
  import opened Arenas
  import opened GameRules
  import opened GameProofs
  import opened GameRuns
  import opened Registry
  import opened Outbox
  import opened Service
  import opened ServiceProofs
  import opened ServiceFacts

  function ReceiveDatagrams(crc: Checksum, r: Receiver, datagrams: seq<Bytes>): Receiver
    decreases |datagrams|
  {
    if datagrams == [] then r else ReceiveDatagrams(crc, ReceiveBytes(crc, r, datagrams[0]), datagrams[1..])
  }

  // ---- Catching up ----

  /** The letters in which PostAll sends the parts. */
  function Letters(id: U32, to: Address, parts: seq<seq<Event>>): (ls: seq<Letter>)
    ensures |ls| == |parts|
  {
    seq(|parts|, i requires 0 <= i < |parts| => Letter(id, parts[i], [to]))
  }

  function Bodies(crc: Checksum, letters: seq<Letter>): (bs: seq<Bytes>)
    ensures |bs| == |letters|
  {
    seq(|letters|, i requires 0 <= i < |letters| => Datagram(crc, letters[i].id, letters[i].events))
  }

  lemma {:induction false} PostAllPosts(s: Sys, to: Address, parts: seq<seq<Event>>)
    ensures PostAll(s, to, parts).posted == s.posted + Letters(s.game.gameId, to, parts)
    decreases |parts|
  {
    if parts != [] {
      var l := Letter(s.game.gameId, parts[0], [to]);
      PostAllPosts(Post(s, l), to, parts[1..]);
      assert Letters(s.game.gameId, to, parts) == [l] + Letters(s.game.gameId, to, parts[1..]);
    }
  }

  /** A canonical part of the log arrives as it was sent. */
  lemma Arrives(crc: Checksum, r: Receiver, id: U32, events: seq<Event>)
    requires (forall e | e in events :: e.Canonical()) && TotalLen(events) <= MAX_MESSAGE_DATA_LEN
    ensures ReceiveBytes(crc, r, Datagram(crc, id, events)) == Delivery.Receive(r, id, events)
  {
    DatagramRoundTrip(crc, id, events, []);
    assert Datagram(crc, id, events) + [] == Datagram(crc, id, events);
  }

  /** Consecutive parts of the log to its end, from a place that the client has reached, bring it to the end. */
  lemma {:induction false} Consume(
      crc: Checksum, r: Receiver, log: seq<Event>, before: seq<Line>, k: nat, from: nat,
      parts: seq<seq<Event>>, id: U32, to: Address)
    requires GameLog(log) && from <= k <= |log| && Holds(r, log, before, k) && r.gameId == id
    requires Flatten(parts) == log[from..]
    requires forall p | p in parts :: TotalLen(p) <= MAX_MESSAGE_DATA_LEN
    requires forall e | e in log :: e.Canonical()
    ensures var r' := ReceiveDatagrams(crc, r, Bodies(crc, Letters(id, to, parts)));
      Holds(r', log, before, |log|) && r'.gameId == id
    decreases |parts|
  {
    hide *;
    if parts == [] {
      NothingLeft(crc, r, log, from, id, to);
    } else {
      var p, rest := parts[0], parts[1..];
      var m := from + |p|;
      NextPart(crc, log, from, parts, id, to);
      Arrives(crc, r, id, p);
      HandleStretch(r, log, before, k, from, m);
      NotStopped(r, log, before, k);
      ReceiveHere(r, p);
      Consume(crc, Handle(r, p), log, before, if m > k then m else k, m, rest, id, to);
      ReceiveFirst(crc, r, Bodies(crc, Letters(id, to, parts)));
    }
  }

  lemma NothingLeft(crc: Checksum, r: Receiver, log: seq<Event>, from: nat, id: U32, to: Address)
    requires from <= |log| && Flatten([]) == log[from..]
    ensures from == |log| && ReceiveDatagrams(crc, r, Bodies(crc, Letters(id, to, []))) == r
  {
    assert |log[from..]| == |log| - from;
  }

  lemma ReceiveHere(r: Receiver, events: seq<Event>)
    requires !r.stopped
    ensures Delivery.Receive(r, r.gameId, events) == Handle(r, events)
  {
  }

  lemma ReceiveFirst(crc: Checksum, r: Receiver, datagrams: seq<Bytes>)
    requires datagrams != []
    ensures ReceiveDatagrams(crc, r, datagrams) ==
      ReceiveDatagrams(crc, ReceiveBytes(crc, r, datagrams[0]), datagrams[1..])
  {
  }

  lemma NextPart(crc: Checksum, log: seq<Event>, from: nat, parts: seq<seq<Event>>, id: U32, to: Address)
    requires from <= |log| && parts != [] && Flatten(parts) == log[from..]
    requires forall p | p in parts :: TotalLen(p) <= MAX_MESSAGE_DATA_LEN
    requires forall e | e in log :: e.Canonical()
    ensures var p, rest := parts[0], parts[1..];
      var m := from + |p|;
      && m <= |log| && p == log[from..m] && Flatten(rest) == log[m..]
      && TotalLen(p) <= MAX_MESSAGE_DATA_LEN && (forall e | e in p :: e.Canonical())
      && forall q | q in rest :: TotalLen(q) <= MAX_MESSAGE_DATA_LEN
    ensures var bodies := Bodies(crc, Letters(id, to, parts));
      bodies[0] == Datagram(crc, id, parts[0]) && bodies[1..] == Bodies(crc, Letters(id, to, parts[1..]))
  {
    var p, rest := parts[0], parts[1..];
    assert p in parts && forall q | q in rest :: q in parts;
    assert Letters(id, to, parts)[1..] == Letters(id, to, rest);
    assert Bodies(crc, Letters(id, to, parts))[1..] == Bodies(crc, Letters(id, to, rest));
    CutOff(log, from, p, Flatten(rest));
    hide Datagram, Flatten;
    assert forall e | e in p :: e in log;
  }

  lemma CutOff(log: seq<Event>, from: nat, p: seq<Event>, q: seq<Event>)
    requires from <= |log| && log[from..] == p + q
    ensures from + |p| <= |log| && p == log[from..from + |p|] && q == log[from + |p|..]
  {
    var rest := log[from..];
    assert |rest| == |log| - from && p == rest[..|p|] && q == rest[|p|..];
  }

  lemma NotStopped(r: Receiver, log: seq<Event>, before: seq<Line>, k: nat)
    requires k <= |log| && (k > 0 ==> GameLog(log)) && Holds(r, log, before, k)
    ensures !r.stopped && r.eventNo == k
  {
  }

  lemma InLog(log: seq<Event>)
    requires forall i | 0 <= i < |log| :: log[i].Canonical()
    ensures forall e | e in log :: e.Canonical()
  {
  }

  /** Catching up: a client of the running game asks for what it lacks; the answer, serialised, parsed and handled,
      leaves it with the whole log of the server, every event once and none refused. */
  lemma CatchUp(s: Sys, to: Address, r: Receiver, before: seq<Line>)
    requires Good(s, []) && !s.down && s.game.running && r.gameId == s.game.gameId
    requires r.eventNo <= |s.log| && (r.eventNo > 0 ==> GameLog(s.log)) && Holds(r, s.log, before, r.eventNo)
    ensures GameLog(s.log)
    ensures var q := Reply(s, to, r.eventNo);
      && s.posted <= q.posted && (forall i | |s.posted| <= i < |q.posted| :: q.posted[i].to == [to])
      && Holds(ReceiveDatagrams(s.crc, r, Bodies(s.crc, q.posted[|s.posted|..])), s.log, before, |s.log|)
  {
    var k := r.eventNo;
    LogAcceptable(s.game, s.log);
    InLog(s.log);
    GoodFits(s);
    hide Good, GameLog, Holds, Reply, Bodies;
    var parts := ReplyPosts(s, to, k);
    Consume(s.crc, r, s.log, before, k, k, parts, s.game.gameId, to);
    var ls, q := Letters(s.game.gameId, to, parts), Reply(s, to, k);
    assert q.posted[|s.posted|..] == ls;
    assert forall i | |s.posted| <= i < |q.posted| :: q.posted[i] == ls[i - |s.posted|];
  }

  /** The answer to a request is the rest of the log, cut into datagrams. */
  lemma ReplyPosts(s: Sys, to: Address, next: nat) returns (parts: seq<seq<Event>>)
    requires AllFit(s.log)
    ensures Reply(s, to, next).posted == s.posted + Letters(s.game.gameId, to, parts)
    ensures Flatten(parts) == From(s.log, next) && forall p | p in parts :: TotalLen(p) <= MAX_MESSAGE_DATA_LEN
    ensures forall p | p in parts :: p != []
  {
    var events := From(s.log, next);
    parts := [];
    if events != [] {
      assert forall e | e in events :: e in s.log;
      parts := Pack([], events);
      PackExact([], events);
      assert [] + events == events;
      PostAllPosts(s, to, parts);
    }
  }

  lemma GoodFits(s: Sys)
    requires Good(s, []) && !s.down
    ensures AllFit(s.log)
  {
  }

  // ---- Keeping up ----

  /** What the client holds of a log it holds of any continuation of it. */
  lemma HoldsOn(r: Receiver, log: seq<Event>, longer: seq<Event>, before: seq<Line>, k: nat)
    requires log <= longer && k <= |log| && (k > 0 ==> GameLog(log) && GameLog(longer)) && Holds(r, log, before, k)
    ensures Holds(r, longer, before, k)
  {
    assert Lines(log, k) == Lines(longer, k);
  }

  function Singly(events: seq<Event>): (parts: seq<seq<Event>>)
    ensures |parts| == |events|
  {
    seq(|events|, i requires 0 <= i < |events| => [events[i]])
  }

  lemma {:induction false} FlattenSingly(events: seq<Event>)
    ensures Flatten(Singly(events)) == events
    decreases |events|
  {
    if events != [] {
      FlattenSingly(events[1..]);
      assert Singly(events)[1..] == Singly(events[1..]);
    }
  }

  /** Keeping up: a client that holds the whole log and gets the letters of a frame in order holds the whole log again;
      and a frame never takes the server down. */
  lemma FrameFollowed(s: Sys, now: int, next: Pixels, r: Receiver, before: seq<Line>)
    requires Good(s, []) && !s.down && s.game.running && !Ends(s.game) && r.gameId == s.game.gameId
    requires GameLog(s.log) && Holds(r, s.log, before, |s.log|)
    ensures var q := OnFrame(s, now, next);
      && !q.down && GameLog(q.log) && s.posted <= q.posted && s.log <= q.log
      && Holds(ReceiveDatagrams(s.crc, r, Bodies(s.crc, q.posted[|s.posted|..])), q.log, before, |q.log|)
  {
    var q, m := OnFrame(s, now, next), DoFrame(s.game, next);
    var id, to := s.game.gameId, Address([]);
    FrameLogs(s, now, next);
    LogAcceptable(q.game, q.log);
    InLog(q.log);
    hide Good, GameLog, Holds, OnFrame, DoFrame, Bodies, Ends;
    var parts := Singly(m.events);
    FlattenSingly(m.events);
    HoldsOn(r, s.log, q.log, before, |s.log|);
    SinglesFit(m.events);
    assert q.log[|s.log|..] == m.events;
    Consume(s.crc, r, q.log, before, |s.log|, |s.log|, parts, id, to);
    FramePosts(s, now, next, to);
  }

  lemma SinglesFit(events: seq<Event>)
    requires AllFit(events)
    ensures forall p | p in Singly(events) :: TotalLen(p) <= MAX_MESSAGE_DATA_LEN
  {
    forall p | p in Singly(events) ensures TotalLen(p) <= MAX_MESSAGE_DATA_LEN {
      var i :| 0 <= i < |events| && Singly(events)[i] == p;
      assert events[i] in events;
      TotalOne(events[i]);
    }
  }

  /** The letters of a frame have the same bytes, whoever gets them. */
  lemma FramePosts(s: Sys, now: int, next: Pixels, to: Address)
    requires !s.down && s.game.running && !Ends(s.game) && AllFit(DoFrame(s.game, next).events)
    requires DoFrame(s.game, next).game.gameId == s.game.gameId
    ensures var posted := OnFrame(s, now, next).posted;
      && s.posted <= posted
      && Bodies(s.crc, posted[|s.posted|..]) ==
         Bodies(s.crc, Letters(s.game.gameId, to, Singly(DoFrame(s.game, next).events)))
  {
    var m := DoFrame(s.game, next);
    DeliverPosts(s.(game := m.game), m.events, now);
    hide DoFrame, Deliver, Datagram;
  }

  lemma FrameLogs(s: Sys, now: int, next: Pixels)
    requires Good(s, []) && !s.down && s.game.running && !Ends(s.game)
    ensures var q, m := OnFrame(s, now, next), DoFrame(s.game, next);
      && Good(q, []) && !q.down && q.game.running && q.log == s.log + m.events && m.game.gameId == s.game.gameId
      && AllFit(m.events)
  {
    var m := DoFrame(s.game, next);
    FrameStepKeeps(s.game, s.log, next);
    FrameDraws(GameRuns.State(s.game, s.log), next);
    FrameFits(s.game, s.log, next);
    LoggedAppends(s.log, m.events);
    assert PlayersOk(m.game) && m.game.running && Coupled(s.conns, [], m.game.players);
    hide GameInv, BoxOk, Unique, Coupled, Drawn, DoFrame, PlayersOk;
    DeliverGood(s, m.game, m.events, now, []);
    StillPlaying(s, m.game, m.events, now);
  }

  lemma FrameFits(g: Game, log: seq<Event>, next: Pixels)
    requires GameInv(g, log) && g.running && !Ends(g)
    ensures AllFit(DoFrame(g, next).events) && DoFrame(g, next).game.gameId == g.gameId
  {
    FrameKeeps(g.arena, log[1..], 0, next);
    hide ArenaInv, PlayersOk, HeaderOk, Seated;
  }

  lemma StillPlaying(s: Sys, g: Game, events: seq<Event>, now: int)
    requires !s.down && BoxOk(s) && Unique(s.conns) && AllFit(s.log) && AllFit(events)
    requires PlayersOk(g) && g.running && Coupled(s.conns, [], g.players)
    ensures var r := Deliver(s.(game := g), events, now); r.game.running && r.log == LoggedAll(s.log, events)
  {
    DeliverKeeps(s.(game := g), events, now, []);
    hide PlayersOk, Coupled, BoxOk, Unique, Deliver;
  }

  // ---- The network ----

  /** The bytes are those of some letter of the game. */
  ghost predicate Genuine(crc: Checksum, b: Bytes, id: U32, log: seq<Event>) {
    exists events ::
      && b == Datagram(crc, id, events) && TotalLen(events) <= MAX_MESSAGE_DATA_LEN
      && forall e | e in events :: e in log || e.GameOver?
  }

  /** Whatever the network does to the datagrams of a game, by losing, repeating and reordering them, the client holds
      a prefix of the log that never shrinks, delivered once each and none refused. */
  lemma {:induction false} NetworkSafe(
      crc: Checksum, r: Receiver, log: seq<Event>, before: seq<Line>, k: nat, datagrams: seq<Bytes>)
    returns (k': nat)
    requires GameLog(log) && (forall e | e in log :: e.Canonical())
    requires k <= |log| && Holds(r, log, before, k)
    requires forall b | b in datagrams :: Genuine(crc, b, r.gameId, log)
    ensures k <= k' <= |log| && Holds(ReceiveDatagrams(crc, r, datagrams), log, before, k')
    ensures ReceiveDatagrams(crc, r, datagrams).gameId == r.gameId
    decreases |datagrams|
  {
    k' := k;
    if datagrams != [] {
      var b, rest := datagrams[0], datagrams[1..];
      assert b in datagrams && forall c | c in rest :: c in datagrams;
      var events :| b == Datagram(crc, r.gameId, events) && TotalLen(events) <= MAX_MESSAGE_DATA_LEN
        && forall e | e in events :: e in log || e.GameOver?;
      Arrives(crc, r, r.gameId, events);
      assert FromLog(log, events);
      NotStopped(r, log, before, k);
      hide Datagram, GameLog, Holds, Genuine;
      k' := HandleFromLog(r, log, before, k, events);
      k' := NetworkSafe(crc, Handle(r, events), log, before, k', rest);
    }
  }

  // ---- A stretch of a server's run within one game ----

  /** No turn ends a game. */
  ghost predicate SameGame(s: Sys, turns: seq<Turn>) {
    forall i | 0 <= i < |turns| :: TurnOk(turns[i]) && !Ended(Served(s, turns[..i]), turns[i])
  }

  ghost predicate Ended(s: Sys, t: Turn) {
    !s.down && t.Frame? && s.game.running && Ends(s.game)
  }

  lemma TurnGoes(s: Sys, t: Turn)
    requires Good(s, []) && !s.down && TurnOk(t) && !Ended(s, t)
    ensures Goes(s, Turned(s, t))
  {
    match t
    case Receive(r, from, now, start) => OnActionKeeps(s, r, from, now, start);
    case Timeout(now, start) =>
      SweepKeeps(s, now, start);
    case Frame(now, next) => OnFrameKeeps(s, now, next);
    case Flush(blocks) => OnWriteKeeps(s, blocks);
  }

  /** While one game goes on the log only grows, and all that is posted comes from the log. */
  lemma {:induction false} RunGoes(s: Sys, turns: seq<Turn>)
    requires Good(s, []) && SameGame(s, turns) && !Served(s, turns).down
    ensures Good(Served(s, turns), []) && Goes(s, Served(s, turns)) && !s.down
    decreases |turns|
  {
    if turns != [] {
      var n := |turns| - 1;
      var rest := turns[..n];
      assert SameGame(s, rest) by {
        forall i | 0 <= i < n ensures TurnOk(rest[i]) && !Ended(Served(s, rest[..i]), rest[i]) {
          assert rest[..i] == turns[..i];
        }
      }
      assert TurnOk(turns[n]) && !Ended(Served(s, turns[..n]), turns[n]);
      var t := Served(s, rest);
      assert !t.down;
      hide Good, SameGame, TurnOk, Ended;
      RunGoes(s, rest);
      TurnGoes(t, turns[n]);
      TurnGood(t, turns[n]);
      GoesTogether(s, t, Served(s, turns));
    }
  }

  /** The server after a stretch of one game and, perhaps, the frame that ends it. */
  ghost function Closed(s: Sys, turns: seq<Turn>, end: Option<Turn>): Sys {
    var q := Served(s, turns); if end.Some? then Turned(q, end.value) else q
  }

  /** The stretch was played to its last turn. */
  ghost predicate Played(s: Sys, turns: seq<Turn>, end: Option<Turn>) {
    var q := Served(s, turns);
    && Good(s, []) && SameGame(s, turns) && !q.down && q.game.running
    && (end.Some? ==> TurnOk(end.value) && Ended(q, end.value))
  }

  /** All that was posted meanwhile comes from the log that the game ends with, or is its GAME_OVER. */
  lemma AllGenuine(s: Sys, turns: seq<Turn>, end: Option<Turn>, p: nat)
    requires Played(s, turns, end) && |s.posted| <= p < |Closed(s, turns, end).posted|
    ensures var q, z := Served(s, turns), Closed(s, turns, end);
      z.crc == s.crc && Genuine(s.crc, Bodies(s.crc, z.posted)[p], q.game.gameId, q.log)
  {
    hide Good, SameGame, Datagram, Genuine, News, OnFrame;
    var q, z := Served(s, turns), Closed(s, turns, end);
    RunGoes(s, turns);
    if end.Some? {
      OnFrameKeeps(q, end.value.now, end.value.next);
      NewsGenuine(q.crc, s.posted, q.posted, z.posted, q.game.gameId, q.log, [GameOver(q.game.arena.eventNo)], p);
    } else {
      NewsGenuine(q.crc, s.posted, q.posted, q.posted, q.game.gameId, q.log, [], p);
    }
  }

  lemma NewsGenuine(
      crc: Checksum, a: seq<Letter>, b: seq<Letter>, c: seq<Letter>, id: U32, log: seq<Event>, last: seq<Event>, p: nat)
    requires News(a, b, id, log) && (c == b || News(b, c, id, last)) && |a| <= p < |c|
    requires forall e | e in last :: e.GameOver?
    ensures Genuine(crc, Bodies(crc, c)[p], id, log)
  {
    var l := c[p];
    if p < |b| {
      assert Carries(b[p], id, log) && l == b[p];
    } else {
      assert Carries(l, id, last);
    }
    assert Bodies(crc, c)[p] == Datagram(crc, id, l.events);
  }

  /** The whole system: while a server plays one game to its end, a client that gets any selection of the datagrams
      posted meanwhile, lost, repeated and reordered at will, holds a prefix of the server's log. */
  lemma SystemSafe(
      s: Sys, turns: seq<Turn>, end: Option<Turn>, r: Receiver, before: seq<Line>, k: nat, picks: seq<nat>)
    returns (k': nat)
    requires Played(s, turns, end) && r.gameId == Served(s, turns).game.gameId
    requires var log := Served(s, turns).log; k <= |log| && (k > 0 ==> GameLog(log)) && Holds(r, log, before, k)
    requires forall p | p in picks :: |s.posted| <= p < |Closed(s, turns, end).posted|
    ensures var log, z := Served(s, turns).log, Closed(s, turns, end);
      && GameLog(log) && k <= k' <= |log|
      && Holds(ReceiveDatagrams(z.crc, r, Picked(Bodies(z.crc, z.posted), picks)), log, before, k')
  {
    var q, z := Served(s, turns), Closed(s, turns, end);
    RunGoes(s, turns);
    LogAcceptable(q.game, q.log);
    InLog(q.log);
    hide Good, SameGame, GameLog, Holds;
    var datagrams := Picked(Bodies(z.crc, z.posted), picks);
    SameCrc(s, turns, end);
    forall b | b in datagrams ensures Genuine(z.crc, b, r.gameId, q.log) {
      var i :| 0 <= i < |datagrams| && datagrams[i] == b;
      assert picks[i] in picks;
      AllGenuine(s, turns, end, picks[i]);
    }
    k' := NetworkSafe(z.crc, r, q.log, before, k, datagrams);
  }

  lemma SameCrc(s: Sys, turns: seq<Turn>, end: Option<Turn>)
    requires Played(s, turns, end)
    ensures Closed(s, turns, end).crc == s.crc
  {
    RunGoes(s, turns);
    if end.Some? {
      OnFrameKeeps(Served(s, turns), end.value.now, end.value.next);
    }
  }

  function Picked(all: seq<Bytes>, picks: seq<nat>): seq<Bytes>
    requires forall p | p in picks :: p < |all|
  {
    seq(|picks|, i requires 0 <= i < |picks| => assert picks[i] in picks; all[picks[i]])
  }

  /** A client that comes from another game starts this one from its beginning, on top of what it had delivered. */
  lemma Entering(crc: Checksum, r: Receiver, id: U32, log: seq<Event>, datagrams: seq<Bytes>)
    requires !r.stopped && r.gameId != id && datagrams != []
    requires (forall e | e in log :: e.Canonical()) && Genuine(crc, datagrams[0], id, log)
    ensures var entered := r.(gameId := id, eventNo := 0);
      && Holds(entered, log, r.delivered, 0)
      && ReceiveDatagrams(crc, r, datagrams) == ReceiveDatagrams(crc, entered, datagrams)
  {
    var b := datagrams[0];
    var events :| b == Datagram(crc, id, events) && TotalLen(events) <= MAX_MESSAGE_DATA_LEN
      && forall e | e in events :: e in log || e.GameOver?;
    var entered := r.(gameId := id, eventNo := 0);
    Arrives(crc, r, id, events);
    Arrives(crc, entered, id, events);
    assert r.delivered + Lines(log, 0) == r.delivered;
  }
}
