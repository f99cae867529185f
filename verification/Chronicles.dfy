/** Whole runs of the server with many games, seen by a client behind a lossy network. */
module Chronicles {
  import opened Wire
  import opened Records
  import opened Parsing
  import opened Generator
  import opened Delivery
  import opened Arenas
  import opened GameRules
  import opened GameRuns
  import opened Service
  import opened ServiceProofs
  import opened Starting
  import opened EndToEnd

  /** The chronicle after a turn that leads to q; a game that takes the server down has no story. */
  ghost function Continued(games: Games, q: Sys): Games {
    if q.game.running && !q.down then games[q.game.gameId := q.log] else games
  }

  /** The log of every game of the run, by its id, as it was last. */
  ghost function Chronicle(s: Sys, turns: seq<Turn>): Games
    decreases |turns|
  {
    if turns == [] then map[] else Continued(Chronicle(s, turns[..|turns| - 1]), Served(s, turns))
  }

  /** No two games of the run have the same id. */
  ghost predicate FreshIds(s: Sys, turns: seq<Turn>)
    decreases |turns|
  {
    turns == [] ||
    var before := turns[..|turns| - 1];
    && FreshIds(s, before)
    && (Ended(Served(s, before), turns[|turns| - 1]) ==> Served(s, turns).game.gameId !in Chronicle(s, before))
  }

  ghost predicate AllOk(turns: seq<Turn>) {
    forall i | 0 <= i < |turns| :: TurnOk(turns[i])
  }

  /** The letter belongs to a game of the chronicle. */
  ghost predicate Told(games: Games, l: Letter) {
    && l.id in games && TotalLen(l.events) <= MAX_MESSAGE_DATA_LEN
    && forall e | e in l.events :: e.GameOver? || e in games[l.id]
  }

  ghost predicate Playable(log: seq<Event>) {
    GameLog(log) && forall e | e in log :: e.Canonical()
  }

  ghost predicate Chronicled(games: Games, q: Sys) {
    && (forall id | id in games :: Playable(games[id]))
    && (!q.down ==>
          if q.game.running then q.game.gameId in games && games[q.game.gameId] == q.log else q.game.gameId !in games)
    && forall i | 0 <= i < |q.posted| :: Told(games, q.posted[i])
  }

  lemma GoesChronicled(games: Games, s: Sys, r: Sys)
    requires Chronicled(games, s) && Good(s, []) && Good(r, []) && Goes(s, r) && !r.down
    ensures Chronicled(Continued(games, r), r)
  {
    GamesKept(games, s, r);
    StoriesKept(games, s, r);
    hide Good, Goes, Told, Playable, Continued;
  }

  lemma GamesKept(games: Games, s: Sys, r: Sys)
    requires Chronicled(games, s) && Good(s, []) && Good(r, []) && Goes(s, r) && !r.down
    ensures var next := Continued(games, r);
      && (forall id | id in next :: Playable(next[id]))
      && (if r.game.running then r.game.gameId in next && next[r.game.gameId] == r.log else r.game.gameId !in next)
  {
    LogPlayable(r);
    GoesRunning(s, r);
    hide Good, Goes, Told, Playable;
  }

  lemma StoriesKept(games: Games, s: Sys, r: Sys)
    requires Chronicled(games, s) && Good(s, []) && Good(r, []) && Goes(s, r) && !r.down
    ensures forall i | 0 <= i < |r.posted| :: Told(Continued(games, r), r.posted[i])
  {
    assert s.posted <= r.posted;
    hide *;
    forall i | 0 <= i < |r.posted| ensures Told(Continued(games, r), r.posted[i]) {
      if i < |s.posted| {
        assert r.posted[i] == s.posted[i];
        OldStories(games, s, r, i);
      } else {
        NewStories(games, s, r, i);
      }
    }
  }

  lemma LogPlayable(r: Sys)
    requires Good(r, []) && !r.down
    ensures r.game.running ==> Playable(r.log)
  {
    if r.game.running {
      LogAcceptable(r.game, r.log);
      InLog(r.log);
    }
  }

  lemma NewStories(games: Games, s: Sys, r: Sys, i: nat)
    requires Good(r, []) && Goes(s, r) && !r.down && |s.posted| <= i < |r.posted|
    ensures Told(Continued(games, r), r.posted[i])
  {
    assert Carries(r.posted[i], s.game.gameId, r.log);
    assert r.posted[i].events[0] in r.posted[i].events;
  }

  lemma OldStories(games: Games, s: Sys, r: Sys, i: nat)
    requires Chronicled(games, s) && Good(s, []) && Good(r, []) && Goes(s, r) && !r.down && i < |s.posted|
    ensures Told(Continued(games, r), s.posted[i])
  {
    assert Told(games, s.posted[i]);
    GoesRunning(s, r);
    hide Good;
    assert forall e | e in s.log :: e in r.log;
  }

  lemma EndChronicled(games: Games, s: Sys, r: Sys)
    requires Chronicled(games, s) && !s.down && s.game.running && Good(r, []) && !r.down && r.log == []
    requires News(s.posted, r.posted, s.game.gameId, [GameOver(s.game.arena.eventNo)])
    requires r.game.gameId !in games
    ensures Chronicled(games, r) && Continued(games, r) == games
  {
    forall i | 0 <= i < |r.posted| ensures Told(games, r.posted[i]) {
      if i < |s.posted| {
        assert r.posted[i] == s.posted[i];
      } else {
        assert Carries(r.posted[i], s.game.gameId, [GameOver(s.game.arena.eventNo)]);
      }
    }
  }

  lemma TurnChronicled(games: Games, t: Sys, turn: Turn)
    requires Good(t, []) && TurnOk(turn) && Chronicled(games, t)
    requires Ended(t, turn) ==> Turned(t, turn).game.gameId !in games
    ensures Chronicled(Continued(games, Turned(t, turn)), Turned(t, turn))
  {
    var q := Turned(t, turn);
    if t.down {
      hide Good, Told;
    } else if q.down {
      TurnDownPosts(t, turn);
      hide Good, Told, Turned;
    } else {
      TurnGood(t, turn);
      TurnWritten(games, t, turn);
    }
  }

  lemma TurnWritten(games: Games, t: Sys, turn: Turn)
    requires Good(t, []) && !t.down && TurnOk(turn) && !Turned(t, turn).down && Chronicled(games, t)
    requires Ended(t, turn) ==> Turned(t, turn).game.gameId !in games
    ensures Chronicled(Continued(games, Turned(t, turn)), Turned(t, turn))
  {
    hide Good, Chronicled, TurnOk, Turned, Continued, Goes, News;
    var q := Turned(t, turn);
    TurnGood(t, turn);
    if Ended(t, turn) {
      EndPosts(t, turn);
      EndChronicled(games, t, q);
    } else {
      TurnGoes(t, turn);
      GoesChronicled(games, t, q);
    }
  }

  lemma EndPosts(t: Sys, turn: Turn)
    requires Good(t, []) && !t.down && Ended(t, turn)
    ensures var q := Turned(t, turn);
      q.log == [] && News(t.posted, q.posted, t.game.gameId, [GameOver(t.game.arena.eventNo)])
  {
    hide Good, News, OnFrame;
    OnFrameKeeps(t, turn.now, turn.next);
  }

  /** Over a run all that is posted belongs to the game whose id it carries. */
  lemma {:induction false} RunChronicled(s: Sys, turns: seq<Turn>)
    requires Good(s, []) && s.posted == [] && !s.game.running && AllOk(turns)
    requires FreshIds(s, turns)
    ensures Good(Served(s, turns), []) && Chronicled(Chronicle(s, turns), Served(s, turns))
    decreases |turns|
  {
    if turns != [] {
      LastTurn(s, turns);
      var n := |turns| - 1;
      var t, turn := Served(s, turns[..n]), turns[n];
      hide *;
      RunChronicled(s, turns[..n]);
      TurnGood(t, turn);
      TurnChronicled(Chronicle(s, turns[..n]), t, turn);
    }
  }

  // ---- The client ----

  function PacketOf(l: Letter): Packet {
    Packet(l.id, l.events)
  }

  function PickedPackets(posted: seq<Letter>, picks: seq<nat>): (ps: seq<Packet>)
    requires forall p | p in picks :: p < |posted|
    ensures |ps| == |picks|
  {
    seq(|picks|, i requires 0 <= i < |picks| => assert picks[i] in picks; PacketOf(posted[picks[i]]))
  }

  lemma {:induction false} ReceiveDatagramsSnoc(crc: Checksum, r: Receiver, datagrams: seq<Bytes>, b: Bytes)
    ensures ReceiveDatagrams(crc, r, datagrams + [b]) == ReceiveBytes(crc, ReceiveDatagrams(crc, r, datagrams), b)
    decreases |datagrams|
  {
    if datagrams == [] {
      assert [b][1..] == [] && datagrams + [b] == [b];
    } else {
      assert (datagrams + [b])[1..] == datagrams[1..] + [b];
      ReceiveDatagramsSnoc(crc, ReceiveBytes(crc, r, datagrams[0]), datagrams[1..], b);
    }
  }

  /** The bytes of canonical letters are received as the letters themselves. */
  lemma {:induction false} ReceivedAsSent(crc: Checksum, games: Games, posted: seq<Letter>, picks: seq<nat>)
    requires forall p | p in picks :: p < |posted| && Told(games, posted[p])
    requires forall id | id in games :: forall e | e in games[id] :: e.Canonical()
    ensures ReceiveDatagrams(crc, INITIAL, Picked(Bodies(crc, posted), picks)) ==
      ReceiveAll(INITIAL, PickedPackets(posted, picks))
    decreases |picks|
  {
    if picks != [] {
      var n := |picks| - 1;
      assert picks[n] in picks && forall p | p in picks[..n] :: p in picks;
      var rest, l := picks[..n], posted[picks[n]];
      var before, packets := Picked(Bodies(crc, posted), rest), PickedPackets(posted, picks);
      assert Told(games, l) && picks == rest + [picks[n]];
      PickedSnoc(crc, posted, rest, picks[n]);
      hide Datagram, Picked, PickedPackets, Bodies;
      ReceivedAsSent(crc, games, posted, rest);
      ReceiveDatagramsSnoc(crc, INITIAL, before, Datagram(crc, l.id, l.events));
      Arrives(crc, ReceiveAll(INITIAL, packets[..n]), l.id, l.events);
    }
  }

  lemma PickedSnoc(crc: Checksum, posted: seq<Letter>, rest: seq<nat>, p: nat)
    requires p < |posted| && forall q | q in rest :: q < |posted|
    ensures var picks, l := rest + [p], posted[p];
      && (forall q | q in picks :: q < |posted|)
      && Picked(Bodies(crc, posted), picks) == Picked(Bodies(crc, posted), rest) + [Datagram(crc, l.id, l.events)]
      && PickedPackets(posted, picks)[..|rest|] == PickedPackets(posted, rest)
      && PickedPackets(posted, picks)[|rest|] == Packet(l.id, l.events)
  {
    hide Datagram;
  }

  /** The whole system over any run from boot whose games have different ids: whatever datagrams the network gives a
      fresh client, in whatever order and however often, the client has delivered one prefix of a game's log after the
      other, one for every stretch of datagrams of the same game, and has refused none. */
  lemma EveryDelivery(crc: Checksum, width: U32, height: U32, seed: U32, turns: seq<Turn>, picks: seq<nat>)
    requires BoardOk(width, height)
    requires var s := Boot(crc, width, height, seed); AllOk(turns) && FreshIds(s, turns)
    requires var s := Boot(crc, width, height, seed); forall p | p in picks :: p < |Served(s, turns).posted|
    ensures var s := Boot(crc, width, height, seed);
      var q, games := Served(s, turns), Chronicle(s, turns);
      var r := ReceiveDatagrams(crc, INITIAL, Picked(Bodies(crc, q.posted), picks));
      var packets := PickedPackets(q.posted, picks);
      && Ran(games, Ids(packets), Trace(packets), r)
      && r.delivered == DeliveredIn(games, Trace(packets)) && !r.stopped
      && (Replayed(Trace(packets)) <==> Restarts(packets))
  {
    var s := Boot(crc, width, height, seed);
    BootGood(crc, width, height, seed);
    RunChronicled(s, turns);
    var q, games := Served(s, turns), Chronicle(s, turns);
    hide Good, FreshIds, AllOk, Served, Chronicle, Boot;
    PickedFromGames(games, q, picks);
    ReceivedAsSent(crc, games, q.posted, picks);
    var packets := PickedPackets(q.posted, picks);
    DeliveryByRuns(games, packets);
    NoRestartIff(games, packets);
  }

  lemma PickedFromGames(games: Games, q: Sys, picks: seq<nat>)
    requires Chronicled(games, q) && forall p | p in picks :: p < |q.posted|
    ensures FromGames(games, PickedPackets(q.posted, picks))
    ensures forall p | p in picks :: Told(games, q.posted[p])
    ensures forall id | id in games :: forall e | e in games[id] :: e.Canonical()
  {
    assert forall id | id in games :: Playable(games[id]);
    var packets := PickedPackets(q.posted, picks);
    forall p | p in packets ensures p.id in games && FromLog(games[p.id], p.events) {
      var i :| 0 <= i < |packets| && packets[i] == p;
      assert picks[i] in picks;
      ToldFromLog(games, q.posted[picks[i]]);
    }
  }

  /** The same with nothing assumed of the ids: it is enough that the modulus does not divide the seed and that the
      run takes fewer draws than the period of the generator. */
  lemma ShortRunDelivery(crc: Checksum, width: U32, height: U32, seed: U32, turns: seq<Turn>, picks: seq<nat>)
    requires BoardOk(width, height) && AllOk(turns) && seed % RANDOM_MOD != 0
    requires var s := Boot(crc, width, height, seed);
      && DrawsTaken(s, turns) < PERIOD
      && forall p | p in picks :: p < |Served(s, turns).posted|
    ensures var s := Boot(crc, width, height, seed);
      var q, games := Served(s, turns), Chronicle(s, turns);
      var r := ReceiveDatagrams(crc, INITIAL, Picked(Bodies(crc, q.posted), picks));
      var packets := PickedPackets(q.posted, picks);
      && Ran(games, Ids(packets), Trace(packets), r)
      && r.delivered == DeliveredIn(games, Trace(packets)) && !r.stopped
      && (Replayed(Trace(packets)) <==> Restarts(packets))
  {
    var s := Boot(crc, width, height, seed);
    BootGood(crc, width, height, seed);
    ShortRunFresh(s, turns);
    hide Good, AllOk, FreshIds, Chronicle, Bodies, Ran, DeliveredIn, Boot;
    EveryDelivery(crc, width, height, seed, turns, picks);
  }

  // ---- Ids ----

  /** The draws that the generator took between the ids of the first and the last game. */
  ghost function DrawsTaken(s: Sys, turns: seq<Turn>): nat
    decreases |turns|
  {
    if turns == [] then 0 else
    var before := turns[..|turns| - 1];
    var t := Served(s, before);
    DrawsTaken(s, before) + Draws(t, turns[|turns| - 1])
  }

  /** The draws between the ids of a game that ends and the next. */
  ghost function Draws(t: Sys, turn: Turn): nat {
    if Ended(t, turn) then 3 * |t.game.arena.snakes| + 1 else 0
  }

  /** How many ids were drawn for games that may be in the chronicle, when the current id came after these draws. */
  function Named(q: Sys, draws: nat): nat {
    if q.game.running || q.down then draws + 1 else draws
  }

  /** The games of the chronicle got their ids at different draws, the current game the last one. */
  ghost predicate Dated(games: Games, seed: U32, q: Sys, draws: nat) {
    && (!q.down ==> q.game.gameId == Advance(seed, draws))
    && forall id | id in games :: EarlierId(seed, id, Named(q, draws))
  }

  ghost predicate EarlierId(seed: U32, id: U32, draws: nat) {
    exists j: nat | j < draws :: id == Advance(seed, j)
  }

  lemma LaterId(seed: U32, id: U32, draws: nat, more: nat)
    requires EarlierId(seed, id, draws) && draws <= more
    ensures EarlierId(seed, id, more)
  {
  }

  lemma TurnDated(games: Games, seed: U32, t: Sys, turn: Turn, draws: nat)
    requires Good(t, []) && TurnOk(turn) && Dated(games, seed, t, draws)
    ensures Dated(Continued(games, Turned(t, turn)), seed, Turned(t, turn), draws + Draws(t, turn))
  {
    hide *;
    if t.down {
      DownDated(games, seed, t, turn, draws);
    } else if Ended(t, turn) {
      EndDated(games, seed, t, turn, draws);
    } else {
      NoDraws(t, turn);
      TurnGood(t, turn);
      TurnGoes(t, turn);
      IdGoes(games, seed, t, Turned(t, turn), draws);
    }
  }

  lemma NoDraws(t: Sys, turn: Turn)
    ensures !Ended(t, turn) ==> Draws(t, turn) == 0
    ensures Ended(t, turn) ==> Draws(t, turn) == 3 * |t.game.arena.snakes| + 1 && !t.down
  {
  }

  lemma DownDated(games: Games, seed: U32, t: Sys, turn: Turn, draws: nat)
    requires t.down && Dated(games, seed, t, draws)
    ensures Dated(Continued(games, Turned(t, turn)), seed, Turned(t, turn), draws + Draws(t, turn))
  {
    assert Turned(t, turn) == t && Continued(games, t) == games && Draws(t, turn) == 0;
    hide *;
  }

  lemma EndDated(games: Games, seed: U32, t: Sys, turn: Turn, draws: nat)
    requires Good(t, []) && TurnOk(turn) && Ended(t, turn) && Dated(games, seed, t, draws)
    ensures Dated(Continued(games, Turned(t, turn)), seed, Turned(t, turn), draws + Draws(t, turn))
  {
    hide *;
    NoDraws(t, turn);
    EndDates(t, turn);
    IdDrawn(games, seed, t, Turned(t, turn), draws, Draws(t, turn));
  }

  lemma IdGoes(games: Games, seed: U32, t: Sys, q: Sys, draws: nat)
    requires Dated(games, seed, t, draws) && Good(t, []) && Good(q, []) && !t.down && Goes(t, q)
    ensures Dated(Continued(games, q), seed, q, draws)
  {
    hide *;
    if q.down {
      IdLost(games, seed, t, q, draws);
    } else {
      GoesRunning(t, q);
      IdStays(games, seed, t, q, draws);
    }
  }

  lemma IdDrawn(games: Games, seed: U32, t: Sys, q: Sys, draws: nat, more: nat)
    requires Dated(games, seed, t, draws) && more > 0 && !q.game.running && !q.down && !t.down
    requires q.game.gameId == Advance(t.game.gameId, more)
    ensures Dated(Continued(games, q), seed, q, draws + more)
  {
    hide Advance, EarlierId;
    AdvanceAdd(seed, draws, more);
    forall id | id in games ensures EarlierId(seed, id, draws + more) {
      LaterId(seed, id, Named(t, draws), draws + more);
    }
  }

  lemma IdStays(games: Games, seed: U32, t: Sys, q: Sys, draws: nat)
    requires Dated(games, seed, t, draws) && q.game.gameId == t.game.gameId && (t.game.running ==> q.game.running)
    requires !t.down && !q.down
    ensures Dated(Continued(games, q), seed, q, draws)
  {
    hide Advance;
    forall id | id in Continued(games, q) ensures EarlierId(seed, id, Named(q, draws)) {
      if id in games {
        LaterId(seed, id, Named(t, draws), Named(q, draws));
      }
    }
  }

  lemma IdLost(games: Games, seed: U32, t: Sys, q: Sys, draws: nat)
    requires Dated(games, seed, t, draws) && q.down
    ensures Dated(Continued(games, q), seed, q, draws)
  {
    hide Advance, EarlierId;
    forall id | id in games ensures EarlierId(seed, id, Named(q, draws)) {
      LaterId(seed, id, Named(t, draws), Named(q, draws));
    }
  }

  /** The id of the next game is the draw behind those of the last one. */
  lemma EndDates(t: Sys, turn: Turn)
    requires Good(t, []) && !t.down && Ended(t, turn) && TurnOk(turn)
    ensures var q := Turned(t, turn);
      !q.down && !q.game.running && q.game.gameId == Advance(t.game.gameId, 3 * |t.game.arena.snakes| + 1)
  {
    assert Turned(t, turn) == OnFrame(t, turn.now, turn.next) && t.game.running && Ends(t.game);
    hide *;
    OnFrameKeeps(t, turn.now, turn.next);
    NextDraw(t);
    NoLogNoGame(OnFrame(t, turn.now, turn.next));
  }

  lemma NextDraw(t: Sys)
    requires Good(t, []) && !t.down && t.game.running
    ensures t.game.rand == Advance(t.game.gameId, 3 * |t.game.arena.snakes| + 1)
  {
    hide Advance;
  }

  lemma NoLogNoGame(q: Sys)
    requires Good(q, []) && !q.down && q.log == []
    ensures !q.game.running
  {
  }

  lemma GoesRunning(s: Sys, r: Sys)
    requires Good(s, []) && Good(r, []) && Goes(s, r) && !r.down
    ensures s.game.running ==> r.game.running
    ensures r.game.gameId == s.game.gameId
  {
    assert s.log != [] ==> r.log != [];
  }

  /** A run that takes fewer draws than the period gives no id to two games. */
  lemma {:induction false} ShortRunFresh(s: Sys, turns: seq<Turn>)
    requires Good(s, []) && !s.game.running && AllOk(turns) && s.game.gameId % RANDOM_MOD != 0
    requires DrawsTaken(s, turns) < PERIOD && !s.down
    ensures FreshIds(s, turns) && Good(Served(s, turns), [])
    ensures Dated(Chronicle(s, turns), s.game.gameId, Served(s, turns), DrawsTaken(s, turns))
    decreases |turns|
  {
    hide Good, TurnOk, Ended, Turned, AllOk, Dated, Advance, Continued;
    if turns == [] {
      NothingDated(s);
    } else {
      LastTurn(s, turns);
      hide *;
      var n, seed := |turns| - 1, s.game.gameId;
      var t, turn, games := Served(s, turns[..n]), turns[n], Chronicle(s, turns[..n]);
      ShortRunFresh(s, turns[..n]);
      TurnGood(t, turn);
      TurnDated(games, seed, t, turn, DrawsTaken(s, turns[..n]));
      if Ended(t, turn) {
        NewId(games, seed, t, turn, DrawsTaken(s, turns[..n]));
      }
    }
  }

  /** What the last turn adds to a run. */
  lemma LastTurn(s: Sys, turns: seq<Turn>)
    requires turns != [] && AllOk(turns)
    ensures var n := |turns| - 1;
      var t, turn, q := Served(s, turns[..n]), turns[n], Served(s, turns);
      && AllOk(turns[..n]) && TurnOk(turn) && q == Turned(t, turn)
      && Chronicle(s, turns) == Continued(Chronicle(s, turns[..n]), q)
      && DrawsTaken(s, turns) ==
         DrawsTaken(s, turns[..n]) + Draws(t, turn)
      && (FreshIds(s, turns) <==>
            FreshIds(s, turns[..n]) && (Ended(t, turn) ==> q.game.gameId !in Chronicle(s, turns[..n])))
  {
  }

  lemma NothingDated(s: Sys)
    requires !s.down
    ensures Dated(map[], s.game.gameId, s, 0)
  {
  }

  lemma NewId(games: Games, seed: U32, t: Sys, turn: Turn, draws: nat)
    requires Good(t, []) && TurnOk(turn) && Ended(t, turn) && Dated(games, seed, t, draws)
    requires seed % RANDOM_MOD != 0 && draws + Draws(t, turn) < PERIOD
    ensures Turned(t, turn).game.gameId !in games
  {
    assert t.game.running && !t.down;
    hide Good, TurnOk, Ended, Turned, Draws, Advance, EarlierId;
    NoDraws(t, turn);
    EndDates(t, turn);
    LaterDraw(games, seed, Turned(t, turn).game.gameId, draws, Draws(t, turn));
  }

  lemma LaterDraw(games: Games, seed: U32, id: U32, draws: nat, more: nat)
    requires seed % RANDOM_MOD != 0 && 0 < more && draws + more < PERIOD
    requires id == Advance(Advance(seed, draws), more)
    requires forall other | other in games :: EarlierId(seed, other, draws + 1)
    ensures id !in games
  {
    hide Advance;
    AdvanceAdd(seed, draws, more);
    if id in games {
      var j: nat :| j < draws + 1 && id == Advance(seed, j);
      DrawsDiffer(seed, j, draws + more);
    }
  }

  lemma ToldFromLog(games: Games, l: Letter)
    requires Told(games, l) && GameLog(games[l.id])
    ensures FromLog(games[l.id], l.events)
  {
    var log := games[l.id];
    forall e | e in l.events ensures e.GameOver? || (e.no < |log| && e == log[e.no]) {
      if !e.GameOver? {
        var i :| 0 <= i < |log| && log[i] == e;
      }
    }
  }
}
