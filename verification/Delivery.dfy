/** Client::receive_message: delivery of a game's log to the GUI over a channel that loses, repeats and reorders. */
module Delivery {
  import opened Wire
  import opened Records
  import opened Parsing

  /** to_string: one constructor for each form of line. */
  datatype Line =
    | NewGameLine(maxX: U32, maxY: U32, players: seq<Name>)
    | PixelLine(x: U32, y: U32, player: Name)
    | EliminatedLine(player: Name)
    | GameOverLine

  function Render(e: Event, players: seq<Name>): Line
    requires (e.Pixel? || e.Eliminated?) ==> e.player < |players|
  {
    match e
    case NewGame(_, x, y, _, _) => NewGameLine(x, y, players)
    case Pixel(_, player, x, y) => PixelLine(x, y, players[player])
    case Eliminated(_, player) => EliminatedLine(players[player])
    case GameOver(_) => GameOverLine
  }

  /** The fields of Client that receive_message works on; delivered lists the lines ever queued for the GUI. */
  datatype Receiver = Receiver(
    gameId: U32, eventNo: U32, width: U32, height: U32, players: seq<Name>, delivered: seq<Line>, stopped: bool)

  const INITIAL := Receiver(0, 0, 0, 0, [], [], false)

  /** initialize_players. */
  function Initialized(r: Receiver, e: Event): Receiver {
    if e.NewGame? then r.(width := e.maxX, height := e.maxY, players := e.names) else r
  }

  /** The body of the loop for an event that carries the expected number and is not GAME_OVER. */
  function Accept(r: Receiver, e: Event): Receiver {
    var r := Initialized(r, e);
    if e.ValidInGame(r.width, r.height, |r.players|)
    then r.(eventNo := Succ(r.eventNo), delivered := r.delivered + [Render(e, r.players)])
    else r.(stopped := true)
  }

  /** The loop over the events of a message. */
  function Handle(r: Receiver, events: seq<Event>): Receiver
    decreases |events|
  {
    if r.stopped || events == [] then r
    else if events[0].no < r.eventNo then Handle(r, events[1..])
    else if events[0].no > r.eventNo then r
    else if events[0].GameOver? then Handle(r, events[1..])
    else Handle(Accept(r, events[0]), events[1..])
  }

  function Receive(r: Receiver, id: U32, events: seq<Event>): Receiver {
    if r.stopped then r
    else Handle(if r.gameId != id then r.(gameId := id, eventNo := 0) else r, events)
  }

  /** receive_message on the bytes of a datagram. */
  function ReceiveBytes(crc: Checksum, r: Receiver, b: Bytes): Receiver {
    match Parse(crc, b)
    case Message(id, events) => Receive(r, id, events)
    case Failed(_) => r.(stopped := true)
  }

  datatype Packet = Packet(id: U32, events: seq<Event>)

  function ReceiveAll(r: Receiver, packets: seq<Packet>): Receiver {
    if packets == [] then r else
    var last := packets[|packets| - 1];
    Receive(ReceiveAll(r, packets[..|packets| - 1]), last.id, last.events)
  }

  // ---- One game ----

  /** A log as a server keeps it: numbered from zero, NEW_GAME first and nowhere else, every event valid in the game
      that NEW_GAME describes. */
  ghost predicate GameLog(log: seq<Event>) {
    && 0 < |log| < 0x1_0000_0000
    && log[0].NewGame?
    && forall i | 0 <= i < |log| ::
         && log[i].no == i
         && (log[i].NewGame? ==> i == 0)
         && !log[i].GameOver?
         && log[i].ValidInGame(log[0].maxX, log[0].maxY, |log[0].names|)
  }

  /** What a datagram of the game can carry: events of its log, and the GAME_OVER that is not logged. */
  ghost predicate FromLog(log: seq<Event>, events: seq<Event>) {
    forall e | e in events :: e.GameOver? || (e.no < |log| && e == log[e.no])
  }

  /** The first k events as the GUI gets to see them. */
  function Lines(log: seq<Event>, k: nat): (lines: seq<Line>)
    requires k <= |log| && (k > 0 ==> GameLog(log))
  {
    seq(k, i requires 0 <= i < k => Render(log[i], log[0].names))
  }

  /** The client holds exactly the first k events of the log, on top of what it had delivered before. */
  ghost predicate Holds(r: Receiver, log: seq<Event>, before: seq<Line>, k: nat)
    requires k <= |log| && (k > 0 ==> GameLog(log))
  {
    && !r.stopped && r.eventNo == k
    && r.delivered == before + Lines(log, k)
    && (k > 0 ==> r.width == log[0].maxX && r.height == log[0].maxY && r.players == log[0].names)
  }

  lemma AcceptNext(r: Receiver, log: seq<Event>, before: seq<Line>, k: nat)
    requires GameLog(log) && k < |log| && Holds(r, log, before, k)
    ensures Holds(Accept(r, log[k]), log, before, k + 1) && Accept(r, log[k]).gameId == r.gameId
  {
    assert Lines(log, k + 1) == Lines(log, k) + [Render(log[k], log[0].names)];
    assert before + Lines(log, k + 1) == before + Lines(log, k) + [Render(log[k], log[0].names)];
  }

  /** Whatever events of the log a datagram carries, the client afterwards holds a prefix that is no shorter. */
  lemma {:induction false} HandleFromLog(r: Receiver, log: seq<Event>, before: seq<Line>, k: nat, events: seq<Event>)
    returns (k': nat)
    requires GameLog(log) && k <= |log| && Holds(r, log, before, k) && FromLog(log, events)
    ensures k <= k' <= |log| && Holds(Handle(r, events), log, before, k')
    ensures Handle(r, events).gameId == r.gameId
    decreases |events|
  {
    k' := k;
    if events != [] && events[0].no <= r.eventNo {
      assert events[0] in events && forall e | e in events[1..] :: e in events;
      if events[0].no < r.eventNo || events[0].GameOver? {
        k' := HandleFromLog(r, log, before, k, events[1..]);
      } else {
        AcceptNext(r, log, before, k);
        k' := HandleFromLog(Accept(r, log[k]), log, before, k + 1, events[1..]);
      }
    }
  }

  /** A stretch of the log that the client can reach brings it to the end of that stretch. */
  lemma {:induction false} HandleStretch(r: Receiver, log: seq<Event>, before: seq<Line>, k: nat, from: nat, to: nat)
    requires GameLog(log) && k <= |log| && Holds(r, log, before, k) && from <= to <= |log| && from <= k
    ensures Holds(Handle(r, log[from..to]), log, before, if to > k then to else k)
    ensures Handle(r, log[from..to]).gameId == r.gameId
    decreases |log| - from
  {
    if from < to {
      assert log[from..to][1..] == log[from + 1..to];
      if from < k {
        HandleStretch(r, log, before, k, from + 1, to);
      } else {
        AcceptNext(r, log, before, k);
        HandleStretch(Accept(r, log[k]), log, before, k + 1, from + 1, to);
      }
    }
  }

  /** Safe delivery: from any datagrams of one game, in any order, with any losses and repetitions, the GUI gets
      exactly a prefix of the log, and nothing that was delivered is taken back. */
  lemma {:induction false} SafeDelivery(r: Receiver, log: seq<Event>, before: seq<Line>, k: nat, packets: seq<Packet>)
    returns (k': nat)
    requires GameLog(log) && k <= |log| && Holds(r, log, before, k)
    requires forall p | p in packets :: p.id == r.gameId && FromLog(log, p.events)
    ensures k <= k' <= |log| && Holds(ReceiveAll(r, packets), log, before, k')
    ensures ReceiveAll(r, packets).gameId == r.gameId
    decreases |packets|
  {
    if packets == [] {
      k' := k;
    } else {
      var last := packets[|packets| - 1];
      assert last in packets && forall p | p in packets[..|packets| - 1] :: p in packets;
      k' := SafeDelivery(r, log, before, k, packets[..|packets| - 1]);
      k' := HandleFromLog(ReceiveAll(r, packets[..|packets| - 1]), log, before, k', last.events);
    }
  }

  // ---- Many games ----

  /** A stay in one game: the first `count` events of the game `id` were delivered. */
  datatype Stay = Stay(id: U32, count: nat)

  type Games = map<U32, seq<Event>>

  function LogOf(games: Games, id: U32): seq<Event> {
    if id in games then games[id] else []
  }

  ghost predicate ValidStay(games: Games, s: Stay) {
    s.count <= |LogOf(games, s.id)| && (s.count > 0 ==> GameLog(LogOf(games, s.id)))
  }

  function DeliveredIn(games: Games, stays: seq<Stay>): seq<Line>
    requires forall s | s in stays :: ValidStay(games, s)
  {
    if stays == [] then [] else
    var last := stays[|stays| - 1];
    assert ValidStay(games, last) by { assert last in stays; }
    DeliveredIn(games, stays[..|stays| - 1]) + Lines(LogOf(games, last.id), last.count)
  }

  /** The ids with repetitions next to each other dropped. */
  function Compress(ids: seq<U32>): (r: seq<U32>) {
    if |ids| <= 1 then ids else
    var r := Compress(ids[..|ids| - 1]);
    if ids[|ids| - 1] == ids[|ids| - 2] then r else r + [ids[|ids| - 1]]
  }

  function Ids(packets: seq<Packet>): (ids: seq<U32>) {
    seq(|packets|, i requires 0 <= i < |packets| => packets[i].id)
  }

  function StayIds(stays: seq<Stay>): (ids: seq<U32>) {
    seq(|stays|, i requires 0 <= i < |stays| => stays[i].id)
  }

  /** The client made these stays one after the other, and the last of them is going on. */
  ghost predicate Run(games: Games, stays: seq<Stay>, r: Receiver) {
    && (forall s | s in stays :: ValidStay(games, s))
    && stays != [] && stays[|stays| - 1] == Stay(r.gameId, r.eventNo)
    && ValidStay(games, Stay(r.gameId, r.eventNo))
    && Holds(r, LogOf(games, r.gameId), DeliveredIn(games, stays[..|stays| - 1]), r.eventNo)
  }

  /** A fresh client that received datagrams with these ids made these stays. */
  ghost predicate Ran(games: Games, ids: seq<U32>, stays: seq<Stay>, r: Receiver) {
    StayIds(stays) == Compress([0] + ids) && Run(games, stays, r)
  }

  /** The packets carry events of these games. */
  ghost predicate FromGames(games: Games, packets: seq<Packet>) {
    && (forall id | id in games :: GameLog(games[id]))
    && forall p | p in packets :: p.id in games && FromLog(games[p.id], p.events)
  }

  /** The stays of a fresh client, which counts as being in game 0: a packet with the id of the client's game goes on
      with the last stay, another one begins a new stay. */
  function Trace(packets: seq<Packet>): (stays: seq<Stay>)
    ensures stays != []
  {
    if packets == [] then [Stay(0, 0)] else
    var before := packets[..|packets| - 1];
    var stays, r := Trace(before), ReceiveAll(INITIAL, packets);
    (if packets[|packets| - 1].id == ReceiveAll(INITIAL, before).gameId then stays[..|stays| - 1] else stays)
      + [Stay(r.gameId, r.eventNo)]
  }

  /** For any datagrams of any games in any order: what a fresh client delivers is one log prefix after another, one
      for every maximal run of datagrams with the same id. */
  lemma {:induction false} DeliveryByRuns(games: Games, packets: seq<Packet>)
    requires FromGames(games, packets)
    ensures Ran(games, Ids(packets), Trace(packets), ReceiveAll(INITIAL, packets))
    ensures ReceiveAll(INITIAL, packets).delivered == DeliveredIn(games, Trace(packets))
    decreases |packets|
  {
    if packets == [] {
      assert [0] + Ids(packets) == [0];
    } else {
      var rest, last := packets[..|packets| - 1], packets[|packets| - 1];
      assert last in packets && forall p | p in rest :: p in packets;
      DeliveryByRuns(games, rest);
      var stays, r := Trace(rest), ReceiveAll(INITIAL, rest);
      IdsGrow(packets, stays);
      if r.gameId == last.id {
        Staying(games, stays, r, games[last.id], last.events);
      } else {
        Moving(games, stays, r, last.id, last.events);
      }
    }
  }

  lemma Staying(games: Games, stays: seq<Stay>, r: Receiver, log: seq<Event>, events: seq<Event>)
    requires Run(games, stays, r) && r.gameId in games && log == games[r.gameId]
    requires GameLog(log) && FromLog(log, events)
    ensures var r' := Receive(r, r.gameId, events);
      var stays' := stays[..|stays| - 1] + [Stay(r'.gameId, r'.eventNo)];
      && StayIds(stays') == StayIds(stays) && Run(games, stays', r') && r'.delivered == DeliveredIn(games, stays')
  {
    var n := |stays| - 1;
    var before := DeliveredIn(games, stays[..n]);
    var k := HandleFromLog(r, log, before, r.eventNo, events);
    var stays' := stays[..n] + [Stay(r.gameId, k)];
    assert stays'[..n] == stays[..n];
    assert forall s | s in stays' :: s in stays || s == Stay(r.gameId, k);
  }

  lemma Moving(games: Games, stays: seq<Stay>, r: Receiver, id: U32, events: seq<Event>)
    requires Run(games, stays, r) && r.gameId != id && id in games
    requires GameLog(games[id]) && FromLog(games[id], events)
    ensures var r' := Receive(r, id, events);
      var stays' := stays + [Stay(r'.gameId, r'.eventNo)];
      && StayIds(stays') == StayIds(stays) + [id]
      && Run(games, stays', r') && r'.delivered == DeliveredIn(games, stays')
  {
    var entered := r.(gameId := id, eventNo := 0);
    assert r.delivered + Lines(games[id], 0) == r.delivered;
    var k := HandleFromLog(entered, games[id], r.delivered, 0, events);
    var stays' := stays + [Stay(id, k)];
    assert stays'[..|stays|] == stays;
    assert forall s | s in stays' :: s in stays || s == Stay(id, k);
    assert r.delivered == DeliveredIn(games, stays);
  }

  lemma IdsGrow(packets: seq<Packet>, stays: seq<Stay>)
    requires packets != [] && stays != []
    requires StayIds(stays) == Compress([0] + Ids(packets[..|packets| - 1]))
    ensures Compress([0] + Ids(packets)) ==
      if stays[|stays| - 1].id == packets[|packets| - 1].id then StayIds(stays)
      else StayIds(stays) + [packets[|packets| - 1].id]
  {
    var before := [0] + Ids(packets[..|packets| - 1]);
    var ids := [0] + Ids(packets);
    assert ids[..|ids| - 1] == before;
    CompressKeeps(before);
    assert StayIds(stays)[|stays| - 1] == stays[|stays| - 1].id;
  }

  lemma {:induction false} CompressKeeps(ids: seq<U32>)
    ensures forall x :: x in Compress(ids) <==> x in ids
    ensures ids != [] ==> Compress(ids) != [] && Compress(ids)[|Compress(ids)| - 1] == ids[|ids| - 1]
    decreases |ids|
  {
    if |ids| > 1 {
      CompressKeeps(ids[..|ids| - 1]);
      assert ids == ids[..|ids| - 1] + [ids[|ids| - 1]];
    }
  }

  ghost predicate Distinct(ids: seq<U32>) {
    forall i, j | 0 <= i < j < |ids| :: ids[i] != ids[j]
  }

  /** Between two datagrams of one game there are only datagrams of that game. */
  ghost predicate Grouped(ids: seq<U32>) {
    forall i, j, k | 0 <= i < j < k < |ids| && ids[i] == ids[k] :: ids[j] == ids[i]
  }

  /** Stretches of the same id have different ids exactly when ids come grouped. */
  lemma {:induction false} StretchesDistinctIff(ids: seq<U32>)
    ensures Distinct(Compress(ids)) <==> Grouped(ids)
    decreases |ids|
  {
    if |ids| > 1 {
      var n := |ids| - 1;
      var rest, x := ids[..n], ids[n];
      StretchesDistinctIff(rest);
      CompressKeeps(rest);
      if x == ids[n - 1] {
        GroupedSnocSame(ids);
      } else {
        DistinctSnoc(Compress(rest), x);
        GroupedSnocNew(ids);
      }
    }
  }

  lemma GroupedSnocNew(ids: seq<U32>)
    requires |ids| > 1 && ids[|ids| - 1] != ids[|ids| - 2]
    ensures Grouped(ids) <==> Grouped(ids[..|ids| - 1]) && ids[|ids| - 1] !in ids[..|ids| - 1]
  {
    var n := |ids| - 1;
    var rest, x := ids[..n], ids[n];
    if x in rest {
      var i :| 0 <= i < n && rest[i] == x;
      assert ids[i] == ids[n] != ids[n - 1] && i < n - 1 < n;
    }
    if Grouped(rest) && x !in rest {
      forall i, j, k | 0 <= i < j < k < |ids| && ids[i] == ids[k] ensures ids[j] == ids[i] {
        assert ids[i] == rest[i];
        assert rest[i] in rest && rest[j] == ids[j];
        if k < n {
          assert rest[k] == ids[k];
        }
      }
    }
    if Grouped(ids) {
      forall i, j, k | 0 <= i < j < k < n && rest[i] == rest[k] ensures rest[j] == rest[i] {
        assert ids[j] == rest[j] && ids[i] == rest[i] && ids[k] == rest[k];
      }
    }
  }

  lemma GroupedSnocSame(ids: seq<U32>)
    requires |ids| > 1 && ids[|ids| - 1] == ids[|ids| - 2]
    ensures Grouped(ids) <==> Grouped(ids[..|ids| - 1])
  {
    var n := |ids| - 1;
    if Grouped(ids[..n]) {
      forall i, j, k | 0 <= i < j < k < |ids| && ids[i] == ids[k] ensures ids[j] == ids[i] {
        if k < n {
          assert ids[..n][j] == ids[..n][i];
        } else if j < n - 1 {
          assert ids[..n][i] == ids[..n][n - 1];
          assert ids[..n][j] == ids[..n][i];
        }
      }
    }
    if Grouped(ids) {
      forall i, j, k | 0 <= i < j < k < n && ids[..n][i] == ids[..n][k] ensures ids[..n][j] == ids[..n][i] {
        assert ids[j] == ids[i];
      }
    }
  }

  lemma DistinctSnoc(s: seq<U32>, x: U32)
    ensures Distinct(s + [x]) <==> Distinct(s) && x !in s
  {
    var t := s + [x];
    if Distinct(t) {
      forall i, j | 0 <= i < j < |s| ensures s[i] != s[j] {
        assert t[i] != t[j];
      }
      forall i | 0 <= i < |s| ensures s[i] != x {
        assert t[i] != t[|s|];
      }
    }
  }

  // ---- Games that are delivered twice ----

  /** The packet begins with event 0, perhaps behind a GAME_OVER that carries the same number. */
  predicate Opens(events: seq<Event>)
    decreases |events|
  {
    events != [] && events[0].no == 0 && (events[0].GameOver? ==> Opens(events[1..]))
  }

  /** A client at the start of a game delivers something of a packet exactly when the packet opens. */
  lemma {:induction false} OpensIff(r: Receiver, log: seq<Event>, before: seq<Line>, k: nat, events: seq<Event>)
    requires GameLog(log) && k <= |log| && Holds(r, log, before, k) && FromLog(log, events)
    ensures Handle(r, events).eventNo > 0 <==> k > 0 || Opens(events)
    decreases |events|
  {
    var k' := HandleFromLog(r, log, before, k, events);
    if k == 0 && events != [] && events[0].no == 0 {
      assert events[0] in events && forall e | e in events[1..] :: e in events;
      if events[0].GameOver? {
        OpensIff(r, log, before, 0, events[1..]);
      } else {
        AcceptNext(r, log, before, 0);
        var k'' := HandleFromLog(Accept(r, log[0]), log, before, 1, events[1..]);
      }
    }
  }

  predicate Opening(packets: seq<Packet>, a: nat, id: U32) {
    a < |packets| && packets[a].id == id && Opens(packets[a].events)
  }

  /** Two packets that open the same game have a packet of another game between them. */
  ghost predicate Restarts(packets: seq<Packet>) {
    exists a: nat, b: nat, c: nat | a < b < c < |packets| ::
      Opening(packets, a, packets[a].id) && packets[b].id != packets[a].id && Opening(packets, c, packets[a].id)
  }

  /** The game was opened and left. */
  ghost predicate Abandoned(packets: seq<Packet>, id: U32) {
    exists a: nat, b: nat | a < b < |packets| :: Opening(packets, a, id) && packets[b].id != id
  }

  /** Since a packet that opened the game all packets are of this game. */
  ghost predicate Open(packets: seq<Packet>, id: U32) {
    exists a: nat | a < |packets| :: Opening(packets, a, id) && forall b | a <= b < |packets| :: packets[b].id == id
  }

  lemma AbandonedSnoc(packets: seq<Packet>, p: Packet, id: U32)
    ensures Abandoned(packets + [p], id) <==> Abandoned(packets, id) || (p.id != id && Open(packets, id))
  {
    var all, n := packets + [p], |packets|;
    assert all[n] == p && forall i | 0 <= i < n :: all[i] == packets[i];
    if Abandoned(packets, id) {
      var a: nat, b: nat :| a < b < n && Opening(packets, a, id) && packets[b].id != id;
      assert Opening(all, a, id) && all[b].id != id;
    } else if p.id != id && Open(packets, id) {
      var a: nat :| a < n && Opening(packets, a, id);
      assert Opening(all, a, id) && all[n].id != id;
    }
    if Abandoned(all, id) && !Abandoned(packets, id) {
      var a: nat, b: nat :| a < b <= n && Opening(all, a, id) && all[b].id != id;
      assert Opening(packets, a, id);
      assert b == n && forall i | a <= i < n :: packets[i].id == id;
    }
  }

  lemma OpenSnoc(packets: seq<Packet>, p: Packet, id: U32)
    ensures Open(packets + [p], id) <==> p.id == id && (Open(packets, id) || Opens(p.events))
  {
    var all, n := packets + [p], |packets|;
    assert all[n] == p && forall i | 0 <= i < n :: all[i] == packets[i];
    if p.id == id && Opens(p.events) {
      assert Opening(all, n, id);
    } else if p.id == id && Open(packets, id) {
      var a: nat :| a < n && Opening(packets, a, id) && forall b | a <= b < n :: packets[b].id == id;
      assert Opening(all, a, id);
    }
    if Open(all, id) {
      var a: nat :| a <= n && Opening(all, a, id) && forall b | a <= b <= n :: all[b].id == id;
      assert a < n ==> Opening(packets, a, id);
    }
  }

  lemma RestartsSnoc(packets: seq<Packet>, p: Packet)
    ensures Restarts(packets + [p]) <==> Restarts(packets) || (Opens(p.events) && Abandoned(packets, p.id))
  {
    var all, n := packets + [p], |packets|;
    assert all[n] == p && forall i | 0 <= i < n :: all[i] == packets[i];
    if Restarts(packets) {
      var a: nat, b: nat, c: nat :| a < b < c < n && Opening(packets, a, packets[a].id)
        && packets[b].id != packets[a].id && Opening(packets, c, packets[a].id);
      assert Opening(all, a, all[a].id) && all[b].id != all[a].id && Opening(all, c, all[a].id);
    } else if Opens(p.events) && Abandoned(packets, p.id) {
      var a: nat, b: nat :| a < b < n && Opening(packets, a, p.id) && packets[b].id != p.id;
      assert Opening(all, a, all[a].id) && all[b].id != all[a].id && Opening(all, n, all[a].id);
    }
    if Restarts(all) {
      var a: nat, b: nat, c: nat :| a < b < c <= n && Opening(all, a, all[a].id)
        && all[b].id != all[a].id && Opening(all, c, all[a].id);
      assert Opening(packets, a, packets[a].id) && packets[b].id != packets[a].id;
      assert c < n ==> Opening(packets, c, packets[a].id);
    }
  }

  /** The stay delivered something of the game. */
  predicate Begun(stays: seq<Stay>, i: nat, id: U32) {
    i < |stays| && stays[i].id == id && stays[i].count > 0
  }

  ghost predicate SomeBegun(stays: seq<Stay>, id: U32) {
    exists i: nat :: Begun(stays, i, id)
  }

  /** Some game was delivered from its start in two different stays. */
  ghost predicate Replayed(stays: seq<Stay>) {
    exists i: nat, j: nat | i < j < |stays| :: Begun(stays, i, stays[i].id) && Begun(stays, j, stays[i].id)
  }

  lemma BegunSnoc(stays: seq<Stay>, s: Stay, id: U32)
    ensures SomeBegun(stays + [s], id) <==> SomeBegun(stays, id) || (s.id == id && s.count > 0)
    ensures Replayed(stays + [s]) <==> Replayed(stays) || (s.count > 0 && SomeBegun(stays, s.id))
  {
    var all, n := stays + [s], |stays|;
    assert all[n] == s && forall i | 0 <= i < n :: all[i] == stays[i];
    assert forall i: nat, x :: Begun(all, i, x) <==> Begun(stays, i, x) || (i == n && s.id == x && s.count > 0);
    if Replayed(stays) {
      var i: nat, j: nat :| i < j < n && Begun(stays, i, stays[i].id) && Begun(stays, j, stays[i].id);
      assert Begun(all, i, all[i].id) && Begun(all, j, all[i].id);
    } else if s.count > 0 && SomeBegun(stays, s.id) {
      var i: nat :| Begun(stays, i, s.id);
      assert Begun(all, i, all[i].id) && Begun(all, n, all[i].id);
    }
    if SomeBegun(stays, id) {
      var i: nat :| Begun(stays, i, id);
      assert Begun(all, i, id);
    } else if s.id == id && s.count > 0 {
      assert Begun(all, n, id);
    }
    if Replayed(all) {
      var i: nat, j: nat :| i < j <= n && Begun(all, i, all[i].id) && Begun(all, j, all[i].id);
      assert Begun(stays, i, stays[i].id) && (j < n ==> Begun(stays, j, stays[i].id));
    }
  }

  /** How the stays show what the packets did. */
  ghost predicate Mirrors(packets: seq<Packet>, stays: seq<Stay>, r: Receiver) {
    && stays != [] && stays[|stays| - 1] == Stay(r.gameId, r.eventNo)
    && (packets != [] ==> packets[|packets| - 1].id == r.gameId)
    && (r.eventNo > 0 <==> Open(packets, r.gameId))
    && (forall id :: SomeBegun(stays[..|stays| - 1], id) <==> Abandoned(packets, id))
    && (Replayed(stays) <==> Restarts(packets))
  }

  lemma {:induction false} TraceMirrors(games: Games, packets: seq<Packet>)
    requires FromGames(games, packets)
    ensures Mirrors(packets, Trace(packets), ReceiveAll(INITIAL, packets))
    decreases |packets|
  {
    hide Mirrors, FromLog, GameLog, Receive, DeliveredIn, ValidStay, Holds, Compress, StayIds;
    if packets == [] {
      NothingMirrored();
    } else {
      var rest, p := packets[..|packets| - 1], packets[|packets| - 1];
      assert p in packets && forall q | q in rest :: q in packets;
      TraceMirrors(games, rest);
      DeliveryByRuns(games, rest);
      var stays, r, r' := Trace(rest), ReceiveAll(INITIAL, rest), ReceiveAll(INITIAL, packets);
      BeginsIff(games, stays, r, p);
      if r.gameId == p.id {
        SameGameMirrors(rest, p, stays, r, r');
      } else {
        NextGameMirrors(rest, p, stays, r, r');
      }
      assert packets == rest + [p];
    }
  }

  lemma NothingMirrored()
    ensures Mirrors([], [Stay(0, 0)], INITIAL)
  {
    assert [Stay(0, 0)][..0] == [];
  }

  /** A packet brings the client into its game, and behind its first event if it opens or the client was there. */
  lemma BeginsIff(games: Games, stays: seq<Stay>, r: Receiver, p: Packet)
    requires Run(games, stays, r) && p.id in games && GameLog(games[p.id]) && FromLog(games[p.id], p.events)
    ensures var r' := Receive(r, p.id, p.events);
      r'.gameId == p.id && (r'.eventNo > 0 <==> (r.gameId == p.id && r.eventNo > 0) || Opens(p.events))
  {
    var log, before := games[p.id], DeliveredIn(games, stays[..|stays| - 1]);
    if r.gameId == p.id {
      OpensIff(r, log, before, r.eventNo, p.events);
      var k := HandleFromLog(r, log, before, r.eventNo, p.events);
    } else {
      var entered := r.(gameId := p.id, eventNo := 0);
      assert r.delivered + Lines(log, 0) == r.delivered;
      OpensIff(entered, log, r.delivered, 0, p.events);
      var k := HandleFromLog(entered, log, r.delivered, 0, p.events);
    }
  }

  lemma SameGameMirrors(rest: seq<Packet>, p: Packet, stays: seq<Stay>, r: Receiver, r': Receiver)
    requires Mirrors(rest, stays, r) && p.id == r.gameId == r'.gameId
    requires r'.eventNo > 0 <==> r.eventNo > 0 || Opens(p.events)
    ensures Mirrors(rest + [p], stays[..|stays| - 1] + [Stay(r'.gameId, r'.eventNo)], r')
  {
    var before, s, s' := stays[..|stays| - 1], Stay(r.gameId, r.eventNo), Stay(r'.gameId, r'.eventNo);
    assert stays == before + [s] && (before + [s'])[..|before|] == before;
    forall id ensures Abandoned(rest + [p], id) <==> Abandoned(rest, id) {
      AbandonedSnoc(rest, p, id);
      OnlyOpen(rest, id);
    }
    OpenSnoc(rest, p, p.id);
    RestartsSnoc(rest, p);
    BegunSnoc(before, s, p.id);
    BegunSnoc(before, s', p.id);
  }

  lemma NextGameMirrors(rest: seq<Packet>, p: Packet, stays: seq<Stay>, r: Receiver, r': Receiver)
    requires Mirrors(rest, stays, r) && p.id == r'.gameId != r.gameId
    requires r'.eventNo > 0 <==> Opens(p.events)
    ensures Mirrors(rest + [p], stays + [Stay(r'.gameId, r'.eventNo)], r')
  {
    var before, s, s' := stays[..|stays| - 1], Stay(r.gameId, r.eventNo), Stay(r'.gameId, r'.eventNo);
    assert stays == before + [s] && (stays + [s'])[..|stays|] == stays;
    forall id ensures SomeBegun(stays, id) <==> Abandoned(rest + [p], id) {
      AbandonedSnoc(rest, p, id);
      OnlyOpen(rest, id);
      BegunSnoc(before, s, id);
    }
    OnlyOpen(rest, p.id);
    AbandonedSnoc(rest, p, p.id);
    OpenSnoc(rest, p, p.id);
    RestartsSnoc(rest, p);
    BegunSnoc(stays, s', p.id);
  }

  /** Only the game of the last packet can be open. */
  lemma OnlyOpen(packets: seq<Packet>, id: U32)
    ensures Open(packets, id) ==> packets != [] && packets[|packets| - 1].id == id
  {
  }

  /** A game is delivered from its start in two stays exactly when two packets that open it have a packet of another
      game between them. */
  lemma NoRestartIff(games: Games, packets: seq<Packet>)
    requires FromGames(games, packets)
    ensures Replayed(Trace(packets)) <==> Restarts(packets)
  {
    TraceMirrors(games, packets);
  }

  /** When datagrams arrive grouped by game, the client delivers prefixes of the logs of different games. */
  lemma GroupedDelivery(games: Games, packets: seq<Packet>)
    requires FromGames(games, packets) && Grouped(Ids(packets))
    ensures Ran(games, Ids(packets), Trace(packets), ReceiveAll(INITIAL, packets))
    ensures ReceiveAll(INITIAL, packets).delivered == DeliveredIn(games, Trace(packets))
    ensures forall i, j | 0 <= i < j < |Trace(packets)| && Trace(packets)[i].count > 0 && Trace(packets)[j].count > 0 ::
      Trace(packets)[i].id != Trace(packets)[j].id
  {
    DeliveryByRuns(games, packets);
    NoRestartIff(games, packets);
    var stays := Trace(packets);
    GroupedNotRestarted(packets);
    forall i, j | 0 <= i < j < |stays| && stays[i].count > 0 && stays[j].count > 0 ensures stays[i].id != stays[j].id {
      assert Begun(stays, i, stays[i].id) && Begun(stays, j, stays[j].id);
    }
  }

  lemma GroupedNotRestarted(packets: seq<Packet>)
    ensures Restarts(packets) ==> !Grouped(Ids(packets))
  {
    var ids := Ids(packets);
    if Restarts(packets) {
      var a: nat, b: nat, c: nat :| a < b < c < |packets| && Opening(packets, a, packets[a].id)
        && packets[b].id != packets[a].id && Opening(packets, c, packets[a].id);
      assert ids[a] == ids[c] && ids[b] != ids[a];
    }
  }

  /** Grouping is what it takes when nothing is known of the contents: exactly for grouped ids no game is delivered
      from its start twice, whatever events of their games the packets carry. */
  lemma GroupedIff(games: Games, ids: seq<U32>)
    requires (forall id | id in games :: GameLog(games[id])) && forall i | 0 <= i < |ids| :: ids[i] in games
    ensures Grouped(ids) <==>
      forall packets | Ids(packets) == ids && FromGames(games, packets) :: !Replayed(Trace(packets))
  {
    if Grouped(ids) {
      forall packets | Ids(packets) == ids && FromGames(games, packets) ensures !Replayed(Trace(packets)) {
        GroupedDelivery(games, packets);
      }
    } else {
      var packets := Firsts(games, ids);
      FirstsRestart(games, ids);
      hide Trace, Replayed, Grouped;
      NoRestartIff(games, packets);
    }
  }

  lemma FirstsRestart(games: Games, ids: seq<U32>)
    requires (forall id | id in games :: GameLog(games[id])) && forall i | 0 <= i < |ids| :: ids[i] in games
    ensures var packets := Firsts(games, ids);
      Ids(packets) == ids && FromGames(games, packets) && (!Grouped(ids) ==> Restarts(packets))
  {
    var packets := Firsts(games, ids);
    if !Grouped(ids) {
      var a, b, c :| 0 <= a < b < c < |ids| && ids[a] == ids[c] && ids[b] != ids[a];
      assert Opening(packets, a, packets[a].id) && packets[b].id != packets[a].id && Opening(packets, c, packets[a].id);
    }
  }

  /** A packet with the first event of the game for every id. */
  function Firsts(games: Games, ids: seq<U32>): (packets: seq<Packet>)
    ensures |packets| == |ids|
  {
    seq(|ids|, i requires 0 <= i < |ids| =>
      Packet(ids[i], if LogOf(games, ids[i]) == [] then [] else [LogOf(games, ids[i])[0]]))
  }

  /** A fresh client is never twice in a game, not even without delivering anything, exactly when the ids are grouped
      together with its own id 0. */
  lemma StaysDistinctIff(games: Games, packets: seq<Packet>)
    requires FromGames(games, packets)
    ensures Distinct(StayIds(Trace(packets))) <==> Grouped([0] + Ids(packets))
  {
    DeliveryByRuns(games, packets);
    StretchesDistinctIff([0] + Ids(packets));
  }

  /** A delayed datagram of an earlier game makes the client deliver that game again: its NEW_GAME line comes twice. */
  lemma LateDatagramRestarts(a: Event, b: Event)
    requires a.NewGame? && a.no == 0 && b.NewGame? && b.no == 0
    ensures var r := ReceiveAll(INITIAL, [Packet(1, [a]), Packet(2, [b]), Packet(1, [a])]);
      r.delivered == [Render(a, a.names), Render(b, b.names), Render(a, a.names)]
  {
    var p, q := Packet(1, [a]), Packet(2, [b]);
    assert [p, q, p][..2] == [p, q] && [p, q][..1] == [p] && [p][..0] == [];
    var r1 := ReceiveAll(INITIAL, [p]);
    HandleOne(INITIAL.(gameId := 1), a);
    assert r1 == Receive(ReceiveAll(INITIAL, []), 1, [a]);
    var r2 := ReceiveAll(INITIAL, [p, q]);
    HandleOne(r1.(gameId := 2, eventNo := 0), b);
    assert r2 == Receive(r1, 2, [b]);
    HandleOne(r2.(gameId := 1, eventNo := 0), a);
  }

  lemma HandleOne(r: Receiver, e: Event)
    requires e.NewGame? && e.no == r.eventNo && !r.stopped
    ensures Handle(r, [e]) == Accept(r, e)
  {
    assert [e][1..] == [];
  }
}
