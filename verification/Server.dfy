/** The Server object of src/server/server.cc, proved to act as the functions of Service say. */
module ServerObject {
  import opened Wire
  import opened Records
  import opened Parsing
  import opened Packing
  import opened Messages
  import opened Arenas
  import opened GameRules
  import opened GameObject
  import opened GameProofs
  import opened GameRuns
  import opened Registry
  import opened Outbox
  import opened Service
  import opened ServiceProofs

  class Server {
    const crc: Checksum
    const game: GameObject.Game
    const connections: Connections
    const events: Events
    const messages: Buffer
    var currentMessage: Bytes
    var currentAddresses: seq<Address>
    /** The poll waits until the socket can be written to. */
    var pollOut: bool
    var terminated: bool
    ghost var posted: seq<Letter>
    ghost var sent: seq<Pair>

    ghost function Repr(): set<object> {
      {this, connections, events, messages} + game.Repr()
    }

    ghost predicate Valid() {
      game.Valid()
    }

    ghost function BoxState(): Box
      reads this, messages
    {
      Box(messages.messages, currentMessage, currentAddresses, pollOut)
    }

    ghost function State(): Sys
      requires Valid()
      reads Repr()
    {
      Sys(crc, game.State(), connections.clients, events.events, BoxState(), terminated, posted, sent)
    }

    constructor (crc: Checksum, width: U32, height: U32, seed: U32)
      ensures Valid() && fresh(Repr()) && State() == Boot(crc, width, height, seed)
    {
      this.crc := crc;
      game := new GameObject.Game(width, height, seed);
      connections := new Connections();
      events := new Events();
      messages := new Buffer();
      currentMessage, currentAddresses, pollOut, terminated := [], [], true, false;
      posted, sent := [], [];
    }

    // ---- Sending ----

    method AddMessage(message: Outbox.Message)
      modifies `pollOut, messages
      ensures BoxState() == Add(old(BoxState()), message)
    {
      messages.Add(message);
      pollOut := true;
    }

    method CanSendMessage() returns (can: bool)
      modifies `currentMessage, `currentAddresses, `pollOut, messages
      ensures BoxState() == Load(old(BoxState())) && (can <==> currentAddresses != [])
    {
      while !messages.IsEmpty() && currentAddresses == []
        invariant Load(BoxState()) == Load(old(BoxState()))
        decreases |messages.messages|
      {
        var message := messages.Pop();
        currentMessage := message.value.bytes;
        currentAddresses := message.value.addresses;
      }
      if |currentAddresses| == 0 {
        pollOut := false;
        return false;
      }
      return true;
    }

    /** blocks is what the socket answers. */
    method SendMessage(blocks: bool)
      requires Valid()
      modifies `currentMessage, `currentAddresses, `pollOut, `sent, messages
      ensures State() == OnWrite(old(State()), blocks)
    {
      var can := CanSendMessage();
      if !can || blocks {
        return;
      }
      sent := sent + [Pair(currentMessage, currentAddresses[0])];
      currentAddresses := currentAddresses[1..];
    }

    method PostMessage(message: ServerMessage, addresses: seq<Address>)
      requires Valid()
      modifies `pollOut, `posted, messages
      ensures State() == Post(old(State()), Letter(message.gameId, message.events, addresses))
    {
      var bytes := message.ToBytes(crc);
      AddMessage(Outbox.Message(bytes, addresses));
      posted := posted + [Letter(message.gameId, message.events, addresses)];
    }

    /** The greedy loop over the requested part of the log. */
    method MakeMessage(address: Address, eventNo: U32)
      requires Valid() && AllFit(events.events)
      modifies `pollOut, `posted, messages
      ensures State() == Reply(old(State()), address, eventNo)
    {
      var message := new ServerMessage(game.gameId);
      var queue := events.GetEvents(eventNo);
      assert forall e | e in queue :: e in events.events;
      if |queue| == 0 {
        return;
      }
      ghost var goal := PostAll(State(), address, Pack([], queue));
      hide Datagram;
      while queue != []
        invariant fresh(message) && message.Valid() && message.gameId == game.gameId
        invariant AllFit(queue)
        invariant goal == PostAll(State(), address, Pack(message.events, queue))
        decreases |queue|, TotalLen(message.events)
      {
        assert queue[0] in queue && forall e | e in queue[1..] :: e in queue;
        var ok := message.AddEvent(queue[0]);
        if ok {
          queue := queue[1..];
        } else {
          PackTurn(message.events, queue);
          PostMessage(message, [address]);
          message := new ServerMessage(game.gameId);
        }
      }
      PostMessage(message, [address]);
    }

    lemma PackTurn(current: seq<Event>, queue: seq<Event>)
      requires AllFit(queue) && queue != []
      requires TotalLen(current) + queue[0].Len() > MAX_MESSAGE_DATA_LEN
      ensures Pack(current, queue)[0] == current && Pack(current, queue)[1..] == Pack([], queue)
      ensures TotalLen(current) > 0
    {
      assert queue[0] in queue;
    }

    // ---- Callbacks of the game and the connections ----

    method OnEvent(event: Event, now: int)
      requires Valid() && game.running
      modifies Repr()
      ensures State() == Service.OnEvent(old(State()), event, now) && game.running
    {
      if terminated {
        return;
      }
      hide Post, ForgetAll, Logged, Kept, Gone, Addresses;
      ghost var s := State();
      LogEvent(event);
      var message := new ServerMessage(game.gameId);
      assert TotalLen([]) == 0 && State() == s.(log := Logged(s.log, event));
      var ok := message.AddEvent(event);
      if !ok {
        terminated := true;
        return;
      }
      assert message.events == [event];
      Broadcast(message, now);
    }

    method Broadcast(message: ServerMessage, now: int)
      requires Valid() && game.running
      modifies Repr()
      ensures game.running
      ensures var s := old(State());
        var conns := Kept(s.conns, now);
        State() == Post(s.(conns := conns, game := ForgetAll(s.game, Gone(s.conns, now))),
                        Letter(message.gameId, old(message.events), Addresses(conns)))
    {
      hide Post, ForgetAll, Kept, Gone, Addresses;
      ghost var s := State();
      var clients, gone := connections.GetConnectedClients(now);
      ForgetClients(gone);
      assert State() == s.(conns := Kept(s.conns, now), game := ForgetAll(s.game, Gone(s.conns, now)));
      PostMessage(message, clients);
    }

    method LogEvent(event: Event)
      requires Valid()
      modifies events
      ensures State() == old(State()).(log := Logged(old(State()).log, event))
    {
      if event.GameOver? {
        events.Clear();
      } else {
        events.AddEvent(event);
      }
    }

    /** The sweep of a running game only removes players. */
    method ForgetClients(gone: seq<Name>)
      requires Valid() && game.running
      modifies game.Repr()
      ensures game.State() == ForgetAll(old(game.State()), gone) && game.running
    {
      var i := 0;
      assert gone[i..] == gone;
      while i < |gone|
        invariant 0 <= i <= |gone| && game.running
        invariant ForgetAll(game.State(), gone[i..]) == ForgetAll(old(game.State()), gone)
      {
        assert gone[i..][0] == gone[i] && gone[i..][1..] == gone[i + 1..];
        if gone[i] != [] {
          var none := game.RemovePlayer(gone[i], NOWHERE);
          assert none == [];
        }
        i := i + 1;
      }
    }

    /** The game hands its events to on_event one by one. */
    method Deliver(es: seq<Event>, now: int)
      requires Valid() && (game.running || es == [])
      modifies Repr()
      ensures State() == Service.Deliver(old(State()), es, now)
    {
      var i := 0;
      assert es[i..] == es;
      hide Service.OnEvent;
      while i < |es|
        invariant 0 <= i <= |es| && (i < |es| ==> game.running)
        invariant Service.Deliver(State(), es[i..], now) == Service.Deliver(old(State()), es, now)
      {
        assert es[i..][0] == es[i] && es[i..][1..] == es[i + 1..];
        OnEvent(es[i], now);
        i := i + 1;
      }
    }

    method OnDisconnect(name: Name, now: int, start: Pixels)
      requires Valid()
      modifies Repr()
      ensures State() == Disconnect(old(State()), name, now, start)
    {
      if terminated || name == [] {
        return;
      }
      var es := game.RemovePlayer(name, start);
      Deliver(es, now);
    }

    method ReportAll(gone: seq<Name>, now: int, start: Pixels)
      requires Valid()
      modifies Repr()
      ensures State() == DisconnectAll(old(State()), gone, now, start)
    {
      var i := 0;
      assert gone[i..] == gone;
      hide Disconnect;
      while i < |gone|
        invariant 0 <= i <= |gone|
        invariant DisconnectAll(State(), gone[i..], now, start) == DisconnectAll(old(State()), gone, now, start)
      {
        assert gone[i..][0] == gone[i] && gone[i..][1..] == gone[i + 1..];
        OnDisconnect(gone[i], now, start);
        i := i + 1;
      }
    }

    /** What a timeout of the poll leads to. */
    method CleanupInactive(now: int, start: Pixels)
      requires Valid()
      modifies Repr()
      ensures State() == Sweep(old(State()), now, start)
    {
      ghost var s := State();
      var gone := connections.CleanupInactive(now);
      assert State() == s.(conns := Kept(s.conns, now));
      ReportAll(gone, now, start);
    }

    // ---- Messages of clients ----

    method OnAction(message: Request, address: Address, now: int, start: Pixels, connecting: bool)
      requires Valid() && !terminated && Good(State(), []) && RequestOk(message)
      modifies Repr()
      ensures State() == Service.OnAction(old(State()), message, address, now, start, connecting)
      decreases if connecting then 0 else 2, 1
    {
      LookedUp(State(), message, address, now, start);
      hide *;
      var answer := SweepAndFind(message, address, now, start);
      if !terminated {
        OnAnswer(answer, message, address, now, start, connecting);
      }
    }

    method OnAnswer(answer: Answer, message: Request, address: Address, now: int, start: Pixels, connecting: bool)
      requires Valid() && !terminated && Good(State(), []) && RequestOk(message)
      requires AllActive(connections.clients, now)
      requires answer.NotFound? ==> forall c | c in connections.clients :: c.address != address
      modifies Repr()
      ensures State() == Service.OnAnswer(old(State()), answer, message, address, now, start, connecting)
      decreases if connecting then 0 else 2, 0
    {
      hide Good, Answered, Service.OnConnect, AllActive, RequestOk;
      match answer
      case NewerSession =>
      case Found(player) => Answer(player, message, address, now, start);
      case NotFound =>
        if connecting {
          terminated := true;
        } else {
          OnConnect(message, address, now, start);
        }
    }

    method SweepAndFind(message: Request, address: Address, now: int, start: Pixels) returns (answer: Answer)
      requires Valid()
      modifies Repr()
      ensures var s := old(State()); var l := LookUp(s.conns, address, message.session, now);
        State() == DisconnectAll(s.(conns := l.conns), l.gone, now, start) && answer == l.answer
    {
      ghost var s := State();
      var gone;
      answer, gone := connections.GetClient(address, message.session, now);
      assert State() == s.(conns := LookUp(s.conns, address, message.session, now).conns);
      ReportAll(gone, now, start);
    }

    method Answer(player: Name, message: Request, address: Address, now: int, start: Pixels)
      requires Valid() && !terminated && Good(State(), [])
      modifies Repr()
      ensures State() == Answered(old(State()), player, message, address, now, start)
    {
      hide Good, PlayerAction, Service.Deliver, AllFit, Reply;
      ActReady(State(), player, message, now, start);
      if player != message.name {
        return;
      }
      if player != [] {
        var es := game.PlayerAction(player, message.turn, start);
        Deliver(es, now);
        if terminated {
          return;
        }
      }
      MakeMessage(address, message.next);
    }

    method OnConnect(message: Request, address: Address, now: int, start: Pixels)
      requires Valid() && !terminated && Good(State(), []) && RequestOk(message)
      requires AllActive(connections.clients, now) && forall c | c in connections.clients :: c.address != address
      modifies Repr()
      ensures State() == match Service.OnConnect(old(State()), message, address, now, start)
        case None => old(State())
        case Some(t) => Service.OnAction(t, message, address, now, start, true)
      decreases 1, 0
    {
      ghost var s := State();
      ConnectKeeps(s, message, address, now, start);
      KeptAll(s.conns, now);
      assert message.name != [] ==> !AddPlayer(s.game, message.name).NameIsTooLong?;
      hide Good, AddPlayer, Service.OnAction, AllActive, RequestOk;
      if message.name != [] {
        var ok := game.AddPlayer(message.name);
        if !ok {
          return;
        }
      }
      ghost var t := State();
      var gone := connections.AddClient(address, message.session, message.name, now);
      assert gone == [];
      assert State() == Connect(t, message, address, now, start);
      OnAction(message, address, now, start, true);
    }

    // ---- The game loop ----

    method Frame(now: int, next: Pixels)
      requires Valid() && !terminated && Good(State(), [])
      modifies Repr()
      ensures State() == OnFrame(old(State()), now, next)
    {
      hide Good, GameRules.DoFrame, Service.Deliver, Finish;
      ghost var s := State();
      if !game.running {
        return;
      }
      FrameReady(s, next);
      var over := game.snakesAliveCount <= 1;
      var es := game.DoFrame(next);
      assert State() == s.(game := GameRules.DoFrame(s.game, next).game);
      Deliver(es, now);
      if over {
        game.EndGame();
      }
    }
  }

  lemma FrameReady(s: Sys, next: Pixels)
    requires Good(s, []) && !s.down && s.game.running
    ensures |s.game.arena.snakes| <= MAX_SNAKES && GameRules.DoFrame(s.game, next).game.running
  {
  }

  /** An action leaves a log that can be cut into datagrams, unless it takes the server down. */
  lemma ActReady(s: Sys, player: Name, r: Request, now: int, start: Pixels)
    requires Good(s, []) && !s.down
    ensures AllFit(s.log)
    ensures var m := PlayerAction(s.game, player, r.turn, start);
      var t := Service.Deliver(s.(game := m.game), m.events, now);
      (m.game.running || m.events == []) && (!t.down ==> AllFit(t.log))
  {
    var m := PlayerAction(s.game, player, r.turn, start);
    PlayerActionKeeps(s.game, s.log, player, r.turn, start);
    ActsQuietly(s.game, s.log, player, r.turn, start);
    hide GameInv, PlayerAction, BoxOk, Unique, Goes, Drawn;
    DeliverGood(s, m.game, m.events, now, []);
  }
}
