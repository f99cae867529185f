/** What the lines on the GUI tell of the events, and what stops a client. */
module Display {
  import opened Wire
  import opened Records
  import opened Parsing
  import opened Datagrams
  import opened Delivery

  // ---- Lines ----

  /** The line has the kind and the coordinates of the event, and the name that has the event's player number. */
  ghost predicate Shows(line: Line, e: Event, players: seq<Name>) {
    && (e.NewGame? ==> line.NewGameLine? && line.maxX == e.maxX && line.maxY == e.maxY && line.players == players)
    && (e.Pixel? ==> line.PixelLine? && line.x == e.x && line.y == e.y
                     && e.player < |players| && line.player == players[e.player])
    && (e.Eliminated? ==> line.EliminatedLine? && e.player < |players| && line.player == players[e.player])
    && (e.GameOver? ==> line.GameOverLine?)
  }

  lemma RenderShows(e: Event, players: seq<Name>)
    requires (e.Pixel? || e.Eliminated?) ==> e.player < |players|
    ensures forall line :: line == Render(e, players) <==> Shows(line, e, players)
  {
  }

  /** Two events of one game that look the same are the same but for their numbers and for a repeated list of names. */
  lemma RenderInjective(a: Event, b: Event, width: U32, height: U32, players: seq<Name>)
    requires StrictlySorted(players)
    requires a.ValidInGame(width, height, |players|) && b.ValidInGame(width, height, |players|)
    requires Render(a, players) == Render(b, players)
    ensures a.Kind() == b.Kind()
    ensures a.NewGame? ==> a.maxX == b.maxX && a.maxY == b.maxY
    ensures a.Pixel? ==> a.player == b.player && a.x == b.x && a.y == b.y
    ensures a.Eliminated? ==> a.player == b.player
  {
    if a.Pixel? || a.Eliminated? {
      LessTotal(players[a.player], players[b.player]);
    }
  }

  /** Delivered lines determine the log: games that look the same for k lines have the same first k events. */
  lemma {:induction false} LinesDetermine(a: seq<Event>, b: seq<Event>, k: nat)
    requires GameLog(a) && GameLog(b) && k <= |a| && k <= |b|
    requires a[0].Canonical() && b[0].Canonical()
    requires Lines(a, k) == Lines(b, k)
    ensures a[..k] == b[..k]
    decreases k
  {
    if k > 0 {
      var n := k - 1;
      assert Lines(a, n) == Lines(a, k)[..n] && Lines(b, n) == Lines(b, k)[..n];
      LinesDetermine(a, b, n);
      SameEvent(a, b, k, 0);
      SameEvent(a, b, k, n);
      hide GameLog, Lines;
      assert a[..k] == a[..n] + [a[n]] && b[..k] == b[..n] + [b[n]];
    }
  }

  lemma SameEvent(a: seq<Event>, b: seq<Event>, k: nat, n: nat)
    requires GameLog(a) && GameLog(b) && n < k <= |a| && k <= |b|
    requires a[0].Canonical() && b[0].Canonical() && Lines(a, k) == Lines(b, k)
    ensures a[n] == b[n]
  {
    assert Lines(a, k)[0] == Render(a[0], a[0].names) && Lines(b, k)[0] == Render(b[0], b[0].names);
    assert Lines(a, k)[n] == Render(a[n], a[0].names) && Lines(b, k)[n] == Render(b[n], b[0].names);
    assert a[0] == b[0] && a[n].no == n == b[n].no;
    if n > 0 {
      RenderInjective(a[n], b[n], a[0].maxX, a[0].maxY, a[0].names);
    }
  }

  // ---- What stops a client ----

  /** The event cannot happen on this board with this many players. */
  ghost predicate Impossible(e: Event, width: U32, height: U32, count: nat) {
    || (e.Pixel? && (e.x >= width || e.y >= height || e.player >= count))
    || (e.Eliminated? && e.player >= count)
  }

  /** An event with the expected number is shown, as one of the game that it may describe itself, exactly if it is
      possible; otherwise the client stops and shows nothing. */
  lemma AcceptIff(r: Receiver, e: Event)
    requires !r.stopped && !e.GameOver?
    ensures var q := Accept(r, e);
      && q.gameId == r.gameId
      && (q.stopped <==> Impossible(e, r.width, r.height, |r.players|))
      && (if e.NewGame? then q.width == e.maxX && q.height == e.maxY && q.players == e.names
          else q.width == r.width && q.height == r.height && q.players == r.players)
      && (q.stopped ==> q.eventNo == r.eventNo && q.delivered == r.delivered)
      && (!q.stopped ==>
            && q.eventNo == (r.eventNo as int + 1) % 0x1_0000_0000
            && q.delivered == r.delivered + [Render(e, q.players)])
  {
  }

  /** None of the first i events lies behind a gap. */
  ghost predicate Gapless(r: Receiver, events: seq<Event>, i: nat)
    requires i <= |events|
  {
    forall j | 0 <= j < i :: events[j].no <= Handle(r, events[..j]).eventNo
  }

  /** The client after an event that lies behind no gap. */
  function Stepped(r: Receiver, e: Event): Receiver {
    Handle(r, [e])
  }

  lemma HandleCons(r: Receiver, events: seq<Event>)
    requires events != [] && events[0].no <= r.eventNo
    ensures Handle(r, events) == Handle(Stepped(r, events[0]), events[1..])
  {
    OneHandled(r, events[0]);
  }

  lemma OneHandled(r: Receiver, e: Event)
    requires e.no <= r.eventNo
    ensures Stepped(r, e) == if r.stopped || e.no < r.eventNo || e.GameOver? then r else Accept(r, e)
  {
    assert [e][1..] == [];
    NothingHandled(r);
    NothingHandled(Accept(r, e));
  }

  /** What lies behind no gap from here lies behind none from behind the first event. */
  lemma GaplessCons(r: Receiver, events: seq<Event>, i: nat)
    requires i < |events| && events[0].no <= r.eventNo
    ensures Gapless(Stepped(r, events[0]), events[1..], i) <==> Gapless(r, events, i + 1)
    ensures Handle(Stepped(r, events[0]), events[1..][..i]) == Handle(r, events[..i + 1])
  {
    var t, rest := Stepped(r, events[0]), events[1..];
    hide Handle, Stepped;
    forall j | 0 <= j <= i ensures Handle(t, rest[..j]) == Handle(r, events[..j + 1]) {
      assert events[..j + 1][1..] == rest[..j];
      HandleCons(r, events[..j + 1]);
    }
    assert events[..0] == [];
    NothingHandled(r);
    if Gapless(t, rest, i) {
      forall j | 0 <= j < i + 1 ensures events[j].no <= Handle(r, events[..j]).eventNo {
        if j > 0 {
          assert rest[j - 1].no <= Handle(t, rest[..j - 1]).eventNo;
        }
      }
    }
    if Gapless(r, events, i + 1) {
      forall j | 0 <= j < i ensures rest[j].no <= Handle(t, rest[..j]).eventNo {
        assert events[j + 1].no <= Handle(r, events[..j + 1]).eventNo;
      }
    }
  }

  lemma NothingHandled(r: Receiver)
    ensures Handle(r, []) == r
  {
  }

  /** The loop goes on behind events without a gap. */
  lemma {:induction false} HandleFrom(r: Receiver, events: seq<Event>, i: nat)
    requires i <= |events| && Gapless(r, events, i)
    ensures Handle(r, events) == Handle(Handle(r, events[..i]), events[i..])
    decreases i
  {
    hide Handle, Stepped;
    NothingHandled(r);
    if i == 0 {
      assert events[..0] == [] && events[0..] == events;
    } else {
      assert events[..0] == [] && events[0].no <= Handle(r, events[..0]).eventNo;
      GaplessCons(r, events, i - 1);
      HandleCons(r, events);
      HandleFrom(Stepped(r, events[0]), events[1..], i - 1);
      assert events[1..][i - 1..] == events[i..];
    }
  }

  /** Nothing behind a gap is handled. */
  lemma GapEnds(r: Receiver, events: seq<Event>, i: nat)
    requires i < |events| && Gapless(r, events, i) && events[i].no > Handle(r, events[..i]).eventNo
    ensures Handle(r, events) == Handle(r, events[..i])
  {
    HandleFrom(r, events, i);
  }

  /** Event i stops the client: it lies behind no gap, carries the expected number, and cannot happen in the game as it
      is described by then. */
  ghost predicate Stopping(r: Receiver, events: seq<Event>, i: nat)
    requires i < |events|
  {
    var t := Handle(r, events[..i]);
    && Gapless(r, events, i) && !t.stopped
    && events[i].no == t.eventNo && Impossible(events[i], t.width, t.height, |t.players|)
  }

  lemma StoppedThere(r: Receiver, events: seq<Event>, i: nat)
    requires i < |events| && Stopping(r, events, i)
    ensures Handle(r, events) == Handle(r, events[..i]).(stopped := true)
  {
    var t := Handle(r, events[..i]);
    HandleFrom(r, events, i);
    AcceptIff(t, events[i]);
  }

  /** A client is stopped exactly by an impossible event in its turn, and then has shown all that came before it and
      nothing else. */
  lemma {:induction false} StopsIff(r: Receiver, events: seq<Event>)
    requires !r.stopped
    ensures Handle(r, events).stopped <==> exists i | 0 <= i < |events| :: Stopping(r, events, i)
    ensures forall i | 0 <= i < |events| && Stopping(r, events, i) ::
      Handle(r, events) == Handle(r, events[..i]).(stopped := true)
    decreases |events|
  {
    forall i | 0 <= i < |events| && Stopping(r, events, i)
      ensures Handle(r, events) == Handle(r, events[..i]).(stopped := true)
    {
      StoppedThere(r, events, i);
    }
    if Handle(r, events).stopped {
      StoppedBy(r, events);
    }
  }

  lemma {:induction false} StoppedBy(r: Receiver, events: seq<Event>)
    requires !r.stopped && Handle(r, events).stopped
    ensures exists i | 0 <= i < |events| :: Stopping(r, events, i)
    decreases |events|
  {
    assert events != [] && events[0].no <= r.eventNo;
    var t, rest := Stepped(r, events[0]), events[1..];
    HandleCons(r, events);
    if t.stopped {
      FirstStops(r, events);
    } else {
      hide Handle, Stepped;
      StoppedBy(t, rest);
      var i :| 0 <= i < |rest| && Stopping(t, rest, i);
      GaplessCons(r, events, i);
      assert Stopping(r, events, i + 1);
    }
  }

  lemma FirstStops(r: Receiver, events: seq<Event>)
    requires !r.stopped && events != [] && events[0].no <= r.eventNo && Stepped(r, events[0]).stopped
    ensures Stopping(r, events, 0)
  {
    var e := events[0];
    assert events[..0] == [];
    OneHandled(r, e);
    NothingHandled(r);
    if !e.GameOver? {
      AcceptIff(r, e);
    }
  }

  /** The client in the game of the message. */
  function Entered(r: Receiver, id: U32): Receiver {
    if r.gameId != id then r.(gameId := id, eventNo := 0) else r
  }

  /** Behind the id comes an intact record of a known type that makes no event, and before it only readable ones. */
  ghost predicate Spoilt(crc: Checksum, b: Bytes)
    requires |b| >= MESSAGE_HEADER_LEN
  {
    exists raws, bad, tail :: Spoils(crc, b[MESSAGE_HEADER_LEN..], raws, bad, tail)
  }

  /** What stops a client for good: a datagram with a bad payload in an intact record, of which it takes nothing, or an
      impossible event in its turn. Broken and unknown records never do. */
  lemma BytesStopIff(crc: Checksum, r: Receiver, b: Bytes)
    requires !r.stopped && MESSAGE_HEADER_LEN <= |b| <= MAX_MESSAGE_LEN && Parse(crc, b) != Failed(Undefined)
    ensures Spoilt(crc, b) ==> ReceiveBytes(crc, r, b) == r.(stopped := true)
    ensures !Spoilt(crc, b) ==>
      Parse(crc, b).Message? &&
      var id, events := Parse(crc, b).id, Parse(crc, b).events;
      ReceiveBytes(crc, r, b).stopped <==> exists i | 0 <= i < |events| :: Stopping(Entered(r, id), events, i)
  {
    RefusedIff(crc, b);
    NoOverflow(crc, b[MESSAGE_HEADER_LEN..], 0);
    hide ScanFrom;
    if !Spoilt(crc, b) {
      assert Parse(crc, b).Message?;
      StopsIff(Entered(r, Parse(crc, b).id), Parse(crc, b).events);
    }
  }
}
