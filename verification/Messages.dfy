/** The code of src/siktacka/events and src/siktacka/protocol that works on buffers and objects, proved against the
    functions of Records and Parsing. */
module Messages {
  import opened Wire
  import opened Records
  import opened Parsing

  /** A number stored into a string at an offset. */
  function Store(b: Bytes, off: nat, n: U32): (r: Bytes)
    requires off + U32_SIZE <= |b|
    ensures |r| == |b|
  {
    b[..off] + PutU32(n) + b[off + U32_SIZE..]
  }

  /** Event::to_bytes. */
  method EventToBytes(crc: Checksum, e: Event) returns (bytes: Bytes)
    ensures bytes == ToBytes(crc, e)
  {
    hide PutU32;
    var data := e.Data();
    bytes := Zeros(EVENT_HEADER_LEN - U32_SIZE);
    bytes := bytes + data;
    var len := Truncate(|bytes| - U32_SIZE);
    var off := 0;
    bytes := Store(bytes, off, len);
    off := off + U32_SIZE;
    bytes := Store(bytes, off, e.no);
    off := off + U32_SIZE;
    bytes := bytes[off := e.Kind()];
    FilledHeader(data, len, e.no, e.Kind());
    off := |bytes|;
    var sum := crc(bytes);
    bytes := bytes + Zeros(U32_SIZE);
    bytes := Store(bytes, off, sum);
  }

  lemma FilledHeader(data: Bytes, len: U32, no: U32, kind: Byte)
    ensures Store(Store(Zeros(9) + data, 0, len), 4, no)[8 := kind] == PutU32(len) + PutU32(no) + [kind] + data
  {
    hide PutU32;
    var a := Store(Zeros(9) + data, 0, len);
    assert a == PutU32(len) + Zeros(5) + data;
    var b := Store(a, 4, no);
    assert b == PutU32(len) + PutU32(no) + [0] + data;
  }

  method StoreU32(a: array<Byte>, off: nat, n: U32)
    requires off + U32_SIZE <= a.Length
    modifies a
    ensures a[..] == Store(old(a[..]), off, n)
  {
    var b := PutU32(n);
    a[off], a[off + 1], a[off + 2], a[off + 3] := b[0], b[1], b[2], b[3];
  }

  /** std::copy of a name, then its NUL. */
  method CopyName(a: array<Byte>, off: nat, name: Name)
    requires off + |name| + 1 <= a.Length && a[off..] == Zeros(a.Length - off)
    modifies a
    ensures a[..off + |name| + 1] == old(a[..off]) + (name + [0])
    ensures a[off + |name| + 1..] == Zeros(a.Length - off - |name| - 1)
  {
    forall k | 0 <= k < |name| {
      a[off + k] := name[k];
    }
    a[off + |name|] := 0;
  }

  lemma JoinTake(names: seq<Name>, i: nat)
    requires i < |names|
    ensures Join(names[..i + 1]) == Join(names[..i]) + (names[i] + [0])
    ensures |Join(names[..i + 1])| <= |Join(names)|
  {
    JoinSnoc(names[..i], names[i]);
    JoinAppend(names[..i + 1], names[i + 1..]);
    assert names[..i] + [names[i]] == names[..i + 1] && names[..i + 1] + names[i + 1..] == names;
  }

  /** The names from an offset on are the one there and those behind it. */
  lemma NextName(data: Bytes, off: nat)
    requires off < |data| && data[|data| - 1] == 0
    ensures var name := CString(data[off..]);
      && off + |name| + 1 <= |data|
      && Split(data[off..]) == [name] + Split(data[off + |name| + 1..])
  {
    var name := CString(data[off..]);
    assert data[off..][|name| + 1..] == data[off + |name| + 1..];
  }

  lemma AddAllTurn(name: Name, rest: seq<Name>, last: Name, names: seq<Name>, len: nat)
    ensures AddAll([name] + rest, last, names, len) ==
      if Less(name, last) then OutOfOrder else
      var r := AddName(names, len, name);
      if r.Added? then AddAll(rest, name, r.names, r.len) else r
  {
    assert ([name] + rest)[1..] == rest;
  }

  class EventNewGame {
    const no: U32
    const maxX: U32
    const maxY: U32
    var players: seq<Name>
    var playersLen: nat

    function Value(): Event
      reads this
    {
      NewGame(no, maxX, maxY, players, playersLen)
    }

    constructor (maxX: U32, maxY: U32, no: U32)
      ensures Value() == NewGame(no, maxX, maxY, [], 0)
    {
      this.maxX, this.maxY, this.no := maxX, maxY, no;
      players, playersLen := [], 0;
    }

    /** NameTooLong is the std::invalid_argument, ListFull the std::overflow_error. */
    method AddPlayer(player: Name) returns (r: AddResult)
      modifies this
      ensures r == AddName(old(players), old(playersLen), player)
      ensures if r.Added? then players == r.names && playersLen == r.len
              else players == old(players) && playersLen == old(playersLen)
    {
      if |player| > MAX_PLAYER_NAME_LENGTH {
        return NameTooLong;
      }
      if playersLen + |player| + 1 > MAX_EVENT_DATA_LEN {
        return ListFull;
      }
      playersLen := playersLen + |player| + 1;
      players := Insert(players, player);
      return Added(players, playersLen);
    }

    /** The buffer is allocated from playersLen, so the names must fit what was accounted for them. */
    method GetData() returns (bytes: array<Byte>)
      requires Value().Sized()
      ensures fresh(bytes) && bytes[..] == Value().Data()
    {
      bytes := new Byte[playersLen + NEW_GAME_HEADER_LEN](_ => 0);
      var off := 0;
      StoreU32(bytes, off, maxX);
      off := off + U32_SIZE;
      StoreU32(bytes, off, maxY);
      off := off + U32_SIZE;
      ghost var header := PutU32(maxX) + PutU32(maxY);
      assert bytes[..off] == header && bytes[off..] == Zeros(playersLen);
      assert Join(players[..0]) == [];
      hide Join, PutU32;
      var i := 0;
      while i < |players|
        invariant 0 <= i <= |players|
        invariant off == NEW_GAME_HEADER_LEN + |Join(players[..i])| <= bytes.Length
        invariant bytes[..off] == header + Join(players[..i])
        invariant bytes[off..] == Zeros(bytes.Length - off)
      {
        var player := players[i];
        JoinTake(players, i);
        CopyName(bytes, off, player);
        off := off + |player| + 1;
        Associate(header, Join(players[..i]), player + [0]);
        i := i + 1;
      }
      assert players[..i] == players;
      assert bytes[..] == bytes[..off] + bytes[off..];
    }

    /** The parsing constructor; null stands for std::invalid_argument. */
    static method FromData(no: U32, data: Bytes) returns (e: EventNewGame?)
      ensures fresh(e) || e == null
      ensures ParseNewGame(no, data) == if e == null then None else Some(e.Value())
    {
      hide Less, Insert, CString, GetU32;
      if |data| < NEW_GAME_HEADER_LEN + 4 {
        return null;
      }
      var off := 0;
      var width := GetU32(data, off);
      off := off + U32_SIZE;
      var height := GetU32(data, off);
      off := off + U32_SIZE;
      if data[|data| - 1] != 0 {
        return null;
      }
      var event := new EventNewGame(width, height, no);
      var last: Name := [];
      while off < |data|
        invariant NEW_GAME_HEADER_LEN <= off <= |data|
        invariant fresh(event)
        invariant AddAll(Split(data[off..]), last, event.players, event.playersLen) ==
                  AddAll(Split(data[NEW_GAME_HEADER_LEN..]), [], [], 0)
      {
        var name := CString(data[off..]);
        NextName(data, off);
        AddAllTurn(name, Split(data[off + |name| + 1..]), last, event.players, event.playersLen);
        hide AddAll, Split, AddName;
        if Less(name, last) {
          return null;
        }
        var r := event.AddPlayer(name);
        if !r.Added? {
          return null;
        }
        last := name;
        off := off + |name| + 1;
      }
      assert data[off..] == [];
      return event;
    }
  }

  /** EventFactory::make. */
  method MakeEvent(crc: Checksum, buffer: Bytes, offset: nat) returns (r: Outcome)
    requires offset <= |buffer|
    ensures r == Make(crc, buffer[offset..])
  {
    var s := buffer[offset..];
    if |s| < U32_SIZE {
      return OutOfContract;
    }
    var off := 0;
    var eventLen: int := GetU32(s, off);
    off := off + U32_SIZE;
    var dataLen := eventLen + U32_SIZE + U32_SIZE;
    if dataLen > |buffer| - offset {
      return BadCrc;
    }
    var sum := GetU32(s, off + eventLen);
    if sum != crc(s[0..eventLen + U32_SIZE]) {
      return BadCrc;
    }
    if eventLen < 5 {
      return OutOfContract;
    }
    var no := GetU32(s, off);
    off := off + U32_SIZE;
    var kind := s[off];
    off := off + 1;
    dataLen := eventLen - U32_SIZE - 1;
    var data := s[off..off + dataLen];
    if kind == NEW_GAME {
      var e := EventNewGame.FromData(no, data);
      return if e == null then Rejected
        else Record(NewGame(e.no, e.maxX, e.maxY, e.players, e.playersLen));
    } else if kind == PIXEL {
      return if dataLen != PIXEL_DATA_LEN then Rejected
        else Record(Pixel(no, data[0], GetU32(data, 1), GetU32(data, 5)));
    } else if kind == PLAYER_ELIMINATED {
      return if dataLen != ELIMINATED_DATA_LEN then Rejected else Record(Eliminated(no, data[0]));
    } else if kind == GAME_OVER {
      return if dataLen != 0 then Rejected else Record(GameOver(no));
    } else {
      return UnknownKind(U32_SIZE + eventLen + U32_SIZE);
    }
  }

  lemma {:induction false} EncodeSnoc(crc: Checksum, events: seq<Event>, e: Event)
    ensures Encode(crc, events + [e]) == Encode(crc, events) + ToBytes(crc, e)
    decreases |events|
  {
    if events == [] {
      assert events + [e] == [e];
    } else {
      assert (events + [e])[1..] == events[1..] + [e];
      EncodeSnoc(crc, events[1..], e);
    }
  }

  class ServerMessage {
    const gameId: U32
    var messageLen: nat
    var events: seq<Event>

    ghost predicate Valid()
      reads this
    {
      messageLen == TotalLen(events)
    }

    constructor (gameId: U32)
      ensures Valid() && events == [] && this.gameId == gameId
    {
      this.gameId := gameId;
      messageLen, events := 0, [];
    }

    /** false stands for std::overflow_error. */
    method AddEvent(event: Event) returns (ok: bool)
      requires Valid()
      modifies this
      ensures Valid()
      ensures ok <==> TotalLen(old(events)) + event.Len() <= MAX_MESSAGE_DATA_LEN
      ensures events == if ok then old(events) + [event] else old(events)
      ensures messageLen == old(messageLen) + if ok then event.Len() else 0
    {
      if messageLen + event.Len() > MAX_MESSAGE_DATA_LEN {
        return false;
      }
      TotalLenSnoc(events, event);
      events := events + [event];
      messageLen := messageLen + event.Len();
      return true;
    }

    method ToBytes(crc: Checksum) returns (bytes: Bytes)
      ensures bytes == Datagram(crc, gameId, events)
    {
      hide Records.ToBytes, PutU32;
      bytes := Store(Zeros(U32_SIZE), 0, gameId);
      var i := 0;
      while i < |events|
        invariant 0 <= i <= |events|
        invariant bytes == PutU32(gameId) + Encode(crc, events[..i])
      {
        var e := EventToBytes(crc, events[i]);
        EncodeSnoc(crc, events[..i], events[i]);
        Associate(PutU32(gameId), Encode(crc, events[..i]), e);
        assert events[..i + 1] == events[..i] + [events[i]];
        bytes := bytes + e;
        i := i + 1;
      }
      assert events[..i] == events;
    }

    /** The parsing constructor; on failure there is no message, and why tells what went wrong. */
    static method FromBytes(crc: Checksum, bytes: Bytes) returns (m: ServerMessage?, why: Scan)
      ensures m == null || fresh(m)
      ensures Parse(crc, bytes) == if m == null then Failed(why) else Message(m.gameId, m.events)
    {
      if |bytes| < MESSAGE_HEADER_LEN {
        return null, Undefined;
      }
      var message := new ServerMessage(GetU32(bytes, 0));
      var off := MESSAGE_HEADER_LEN;
      ghost var scan := ScanFrom(crc, bytes[off..], 0);
      NothingScanned(crc, bytes[off..]);
      assert Parse(crc, bytes) == if scan.Events? then Message(message.gameId, scan.events) else Failed(scan);
      hide Make, Rest, Parse, GetU32;
      while off < |bytes|
        invariant MESSAGE_HEADER_LEN <= off <= |bytes|
        invariant fresh(message) && message.Valid()
        invariant scan == Rest(crc, message.events, bytes[off..])
      {
        ghost var rest := bytes[off..];
        ScanTurn(crc, message.events, rest);
        var r := MakeEvent(crc, bytes, off);
        if r.BadCrc? {
          break;
        } else if r.Rejected? {
          return null, Refused;
        } else if r.OutOfContract? {
          return null, Undefined;
        } else if r.UnknownKind? {
          off := off + r.len;
          assert rest[r.len..] == bytes[off..];
        } else {
          var ok := message.AddEvent(r.event);
          if !ok {
            return null, Overflow;
          }
          off := off + r.event.Len();
          assert rest[r.event.Len()..] == bytes[off..];
        }
      }
      AllScanned(crc, message.events);
      return message, Undefined;
    }
  }

  /** What the loop comes to when it has added some events and has the bytes s left. */
  ghost function Rest(crc: Checksum, done: seq<Event>, s: Bytes): Scan {
    After(done, ScanFrom(crc, s, TotalLen(done)))
  }

  ghost function After(done: seq<Event>, scan: Scan): Scan {
    if scan.Events? then Events(done + scan.events) else scan
  }

  lemma AfterPrepend(done: seq<Event>, e: Event, scan: Scan)
    ensures After(done, Prepend(e, scan)) == After(done + [e], scan)
    ensures After(done, Overflow) == Overflow
  {
    if scan.Events? {
      assert done + ([e] + scan.events) == done + [e] + scan.events;
    }
  }

  lemma NothingScanned(crc: Checksum, s: Bytes)
    ensures Rest(crc, [], s) == ScanFrom(crc, s, 0)
  {
    hide Make;
    var scan := ScanFrom(crc, s, 0);
    assert scan.Events? ==> [] + scan.events == scan.events;
  }

  lemma AllScanned(crc: Checksum, done: seq<Event>)
    ensures Rest(crc, done, []) == Events(done)
  {
    assert done + [] == done;
  }

  /** One turn of the loop; the offset never passes the end of the buffer. */
  lemma ScanTurn(crc: Checksum, done: seq<Event>, s: Bytes)
    requires s != []
    ensures Make(crc, s).BadCrc? ==> Rest(crc, done, s) == Events(done)
    ensures Make(crc, s).Rejected? ==> Rest(crc, done, s) == Refused
    ensures Make(crc, s).OutOfContract? ==> Rest(crc, done, s) == Undefined
    ensures Make(crc, s).UnknownKind? ==>
      var len := Make(crc, s).len;
      0 < len <= |s| && Rest(crc, done, s) == Rest(crc, done, s[len..])
    ensures Make(crc, s).Record? ==>
      var e := Make(crc, s).event;
      && 0 < e.Len() <= |s|
      && Rest(crc, done, s) ==
         if TotalLen(done) + e.Len() > MAX_MESSAGE_DATA_LEN then Overflow else Rest(crc, done + [e], s[e.Len()..])
  {
    MakeAdvance(crc, s);
    hide Make;
    if Make(crc, s).Record? {
      RecordTurn(crc, done, s, Make(crc, s).event);
    } else {
      assert done + [] == done;
    }
  }

  lemma RecordTurn(crc: Checksum, done: seq<Event>, s: Bytes, e: Event)
    requires Make(crc, s) == Record(e) && 0 < e.Len() <= |s|
    ensures Rest(crc, done, s) ==
      if TotalLen(done) + e.Len() > MAX_MESSAGE_DATA_LEN then Overflow else Rest(crc, done + [e], s[e.Len()..])
  {
    TotalLenSnoc(done, e);
    hide Make, After, Prepend;
    AfterPrepend(done, e, ScanFrom(crc, s[e.Len()..], TotalLen(done) + e.Len()));
  }

  lemma MakeAdvance(crc: Checksum, s: Bytes)
    ensures Make(crc, s).UnknownKind? ==> 0 < Make(crc, s).len <= |s|
    ensures Make(crc, s).Record? ==> 0 < Make(crc, s).event.Len() <= |s|
  {
    if Make(crc, s).Record? {
      var r := MakeSound(crc, s);
    }
  }
}
