/** EventFactory::make and the parsing constructor of ServerMessage, with their round trips. */
module Parsing {
  import opened Wire
  import opened Records

  /** The std::string made from a C string: the bytes up to the first NUL. */
  function CString(data: Bytes): (name: Name)
    requires data != [] && data[|data| - 1] == 0
    ensures |name| < |data| && data[..|name|] == name && data[|name|] == 0 && 0 !in name
  {
    if data[0] == 0 then [] else [data[0]] + CString(data[1..])
  }

  /** The names that the parsing loop of EventNewGame reads, one C string after another. */
  function Split(data: Bytes): seq<Name>
    requires data != [] ==> data[|data| - 1] == 0
  {
    if data == [] then [] else
    var name := CString(data);
    [name] + Split(data[|name| + 1..])
  }

  /** What that loop does with them. */
  function AddAll(read: seq<Name>, last: Name, names: seq<Name>, len: nat): AddResult {
    if read == [] then Added(names, len)
    else if Less(read[0], last) then OutOfOrder else
    var r := AddName(names, len, read[0]);
    if r.Added? then AddAll(read[1..], read[0], r.names, r.len) else r
  }

  /** The four parsing constructors; None stands for std::invalid_argument. */
  function ParseNewGame(no: U32, data: Bytes): Option<Event> {
    if |data| < NEW_GAME_HEADER_LEN + 4 || data[|data| - 1] != 0 then None
    else match AddAll(Split(data[NEW_GAME_HEADER_LEN..]), [], [], 0)
      case Added(names, len) => Some(NewGame(no, GetU32(data, 0), GetU32(data, 4), names, len))
      case _ => None
  }

  function ParseData(no: U32, kind: Byte, data: Bytes): Option<Event>
    requires kind <= GAME_OVER
  {
    if kind == NEW_GAME then ParseNewGame(no, data)
    else if kind == PIXEL then
      if |data| != PIXEL_DATA_LEN then None else Some(Pixel(no, data[0], GetU32(data, 1), GetU32(data, 5)))
    else if kind == PLAYER_ELIMINATED then
      if |data| != ELIMINATED_DATA_LEN then None else Some(Eliminated(no, data[0]))
    else if data != [] then None else Some(GameOver(no))
  }

  /** OutOfContract marks the reads that the source makes without a check: fewer than four bytes left, or an intact
      record with no room for a number and a type. */
  datatype Outcome = Record(event: Event) | BadCrc | UnknownKind(len: nat) | Rejected | OutOfContract

  /** EventFactory::make, as a function of the bytes from its offset on. */
  function Make(crc: Checksum, s: Bytes): Outcome {
    if |s| < U32_SIZE then OutOfContract else
    var len: int := GetU32(s, 0);
    if len + 8 > |s| then BadCrc
    else if GetU32(s, 4 + len) != crc(s[0..4 + len]) then BadCrc
    else if len < 5 then OutOfContract
    else if s[8] > GAME_OVER then UnknownKind(len + 8)
    else match ParseData(GetU32(s, 4), s[8], s[9..4 + len])
      case None => Rejected
      case Some(e) => Record(e)
  }

  /** What the loop over the records comes to: Refused is the std::invalid_argument of an event constructor and
      Overflow the std::overflow_error of add_event, which nothing in the loop catches. */
  datatype Scan = Events(events: seq<Event>) | Refused | Overflow | Undefined

  /** The while loop over off, from the bytes it has left and the message_len it has accumulated. */
  function ScanFrom(crc: Checksum, s: Bytes, used: nat): Scan
    decreases |s|
  {
    if s == [] then Events([])
    else match Make(crc, s)
      case BadCrc => Events([])
      case Rejected => Refused
      case OutOfContract => Undefined
      case UnknownKind(len) => ScanFrom(crc, s[len..], used)
      case Record(e) =>
        if used + e.Len() > MAX_MESSAGE_DATA_LEN then Overflow
        else if e.Len() > |s| then Events([e]) else Prepend(e, ScanFrom(crc, s[e.Len()..], used + e.Len()))
  }

  function Prepend(e: Event, scan: Scan): Scan {
    if scan.Events? then Events([e] + scan.events) else scan
  }

  datatype Parsed = Message(id: U32, events: seq<Event>) | Failed(why: Scan)

  /** The parsing constructor of ServerMessage. */
  function Parse(crc: Checksum, b: Bytes): Parsed {
    if |b| < MESSAGE_HEADER_LEN then Failed(Undefined) else
    var scan := ScanFrom(crc, b[MESSAGE_HEADER_LEN..], 0);
    if scan.Events? then Message(GetU32(b, 0), scan.events) else Failed(scan)
  }

  /** message_len. */
  function TotalLen(events: seq<Event>): nat {
    if events == [] then 0 else events[0].Len() + TotalLen(events[1..])
  }

  lemma {:induction false} TotalLenAppend(a: seq<Event>, b: seq<Event>)
    ensures TotalLen(a + b) == TotalLen(a) + TotalLen(b)
    decreases |a|
  {
    if a == [] {
      assert a + b == b;
    } else {
      assert (a + b)[1..] == a[1..] + b;
      TotalLenAppend(a[1..], b);
    }
  }

  lemma TotalLenSnoc(events: seq<Event>, e: Event)
    ensures TotalLen(events + [e]) == TotalLen(events) + e.Len()
  {
    TotalLenAppend(events, [e]);
    assert [e][1..] == [];
  }

  function Encode(crc: Checksum, events: seq<Event>): Bytes {
    if events == [] then [] else ToBytes(crc, events[0]) + Encode(crc, events[1..])
  }

  /** ServerMessage::to_bytes. */
  function Datagram(crc: Checksum, id: U32, events: seq<Event>): Bytes {
    PutU32(id) + Encode(crc, events)
  }

  // ---- What the parser accepts ----

  /** The loop invariant of the name loop: the names so far are the sorted set of those read, none above the last
      one, and repeated names are counted twice but stored once. */
  ghost predicate NameState(names: seq<Name>, len: nat, last: Name) {
    Listed(names, len) && forall n | n in names :: !Less(last, n)
  }

  ghost predicate Listed(names: seq<Name>, len: nat) {
    && StrictlySorted(names)
    && (forall n | n in names :: |n| <= MAX_PLAYER_NAME_LENGTH && 0 !in n)
    && |Join(names)| <= len <= MAX_EVENT_DATA_LEN
  }

  /** Adding a name that is not below the last one either appends it or changes nothing. */
  lemma {:induction false} InsertAbove(names: seq<Name>, name: Name)
    requires StrictlySorted(names)
    requires forall n | n in names :: !Less(name, n)
    ensures Insert(names, name) == if name in names then names else names + [name]
  {
    if name in names {
      InsertSorted(names, name);
      SortedUnique(Insert(names, name), names);
    } else {
      forall i | 0 <= i < |names| ensures Less(names[i], name) {
        LessTotal(names[i], name);
        assert names[i] in names;
      }
      InsertLast(names, name);
    }
  }

  lemma NameStep(names: seq<Name>, len: nat, last: Name, name: Name)
    requires NameState(names, len, last) && !Less(name, last) && 0 !in name
    requires AddName(names, len, name).Added?
    ensures var next := Insert(names, name);
      && NameState(next, len + |name| + 1, name)
      && (Join(next) == Join(names) + (name + [0]) || Join(next) == Join(names))
  {
    forall n | n in names ensures !Less(name, n) {
      LessTotal(last, n);
      LessTotal(name, n);
      LessTotal(name, last);
      if Less(name, n) && n != last { LessTransitive(name, n, last); }
    }
    InsertAbove(names, name);
    InsertSorted(names, name);
    JoinSnoc(names, name);
    LessTotal(name, name);
  }

  /** Every accepted list is a sorted set whose accounted length is that of the names read; when it takes as many
      bytes, nothing was repeated and the set lists the names as they were read. */
  lemma {:induction false} AddAllSound(
      read: seq<Name>, last: Name, names: seq<Name>, len: nat, all: seq<Name>, total: nat)
    requires NameState(names, len, last) && forall n | n in read :: 0 !in n
    requires AddAll(read, last, names, len) == Added(all, total)
    ensures Listed(all, total)
    ensures total == len + |Join(read)|
    ensures |Join(all)| - |Join(names)| <= |Join(read)|
    ensures |Join(all)| - |Join(names)| == |Join(read)| ==> Join(all) == Join(names) + Join(read)
    decreases |read|
  {
    hide *;
    if read == [] {
      NothingAdded(last, names, len);
    } else {
      var name, rest := read[0], read[1..];
      assert name in read && forall n | n in rest :: n in read;
      AddAllStep(read, last, names, len);
      NameStep(names, len, last, name);
      AddAllSound(rest, name, Insert(names, name), len + |name| + 1, all, total);
      Tally(Join(names), Join(Insert(names, name)), name + [0], Join(rest), Join(all));
    }
  }

  lemma NothingAdded(last: Name, names: seq<Name>, len: nat)
    requires NameState(names, len, last)
    ensures AddAll([], last, names, len) == Added(names, len) && Listed(names, len)
    ensures Join([]) == [] && Join(names) + [] == Join(names)
  {
  }

  lemma AddAllStep(read: seq<Name>, last: Name, names: seq<Name>, len: nat)
    requires read != [] && AddAll(read, last, names, len).Added?
    ensures AddName(names, len, read[0]).Added? && !Less(read[0], last)
    ensures AddAll(read, last, names, len) ==
      AddAll(read[1..], read[0], Insert(names, read[0]), len + |read[0]| + 1)
    ensures Join(read) == read[0] + [0] + Join(read[1..])
  {
  }

  /** One turn more: `next` is `before` with or without the piece, and the rest adds to it. */
  lemma Tally(before: Bytes, next: Bytes, piece: Bytes, rest: Bytes, all: Bytes)
    requires next == before + piece || next == before
    requires |all| - |next| <= |rest| && (|all| - |next| == |rest| ==> all == next + rest)
    requires piece != []
    ensures |all| - |before| <= |piece + rest|
    ensures |all| - |before| == |piece + rest| ==> all == before + (piece + rest)
  {
  }

  lemma {:induction false} JoinSplit(data: Bytes)
    requires data != [] ==> data[|data| - 1] == 0
    ensures Join(Split(data)) == data
    ensures forall n | n in Split(data) :: 0 !in n
    decreases |data|
  {
    if data != [] {
      var name := CString(data);
      hide CString;
      var rest := data[|name| + 1..];
      JoinSplit(rest);
      assert Split(data) == [name] + Split(rest);
      assert data == name + [0] + rest;
    }
  }

  lemma ParseNewGameSound(no: U32, data: Bytes)
    requires ParseNewGame(no, data).Some?
    ensures var e := ParseNewGame(no, data).value;
      && e.NewGame? && e.no == no && e.Sized() && e.namesLen == |data| - NEW_GAME_HEADER_LEN
      && (|Join(e.names)| == e.namesLen ==> e.Canonical() && e.Data() == data)
  {
    var e := ParseNewGame(no, data).value;
    var rest := data[NEW_GAME_HEADER_LEN..];
    NamesSound(rest, e.names, e.namesLen);
    HeaderAndRest(data);
    assert Zeros(0) == [];
    hide PutU32, GetU32, CString, Split, AddAll, Join;
  }

  lemma NamesSound(rest: Bytes, names: seq<Name>, len: nat)
    requires rest != [] && rest[|rest| - 1] == 0
    requires AddAll(Split(rest), [], [], 0) == Added(names, len)
    ensures Listed(names, len) && len == |rest| && |Join(names)| <= |rest|
    ensures |Join(names)| == |rest| ==> Join(names) == rest
  {
    hide *;
    JoinSplit(rest);
    NothingRead(rest);
    AddAllSound(Split(rest), [], [], 0, names, len);
  }

  lemma NothingRead(rest: Bytes)
    ensures NameState([], 0, []) && Join([]) == [] && [] + rest == rest
  {
  }

  lemma HeaderAndRest(data: Bytes)
    requires |data| >= NEW_GAME_HEADER_LEN
    ensures PutU32(GetU32(data, 0)) + PutU32(GetU32(data, 4)) + data[NEW_GAME_HEADER_LEN..] + [] == data
  {
    PutGet(data, 0);
    PutGet(data, 4);
  }

  /** For every accepted payload get_len is the payload plus the framing, repeated names or not; and unless names
      repeat, serialising the event gives back the bytes it was read from. */
  lemma ParseSound(no: U32, kind: Byte, data: Bytes)
    requires kind <= GAME_OVER
    requires ParseData(no, kind, data).Some?
    ensures var e := ParseData(no, kind, data).value;
      && e.no == no && e.Kind() == kind && e.Len() == EVENT_HEADER_LEN + |data|
      && (e.Canonical() || (e.NewGame? && |Join(e.names)| < e.namesLen))
      && (e.Canonical() ==> e.Data() == data)
  {
    if kind == NEW_GAME {
      ParseNewGameSound(no, data);
    } else if kind == PIXEL {
      PutGet(data, 1);
      PutGet(data, 5);
      assert data == [data[0]] + data[1..5] + data[5..9];
    }
  }

  // ---- Parsing undoes printing ----

  /** Names in strict order are all added. */
  lemma {:induction false} AddAllOfSorted(all: seq<Name>, i: nat, len: nat)
    requires i <= |all| && StrictlySorted(all)
    requires forall n | n in all :: |n| <= MAX_PLAYER_NAME_LENGTH
    requires len + |Join(all[i..])| <= MAX_EVENT_DATA_LEN
    ensures AddAll(all[i..], LastOf(all[..i]), all[..i], len) == Added(all, len + |Join(all[i..])|)
    decreases |all| - i
  {
    hide Less, Insert;
    if i == |all| {
      assert all[..i] == all;
    } else {
      assert all[i] in all && all[i..][1..] == all[i + 1..];
      NextInOrder(all, i);
      AddAllOfSorted(all, i + 1, len + |all[i]| + 1);
    }
  }

  function LastOf(names: seq<Name>): Name {
    if names == [] then [] else names[|names| - 1]
  }

  lemma NextInOrder(all: seq<Name>, i: nat)
    requires i < |all| && StrictlySorted(all)
    ensures Insert(all[..i], all[i]) == all[..i + 1]
    ensures !Less(all[i], LastOf(all[..i])) && LastOf(all[..i + 1]) == all[i]
  {
    LessTotal(all[i], LastOf(all[..i]));
    InsertLast(all[..i], all[i]);
  }

  lemma {:induction false} SplitJoin(names: seq<Name>)
    requires forall n | n in names :: 0 !in n
    ensures Join(names) != [] ==> Join(names)[|Join(names)| - 1] == 0
    ensures Split(Join(names)) == names
  {
    if names != [] {
      assert names[0] in names && forall n | n in names[1..] :: n in names;
      SplitJoin(names[1..]);
      SplitCons(names[0], Join(names[1..]));
      assert Join(names) == names[0] + [0] + Join(names[1..]);
      hide CString, Split;
    }
  }

  lemma SplitCons(name: Name, after: Bytes)
    requires 0 !in name && (after != [] ==> after[|after| - 1] == 0)
    ensures var s := name + [0] + after; s[|s| - 1] == 0 && Split(s) == [name] + Split(after)
  {
    var s := name + [0] + after;
    CStringOf(name, after);
    assert s[|name| + 1..] == after;
  }

  lemma {:induction false} CStringOf(name: Name, after: Bytes)
    requires 0 !in name && (after != [] ==> after[|after| - 1] == 0)
    ensures CString(name + [0] + after) == name
  {
    if name != [] {
      assert (name + [0] + after)[1..] == name[1..] + [0] + after;
      assert name[0] in name && 0 !in name[1..];
      CStringOf(name[1..], after);
    }
  }

  lemma HeaderOf(x: U32, y: U32, rest: Bytes)
    ensures var d := PutU32(x) + PutU32(y) + rest;
      GetU32(d, 0) == x && GetU32(d, 4) == y && d[NEW_GAME_HEADER_LEN..] == rest
  {
    GetPut(PutU32(x) + PutU32(y) + rest, 0, x);
    GetPut(PutU32(x) + PutU32(y) + rest, 4, y);
  }

  lemma ParseOfNewGame(e: Event)
    requires e.NewGame? && e.namesLen == |Join(e.names)|
    ensures ParseNewGame(e.no, e.Data()) == Some(e) <==> e.Canonical()
  {
    hide Less, AddAll, Split, PutU32, GetU32;
    var d, names, joined := e.Data(), e.names, Join(e.names);
    assert Zeros(0) == [] && joined + [] == joined;
    assert d == PutU32(e.maxX) + PutU32(e.maxY) + joined;
    HeaderOf(e.maxX, e.maxY, joined);
    if e.Canonical() {
      AddAllOfJoin(names);
      assert d[|d| - 1] == joined[|joined| - 1];
    }
    if ParseNewGame(e.no, d) == Some(e) {
      ParseNewGameSound(e.no, d);
    }
  }

  lemma AddAllOfJoin(names: seq<Name>)
    requires Listed(names, |Join(names)|)
    ensures Join(names) != [] ==> Join(names)[|Join(names)| - 1] == 0
    ensures AddAll(Split(Join(names)), [], [], 0) == Added(names, |Join(names)|)
  {
    SplitJoin(names);
    AddAllOfSorted(names, 0, 0);
    assert names[0..] == names && names[..0] == [];
  }

  /** Which lists of names are accepted: in order, where names may repeat, none longer than 64 bytes, and all of them
      with their NULs no longer than 495. */
  ghost predicate Acceptable(read: seq<Name>) {
    && (forall i | 0 <= i < |read| :: |read[i]| <= 64)
    && (forall i | 0 < i < |read| :: !Less(read[i], read[i - 1]))
    && |Join(read)| <= 495
  }

  lemma {:induction false} AddAllIff(read: seq<Name>, last: Name, names: seq<Name>, len: nat)
    requires len <= 495
    ensures AddAll(read, last, names, len).Added? <==>
      && (forall i | 0 <= i < |read| :: |read[i]| <= 64)
      && (forall i | 0 < i < |read| :: !Less(read[i], read[i - 1]))
      && (read != [] ==> !Less(read[0], last))
      && len + |Join(read)| <= 495
    decreases |read|
  {
    if read != [] {
      var rest := read[1..];
      var r := AddName(names, len, read[0]);
      assert forall i | 0 <= i < |rest| :: rest[i] == read[i + 1];
      assert forall i | 0 < i < |read| :: read[i] == rest[i - 1];
      if r.Added? {
        AddAllIff(rest, read[0], r.names, r.len);
      }
    }
  }

  /** The payloads of NEW_GAME that are accepted: at least 12 bytes, the last of them NUL, with an acceptable list of
      names behind the first eight. */
  lemma ParseNewGameIff(no: U32, data: Bytes)
    ensures ParseNewGame(no, data).Some? <==>
      |data| >= 12 && data[|data| - 1] == 0 && Acceptable(Split(data[8..]))
  {
    if |data| >= 12 && data[|data| - 1] == 0 {
      AddAllIff(Split(data[8..]), [], [], 0);
    }
  }

  /** An event whose accounted length is right parses back from its own payload exactly when it is canonical. */
  lemma ParseOfData(e: Event)
    requires e.NewGame? ==> e.namesLen == |Join(e.names)|
    ensures ParseData(e.no, e.Kind(), e.Data()) == Some(e) <==> e.Canonical()
  {
    match e
    case NewGame(_, _, _, _, _) =>
      ParseOfNewGame(e);
    case Pixel(_, player, x, y) =>
      GetPut(e.Data(), 1, x);
      GetPut(e.Data(), 5, y);
    case Eliminated(_, _) =>
    case GameOver(_) =>
  }

  // ---- Records in a buffer ----

  /** The fields of a record, in the order and at the places the source writes them. */
  lemma FrameFields(crc: Checksum, no: U32, kind: Byte, data: Bytes, after: Bytes)
    requires 5 + |data| < 0x1_0000_0000
    ensures var b := Frame(crc, no, kind, data) + after;
      && |b| == EVENT_HEADER_LEN + |data| + |after|
      && GetU32(b, 0) == 5 + |data| && GetU32(b, 4) == no && b[8] == kind && b[9..9 + |data|] == data
      && b[0..9 + |data|] == Body(no, kind, data) && GetU32(b, 9 + |data|) == crc(Body(no, kind, data))
  {
    var body := Body(no, kind, data);
    var b := Frame(crc, no, kind, data) + after;
    hide PutU32, GetU32;
    assert b[0..9 + |data|] == body;
    assert b[0..4] == PutU32(5 + |data|) && b[4..8] == PutU32(no) && b[9..9 + |data|] == data;
    assert b[9 + |data|..9 + |data| + 4] == PutU32(crc(body));
    GetPut(b, 0, 5 + |data|);
    GetPut(b, 4, no);
    GetPut(b, 9 + |data|, crc(body));
  }

  /** Where the fields of each event are on the wire. */
  lemma RecordLayout(crc: Checksum, e: Event)
    requires e.NewGame? ==> e.namesLen == |Join(e.names)| <= 487
    ensures var b := ToBytes(crc, e); var n := |b|;
      && n >= 13 && GetU32(b, 0) == n - 8 && GetU32(b, 4) == e.no && GetU32(b, n - 4) == crc(b[..n - 4])
      && (e.NewGame? ==>
            && n == 21 + |Join(e.names)| && b[8] == 0 && GetU32(b, 9) == e.maxX && GetU32(b, 13) == e.maxY
            && b[17..n - 4] == Join(e.names))
      && (e.Pixel? ==> n == 22 && b[8] == 1 && b[9] == e.player && GetU32(b, 10) == e.x && GetU32(b, 14) == e.y)
      && (e.Eliminated? ==> n == 14 && b[8] == 2 && b[9] == e.player)
      && (e.GameOver? ==> n == 13 && b[8] == 3)
  {
    var data, b := e.Data(), ToBytes(crc, e);
    hide PutU32, GetU32, Join, Body;
    FrameFields(crc, e.no, e.Kind(), data, []);
    assert b + [] == b;
    var n := |b|;
    assert b[..n - 4] == b[0..9 + |data|];
    match e
    case NewGame(_, x, y, names, _) =>
      HeaderOf(x, y, Join(names));
      assert data == PutU32(x) + PutU32(y) + Join(names);
      assert b[9..13] == data[0..4] && b[13..17] == data[4..8] && b[17..n - 4] == data[8..];
      GetPut(b, 9, x);
      GetPut(b, 13, y);
    case Pixel(_, player, x, y) =>
      assert b[9] == data[0] && b[10..14] == data[1..5] && b[14..18] == data[5..9];
      GetPut(b, 10, x);
      GetPut(b, 14, y);
    case Eliminated(_, _) => assert b[9] == data[0];
    case GameOver(_) =>
  }

  /** What Make does with an intact record, whatever follows it. */
  lemma MakeOfFrame(crc: Checksum, no: U32, kind: Byte, data: Bytes, after: Bytes)
    requires 5 + |data| < 0x1_0000_0000
    ensures Make(crc, Frame(crc, no, kind, data) + after) ==
      if kind > GAME_OVER then UnknownKind(EVENT_HEADER_LEN + |data|)
      else match ParseData(no, kind, data) case None => Rejected case Some(e) => Record(e)
  {
    FrameFields(crc, no, kind, data, after);
  }

  datatype Raw = Raw(no: U32, kind: Byte, data: Bytes)

  /** Whatever Make accepts or skips is an intact record, and it reports that record's length exactly. */
  lemma MakeSound(crc: Checksum, b: Bytes) returns (r: Raw)
    requires Make(crc, b).Record? || Make(crc, b).UnknownKind?
    ensures 5 + |r.data| < 0x1_0000_0000
    ensures var frame := Frame(crc, r.no, r.kind, r.data);
      && |frame| <= |b| && b == frame + b[|frame|..]
      && (Make(crc, b).UnknownKind? ==> r.kind > GAME_OVER && Make(crc, b).len == |frame|)
      && (Make(crc, b).Record? ==>
            && r.kind <= GAME_OVER && ParseData(r.no, r.kind, r.data) == Some(Make(crc, b).event)
            && Make(crc, b).event.Len() == |frame|)
  {
    var len: int := GetU32(b, 0);
    r := Raw(GetU32(b, 4), b[8], b[9..4 + len]);
    FrameOfFields(crc, b, len, r);
    assert b == b[..8 + len] + b[8 + len..];
    hide Frame, ParseData;
    if r.kind <= GAME_OVER {
      ParseSound(r.no, r.kind, r.data);
    }
  }

  lemma BodyOfFields(b: Bytes, len: nat)
    requires 5 <= len && 8 + len <= |b| && len == GetU32(b, 0)
    ensures Body(GetU32(b, 4), b[8], b[9..4 + len]) == b[0..4 + len]
  {
    hide PutU32, GetU32;
    PutGet(b, 0);
    PutGet(b, 4);
    assert [b[8]] == b[8..9];
    Glue(b, 0, 4, 8);
    Glue(b, 0, 8, 9);
    Glue(b, 0, 9, 4 + len);
  }

  lemma FrameOfFields(crc: Checksum, b: Bytes, len: nat, r: Raw)
    requires 5 <= len && 8 + len <= |b| && len == GetU32(b, 0)
    requires GetU32(b, 4 + len) == crc(b[0..4 + len])
    requires r == Raw(GetU32(b, 4), b[8], b[9..4 + len])
    ensures Frame(crc, r.no, r.kind, r.data) == b[..8 + len]
  {
    BodyOfFields(b, len);
    PutGet(b, 4 + len);
    Glue(b, 0, 4 + len, 8 + len);
  }

  /** The bytes begin with a record of this body that carries its length and its checksum. */
  ghost predicate Begins(crc: Checksum, s: Bytes, body: Bytes) {
    |body| < 0x1_0000_0000 &&
    var counted := PutU32(|body|) + body;
    counted + PutU32(crc(counted)) <= s
  }

  lemma BeginsFields(crc: Checksum, s: Bytes, body: Bytes)
    requires Begins(crc, s, body)
    ensures |s| >= 8 + |body| && GetU32(s, 0) == |body|
    ensures s[0..4 + |body|] == PutU32(|body|) + body && GetU32(s, 4 + |body|) == crc(PutU32(|body|) + body)
  {
    var counted := PutU32(|body|) + body;
    var n := |counted|;
    assert s[..n + 4] == counted + PutU32(crc(counted));
    assert s[0..n] == s[..n + 4][..n] && s[0..n] == counted;
    assert s[0..4] == counted[0..4] && counted[0..4] == PutU32(|body|);
    assert s[n..n + 4] == s[..n + 4][n..];
    GetPut(s, 0, |body|);
    GetPut(s, n, crc(counted));
  }

  lemma FieldsBegin(crc: Checksum, s: Bytes)
    requires |s| >= 4 && GetU32(s, 0) + 8 <= |s|
    requires GetU32(s, 4 + GetU32(s, 0)) == crc(s[0..4 + GetU32(s, 0)])
    ensures Begins(crc, s, s[4..4 + GetU32(s, 0)])
  {
    var len: nat := GetU32(s, 0);
    PutGet(s, 0);
    PutGet(s, 4 + len);
    Glue(s, 0, 4, 4 + len);
    Glue(s, 0, 4 + len, 8 + len);
    assert s[0..8 + len] <= s;
  }

  /** When the first record is taken for broken, for unreadable without a check, and for bad: it is broken exactly if no
      record with its length and checksum right begins here, and bad exactly if such a record of a known type has a
      payload that makes no event. */
  lemma MakeIff(crc: Checksum, s: Bytes)
    ensures Make(crc, s) == BadCrc <==> |s| >= 4 && !exists body :: Begins(crc, s, body)
    ensures Make(crc, s) == OutOfContract <==> |s| < 4 || exists body | |body| < 5 :: Begins(crc, s, body)
    ensures Make(crc, s) == Rejected <==> exists body | |body| >= 5 && body[4] <= 3 ::
      Begins(crc, s, body) && ParseData(GetU32(body, 0), body[4], body[5..]).None?
  {
    MakeBegins(crc, s);
    hide Make, Begins, ParseData, GetU32;
    forall body | Begins(crc, s, body) {
      IntactMake(crc, s, body);
    }
  }

  lemma MakeBegins(crc: Checksum, s: Bytes)
    ensures |s| < 4 ==> Make(crc, s) == OutOfContract && forall body :: !Begins(crc, s, body)
    ensures |s| >= 4 && Make(crc, s) != BadCrc ==> exists body :: Begins(crc, s, body)
  {
    if |s| >= 4 && Make(crc, s) != BadCrc {
      FieldsBegin(crc, s);
    }
  }

  lemma IntactMake(crc: Checksum, s: Bytes, body: Bytes)
    requires Begins(crc, s, body)
    ensures Make(crc, s) ==
      if |body| < 5 then OutOfContract
      else if body[4] > 3 then UnknownKind(|body| + 8)
      else match ParseData(GetU32(body, 0), body[4], body[5..]) case None => Rejected case Some(e) => Record(e)
  {
    BeginsFields(crc, s, body);
    var n := |body|;
    assert body == s[4..4 + n];
    if n >= 5 {
      assert body[4] == s[8] && body[5..] == s[9..4 + n] && GetU32(body, 0) == GetU32(s, 4);
    }
  }
}
