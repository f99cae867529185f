/** The values of src/siktacka/events: the four events, their wire layout and their validity in a game. */
module Records {
  import opened Wire

  const MAX_MESSAGE_LEN := 512
  const MESSAGE_HEADER_LEN := 4
  const MAX_MESSAGE_DATA_LEN := MAX_MESSAGE_LEN - MESSAGE_HEADER_LEN
  const EVENT_HEADER_LEN := 13
  const MAX_EVENT_DATA_LEN := MAX_MESSAGE_DATA_LEN - EVENT_HEADER_LEN
  const NEW_GAME_HEADER_LEN := 8
  const PIXEL_DATA_LEN := 9
  const ELIMINATED_DATA_LEN := 1
  const MAX_PLAYER_NAME_LENGTH := 64

  const NEW_GAME: Byte := 0
  const PIXEL: Byte := 1
  const PLAYER_ELIMINATED: Byte := 2
  const GAME_OVER: Byte := 3

  datatype Option<+T> = None | Some(value: T)

  /** An event as it is once published. namesLen is the field players_len: it counts every added name, while
      names, a std::set, keeps one copy of each. */
  datatype Event =
    | NewGame(no: U32, maxX: U32, maxY: U32, names: seq<Name>, namesLen: nat)
    | Pixel(no: U32, player: Byte, x: U32, y: U32)
    | Eliminated(no: U32, player: Byte)
    | GameOver(no: U32)
  {
    function Kind(): Byte {
      match this
      case NewGame(_, _, _, _, _) => NEW_GAME
      case Pixel(_, _, _, _) => PIXEL
      case Eliminated(_, _) => PLAYER_ELIMINATED
      case GameOver(_) => GAME_OVER
    }

    /** get_len. */
    function Len(): nat {
      match this
      case NewGame(_, _, _, _, len) => EVENT_HEADER_LEN + len + NEW_GAME_HEADER_LEN
      case Pixel(_, _, _, _) => EVENT_HEADER_LEN + PIXEL_DATA_LEN
      case Eliminated(_, _) => EVENT_HEADER_LEN + ELIMINATED_DATA_LEN
      case GameOver(_) => EVENT_HEADER_LEN
    }

    /** get_data; a NEW_GAME buffer is allocated from namesLen and stays zero past the last name. */
    function Data(): Bytes {
      match this
      case NewGame(_, x, y, names, len) =>
        PutU32(x) + PutU32(y) + Join(names) + Zeros(if len >= |Join(names)| then len - |Join(names)| else 0)
      case Pixel(_, player, x, y) => [player] + PutU32(x) + PutU32(y)
      case Eliminated(_, player) => [player]
      case GameOver(_) => []
    }

    /** validate_in_game returning normally. */
    predicate ValidInGame(width: U32, height: U32, count: nat) {
      match this
      case NewGame(_, _, _, _, _) => true
      case Pixel(_, player, x, y) => x < width && y < height && player < count
      case Eliminated(_, player) => player < count
      case GameOver(_) => true
    }

    /** The names fit the length that was accounted for them. */
    predicate Sized() {
      NewGame? ==> |Join(names)| <= namesLen
    }

    /** What the parser can return, see Parsing.ParseSound, and what it gets back from its own encoding. */
    ghost predicate Canonical() {
      NewGame? ==>
        && StrictlySorted(names)
        && (forall n | n in names :: |n| <= MAX_PLAYER_NAME_LENGTH && 0 !in n)
        && namesLen == |Join(names)|
        && 4 <= namesLen <= MAX_EVENT_DATA_LEN
    }

    /** The event alone fits an empty datagram. */
    predicate Fits() {
      Len() <= MAX_MESSAGE_DATA_LEN
    }
  }

  function Zeros(n: nat): (z: Bytes)
    ensures |z| == n && forall i | 0 <= i < n :: z[i] == 0
  {
    seq(n, _ => 0)
  }

  /** Every name followed by a NUL. */
  function Join(names: seq<Name>): Bytes {
    if names == [] then [] else names[0] + [0] + Join(names[1..])
  }

  lemma {:induction false} JoinAppend(a: seq<Name>, b: seq<Name>)
    ensures Join(a + b) == Join(a) + Join(b)
  {
    if a == [] {
      assert a + b == b;
    } else {
      assert (a + b)[1..] == a[1..] + b;
      JoinAppend(a[1..], b);
    }
  }

  lemma JoinSnoc(a: seq<Name>, n: Name)
    ensures Join(a + [n]) == Join(a) + (n + [0])
  {
    JoinAppend(a, [n]);
    assert [n][1..] == [] && Join([n]) == n + [0];
  }

  /** n names take at least n bytes, and 2n when none of them is empty. */
  lemma {:induction false} JoinLength(names: seq<Name>)
    ensures |Join(names)| >= |names|
    ensures (forall n | n in names :: n != []) ==> |Join(names)| >= 2 * |names|
  {
    if names != [] {
      JoinLength(names[1..]);
      assert names[0] in names && forall n | n in names[1..] :: n in names;
    }
  }

  function Truncate(n: nat): U32 {
    n % 0x1_0000_0000
  }

  /** An increment of std::uint32_t. */
  function Succ(n: U32): U32 {
    Truncate(n + 1)
  }

  /** Everything the checksum covers. */
  function Body(no: U32, kind: Byte, data: Bytes): Bytes {
    PutU32(Truncate(5 + |data|)) + PutU32(no) + [kind] + data
  }

  /** A record with an intact checksum. */
  function Frame(crc: Checksum, no: U32, kind: Byte, data: Bytes): Bytes {
    Body(no, kind, data) + PutU32(crc(Body(no, kind, data)))
  }

  /** Event::to_bytes. */
  function ToBytes(crc: Checksum, e: Event): Bytes {
    Frame(crc, e.no, e.Kind(), e.Data())
  }

  /** get_len tells the number of bytes that to_bytes writes exactly when the names fit the accounted length. */
  lemma LenIsEncodedLength(crc: Checksum, e: Event)
    ensures |ToBytes(crc, e)| == e.Len() <==> e.Sized()
  {
  }

  /** The std::overflow_error guard of add_player counts 495 bytes of names, but a record also carries the width
      and the height: an accepted name list may leave a NEW_GAME that no datagram can hold. */
  lemma NewGameFits(e: Event)
    ensures e.Fits() <==> (e.NewGame? ==> e.namesLen <= 487)
  {
  }

  /** OutOfOrder is for names read from a payload. */
  datatype AddResult = Added(names: seq<Name>, len: nat) | NameTooLong | ListFull | OutOfOrder

  /** EventNewGame::add_player. */
  function AddName(names: seq<Name>, len: nat, name: Name): AddResult {
    if |name| > MAX_PLAYER_NAME_LENGTH then NameTooLong
    else if len + |name| + 1 > MAX_EVENT_DATA_LEN then ListFull
    else Added(Insert(names, name), len + |name| + 1)
  }
}
