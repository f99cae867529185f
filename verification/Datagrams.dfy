/** What the parsing constructor of ServerMessage makes of a whole datagram. */
module Datagrams {
  import opened Wire
  import opened Records
  import opened Parsing

  function RawBytes(crc: Checksum, r: Raw): Bytes {
    Frame(crc, r.no, r.kind, r.data)
  }

  function RawsBytes(crc: Checksum, raws: seq<Raw>): Bytes {
    if raws == [] then [] else RawBytes(crc, raws[0]) + RawsBytes(crc, raws[1..])
  }

  /** An intact record that is either of an unknown type or makes an event. */
  predicate Readable(r: Raw) {
    5 + |r.data| < 0x1_0000_0000 && (r.kind <= GAME_OVER ==> ParseData(r.no, r.kind, r.data).Some?)
  }

  /** The events of the records of known types. */
  function Known(raws: seq<Raw>): seq<Event>
    requires forall r | r in raws :: Readable(r)
  {
    if raws == [] then [] else
    assert Readable(raws[0]) by { assert raws[0] in raws; }
    if raws[0].kind > GAME_OVER then Known(raws[1..])
    else [ParseData(raws[0].no, raws[0].kind, raws[0].data).value] + Known(raws[1..])
  }

  /** Nothing, or bytes whose first record is truncated or fails its checksum. */
  predicate BadTail(crc: Checksum, tail: Bytes) {
    tail == [] || Make(crc, tail) == BadCrc
  }

  lemma {:induction false} KnownLength(crc: Checksum, raws: seq<Raw>)
    requires forall r | r in raws :: Readable(r)
    ensures TotalLen(Known(raws)) <= |RawsBytes(crc, raws)|
    decreases |raws|
  {
    if raws != [] {
      var r := raws[0];
      assert r in raws && forall q | q in raws[1..] :: q in raws;
      KnownLength(crc, raws[1..]);
      if r.kind <= GAME_OVER {
        ParseSound(r.no, r.kind, r.data);
        assert Known(raws)[1..] == Known(raws[1..]);
      }
    }
  }

  /** One turn of the loop on an intact record. */
  lemma ScanRecord(crc: Checksum, r: Raw, after: Bytes, used: nat)
    requires Readable(r)
    ensures r.kind > GAME_OVER ==> ScanFrom(crc, RawBytes(crc, r) + after, used) == ScanFrom(crc, after, used)
    ensures r.kind <= GAME_OVER ==>
      var e := ParseData(r.no, r.kind, r.data).value;
      && e.Len() == |RawBytes(crc, r)|
      && ScanFrom(crc, RawBytes(crc, r) + after, used) ==
         if used + e.Len() > MAX_MESSAGE_DATA_LEN then Overflow
         else Prepend(e, ScanFrom(crc, after, used + e.Len()))
  {
    hide Make, ParseData;
    var frame := RawBytes(crc, r);
    assert (frame + after)[|frame|..] == after;
    MakeOfFrame(crc, r.no, r.kind, r.data, after);
    if r.kind <= GAME_OVER {
      ParseSound(r.no, r.kind, r.data);
    }
  }

  /** Readable records are read one after another, unknown types are skipped, and the first bad record ends it. */
  lemma {:induction false} ScanRaws(crc: Checksum, raws: seq<Raw>, tail: Bytes, used: nat)
    requires (forall r | r in raws :: Readable(r)) && BadTail(crc, tail)
    ensures ScanFrom(crc, RawsBytes(crc, raws) + tail, used) ==
      if used + TotalLen(Known(raws)) <= MAX_MESSAGE_DATA_LEN || Known(raws) == [] then Events(Known(raws))
      else Overflow
    decreases |raws|
  {
    hide Make, ParseData, RawBytes, Readable, BadTail;
    if raws == [] {
      NoRaws(crc, tail, used);
    } else {
      var r, rest := raws[0], raws[1..];
      assert r in raws && forall q | q in rest :: q in raws;
      var after := RawsBytes(crc, rest) + tail;
      FirstRaw(crc, raws);
      Associate(RawBytes(crc, r), RawsBytes(crc, rest), tail);
      ScanRecord(crc, r, after, used);
      if r.kind > GAME_OVER {
        ScanRaws(crc, rest, tail, used);
      } else {
        var e := ParseData(r.no, r.kind, r.data).value;
        ScanRaws(crc, rest, tail, used + e.Len());
        FirstKnown(e, Known(rest), used);
      }
    }
  }

  lemma NoRaws(crc: Checksum, tail: Bytes, used: nat)
    requires BadTail(crc, tail)
    ensures ScanFrom(crc, RawsBytes(crc, []) + tail, used) == Events([]) && Known([]) == []
  {
    assert RawsBytes(crc, []) + tail == tail;
  }

  lemma FirstRaw(crc: Checksum, raws: seq<Raw>)
    requires raws != [] && forall r | r in raws :: Readable(r)
    ensures forall r | r in raws[1..] :: Readable(r)
    ensures RawsBytes(crc, raws) == RawBytes(crc, raws[0]) + RawsBytes(crc, raws[1..])
    ensures Readable(raws[0]) && Known(raws) ==
      if raws[0].kind > GAME_OVER then Known(raws[1..])
      else [ParseData(raws[0].no, raws[0].kind, raws[0].data).value] + Known(raws[1..])
  {
    assert raws[0] in raws;
  }

  /** What a record adds to a scan that succeeds or overflows behind it. */
  lemma FirstKnown(e: Event, known: seq<Event>, used: nat)
    ensures var fits := used + e.Len() + TotalLen(known) <= MAX_MESSAGE_DATA_LEN;
      (if used + e.Len() > MAX_MESSAGE_DATA_LEN then Overflow
       else Prepend(e, if fits || known == [] then Events(known) else Overflow)) ==
      if used + TotalLen([e] + known) <= MAX_MESSAGE_DATA_LEN then Events([e] + known) else Overflow
  {
    assert ([e] + known)[1..] == known;
  }

  /** The converse: bytes from which events were made are readable records and a bad tail. */
  lemma {:induction false} ScanExplained(crc: Checksum, s: Bytes, used: nat) returns (raws: seq<Raw>, tail: Bytes)
    requires ScanFrom(crc, s, used).Events?
    ensures forall r | r in raws :: Readable(r)
    ensures s == RawsBytes(crc, raws) + tail && BadTail(crc, tail)
    decreases |s|
  {
    hide Make, ParseData;
    if s == [] || Make(crc, s).BadCrc? {
      raws, tail := [], s;
    } else {
      var r := MakeSound(crc, s);
      var frame := RawBytes(crc, r);
      ScanRecord(crc, r, s[|frame|..], used);
      var rest;
      var out := Make(crc, s);
      rest, tail := ScanExplained(crc, s[|frame|..], if out.Record? then used + out.event.Len() else used);
      raws := [r] + rest;
      assert raws[1..] == rest;
    }
  }

  /** What a datagram must look like for its events to be read. */
  ghost predicate Explains(crc: Checksum, b: Bytes, id: U32, raws: seq<Raw>, tail: Bytes) {
    && (forall r | r in raws :: Readable(r))
    && b == PutU32(id) + (RawsBytes(crc, raws) + tail)
    && BadTail(crc, tail)
  }

  /** The exact language of the parser, for the datagrams a socket can deliver (the receiver reads at most 512
      bytes): a game id, intact records of which those of unknown types are skipped, then a bad tail. */
  lemma ParseIff(crc: Checksum, b: Bytes, id: U32, events: seq<Event>)
    requires MESSAGE_HEADER_LEN <= |b| <= MAX_MESSAGE_LEN
    ensures Parse(crc, b) == Message(id, events) <==>
      exists raws: seq<Raw>, tail: Bytes :: Explains(crc, b, id, raws, tail) && Known(raws) == events
  {
    var s := b[MESSAGE_HEADER_LEN..];
    if Parse(crc, b) == Message(id, events) {
      var raws, tail := ScanExplained(crc, s, 0);
      KnownLength(crc, raws);
      ScanRaws(crc, raws, tail, 0);
      PutGet(b, 0);
      assert b == b[0..0 + 4] + s;
      assert Explains(crc, b, id, raws, tail);
    }
    if raws: seq<Raw>, tail: Bytes :| Explains(crc, b, id, raws, tail) && Known(raws) == events {
      IdOf(b, id, RawsBytes(crc, raws) + tail);
      KnownLength(crc, raws);
      ScanRaws(crc, raws, tail, 0);
    }
  }

  /** An intact record of a known type that makes no event. */
  predicate Unreadable(r: Raw) {
    5 + |r.data| < 0x1_0000_0000 && r.kind <= 3 && ParseData(r.no, r.kind, r.data).None?
  }

  /** Behind the id come readable records and then an unreadable one. */
  ghost predicate Spoils(crc: Checksum, s: Bytes, raws: seq<Raw>, bad: Raw, tail: Bytes) {
    && (forall r | r in raws :: Readable(r)) && Unreadable(bad)
    && s == RawsBytes(crc, raws) + (RawBytes(crc, bad) + tail)
  }

  lemma {:induction false} ScanSpoilt(crc: Checksum, s: Bytes, raws: seq<Raw>, bad: Raw, tail: Bytes, used: nat)
    requires Spoils(crc, s, raws, bad, tail) && used + |s| <= MAX_MESSAGE_DATA_LEN
    ensures ScanFrom(crc, s, used) == Refused
    decreases |raws|
  {
    hide Make, ParseData;
    if raws == [] {
      assert s == RawBytes(crc, bad) + tail;
      MakeOfFrame(crc, bad.no, bad.kind, bad.data, tail);
    } else {
      var r, rest := raws[0], raws[1..];
      var after := RawsBytes(crc, rest) + (RawBytes(crc, bad) + tail);
      FirstRaw(crc, raws);
      Associate(RawBytes(crc, r), RawsBytes(crc, rest), RawBytes(crc, bad) + tail);
      ScanRecord(crc, r, after, used);
      hide RawBytes, Readable, Unreadable, RawsBytes;
      assert Spoils(crc, after, rest, bad, tail) by { assert forall q | q in rest :: q in raws; }
      var more := if r.kind <= GAME_OVER then used + ParseData(r.no, r.kind, r.data).value.Len() else used;
      ScanSpoilt(crc, after, rest, bad, tail, more);
    }
  }

  /** Whatever Make rejects is an intact record of a known type. */
  lemma RejectedRecord(crc: Checksum, s: Bytes) returns (bad: Raw)
    requires Make(crc, s) == Rejected
    ensures Unreadable(bad) && |RawBytes(crc, bad)| <= |s| && s == RawBytes(crc, bad) + s[|RawBytes(crc, bad)|..]
  {
    var len: int := GetU32(s, 0);
    bad := Raw(GetU32(s, 4), s[8], s[9..4 + len]);
    FrameOfFields(crc, s, len, bad);
    assert s == s[..8 + len] + s[8 + len..];
  }

  lemma {:induction false} SpoiltExplained(crc: Checksum, s: Bytes, used: nat)
    returns (raws: seq<Raw>, bad: Raw, tail: Bytes)
    requires ScanFrom(crc, s, used) == Refused
    ensures Spoils(crc, s, raws, bad, tail)
    decreases |s|
  {
    hide Make, ParseData;
    if Make(crc, s).Rejected? {
      bad := RejectedRecord(crc, s);
      raws, tail := [], s[|RawBytes(crc, bad)|..];
    } else {
      var r := MakeSound(crc, s);
      var frame := RawBytes(crc, r);
      ScanRecord(crc, r, s[|frame|..], used);
      var rest;
      var out := Make(crc, s);
      rest, bad, tail := SpoiltExplained(crc, s[|frame|..], if out.Record? then used + out.event.Len() else used);
      raws := [r] + rest;
      assert raws[1..] == rest;
      Associate(frame, RawsBytes(crc, rest), RawBytes(crc, bad) + tail);
    }
  }

  /** The datagrams that the parser refuses are those in which an intact record of a known type, behind readable ones,
      makes no event; whatever follows it does not matter. */
  lemma RefusedIff(crc: Checksum, b: Bytes)
    requires MESSAGE_HEADER_LEN <= |b| <= MAX_MESSAGE_LEN
    ensures Parse(crc, b) == Failed(Refused) <==>
      exists raws, bad, tail :: Spoils(crc, b[MESSAGE_HEADER_LEN..], raws, bad, tail)
  {
    var s := b[MESSAGE_HEADER_LEN..];
    if Parse(crc, b) == Failed(Refused) {
      var raws, bad, tail := SpoiltExplained(crc, s, 0);
    }
    if raws, bad, tail :| Spoils(crc, s, raws, bad, tail) {
      ScanSpoilt(crc, s, raws, bad, tail, 0);
    }
  }

  lemma IdOf(b: Bytes, id: U32, rest: Bytes)
    requires b == PutU32(id) + rest
    ensures GetU32(b, 0) == id && b[MESSAGE_HEADER_LEN..] == rest
  {
    assert b[0..4] == PutU32(id);
    GetPut(b, 0, id);
  }

  /** On a datagram of at most 512 bytes add_event never overflows: what the loop has accumulated stays within what
      it has read. */
  lemma {:induction false} NoOverflow(crc: Checksum, s: Bytes, used: nat)
    requires used + |s| <= MAX_MESSAGE_DATA_LEN
    ensures ScanFrom(crc, s, used) != Overflow
    decreases |s|
  {
    hide Make, ParseData;
    if s != [] {
      var out := Make(crc, s);
      if out.Record? || out.UnknownKind? {
        var r := MakeSound(crc, s);
        var frame := RawBytes(crc, r);
        ScanRecord(crc, r, s[|frame|..], used);
        NoOverflow(crc, s[|frame|..], if out.Record? then used + out.event.Len() else used);
      }
    }
  }

  lemma {:induction false} EncodeAsRaws(crc: Checksum, events: seq<Event>) returns (raws: seq<Raw>)
    requires forall e | e in events :: e.Canonical()
    ensures forall r | r in raws :: Readable(r)
    ensures RawsBytes(crc, raws) == Encode(crc, events) && Known(raws) == events
    decreases |events|
  {
    if events == [] {
      raws := [];
    } else {
      var e := events[0];
      assert e in events && forall f | f in events[1..] :: f in events;
      ParseOfData(e);
      assert |e.Data()| <= NEW_GAME_HEADER_LEN + MAX_EVENT_DATA_LEN;
      var rest := EncodeAsRaws(crc, events[1..]);
      raws := [Raw(e.no, e.Kind(), e.Data())] + rest;
      assert raws[1..] == rest;
    }
  }

  /** A datagram parses back to its events, whatever broken bytes are appended to it. */
  lemma DatagramRoundTrip(crc: Checksum, id: U32, events: seq<Event>, tail: Bytes)
    requires forall e | e in events :: e.Canonical()
    requires TotalLen(events) <= MAX_MESSAGE_DATA_LEN
    requires BadTail(crc, tail)
    ensures Parse(crc, Datagram(crc, id, events) + tail) == Message(id, events)
  {
    var raws := EncodeAsRaws(crc, events);
    var rest := Encode(crc, events) + tail;
    assert Datagram(crc, id, events) + tail == PutU32(id) + rest;
    IdOf(Datagram(crc, id, events) + tail, id, rest);
    ScanRaws(crc, raws, tail, 0);
  }

  /** message_len is the number of bytes after the header. */
  lemma {:induction false} EncodedLength(crc: Checksum, events: seq<Event>)
    requires forall e | e in events :: e.Sized()
    ensures |Encode(crc, events)| == TotalLen(events)
    decreases |events|
  {
    if events != [] {
      assert events[0] in events && forall f | f in events[1..] :: f in events;
      LenIsEncodedLength(crc, events[0]);
      EncodedLength(crc, events[1..]);
    }
  }
}
