/** The clients of the server, by address, session, name and time of the last message (src/server/connections.cc). */
module Registry {
  import opened Wire

  /** A sockaddr_storage, compared byte by byte. */
  datatype Address = Address(bytes: Bytes)

  datatype Conn = Conn(address: Address, session: nat, name: Name, stamp: int)

  /** Two seconds, in nanoseconds. */
  const TIMEOUT := 2_000_000_000

  predicate Active(c: Conn, now: int) {
    now - c.stamp < TIMEOUT
  }

  /** The clients that a sweep leaves. */
  function Kept(conns: seq<Conn>, now: int): seq<Conn> {
    if conns == [] then [] else
    var last := conns[|conns| - 1];
    Kept(conns[..|conns| - 1], now) + if Active(last, now) then [last] else []
  }

  /** The names that a sweep reports as disconnected. */
  function Gone(conns: seq<Conn>, now: int): seq<Name> {
    if conns == [] then [] else
    var last := conns[|conns| - 1];
    Gone(conns[..|conns| - 1], now) + if Active(last, now) then [] else [last.name]
  }

  function Find(conns: seq<Conn>, address: Address): (i: nat)
    ensures i <= |conns| && (i < |conns| ==> conns[i].address == address)
    ensures forall j | 0 <= j < i :: conns[j].address != address
  {
    if conns == [] || conns[0].address == address then 0 else 1 + Find(conns[1..], address)
  }

  /** NewerSession is the std::invalid_argument of get_client and NotFound its std::out_of_range. */
  datatype Answer = Found(name: Name) | NewerSession | NotFound

  /** What is left of the clients, the names whose disconnection the listener hears of, and the answer. */
  datatype Lookup = Lookup(conns: seq<Conn>, gone: seq<Name>, answer: Answer)

  function LookUp(conns: seq<Conn>, address: Address, session: nat, now: int): Lookup {
    var kept, gone := Kept(conns, now), Gone(conns, now);
    var i := Find(kept, address);
    if i == |kept| then Lookup(kept, gone, NotFound)
    else if kept[i].session > session then Lookup(kept, gone, NewerSession)
    else if kept[i].session < session then Lookup(kept[..i] + kept[i + 1..], gone + [kept[i].name], NotFound)
    else Lookup(kept[i := kept[i].(stamp := now)], gone, Found(kept[i].name))
  }

  class Connections {
    var clients: seq<Conn>

    constructor ()
      ensures clients == []
    {
      clients := [];
    }

    method CleanupInactive(now: int) returns (gone: seq<Name>)
      modifies this
      ensures clients == Kept(old(clients), now) && gone == Gone(old(clients), now)
    {
      gone := [];
      var i := 0;
      while i < |clients|
        invariant 0 <= i <= |clients| && gone == Gone(clients[..i], now)
      {
        assert clients[..i + 1][..i] == clients[..i];
        if !Active(clients[i], now) {
          gone := gone + [clients[i].name];
        }
        i := i + 1;
      }
      assert clients[..i] == clients;
      RemoveInactive(now);
    }

    method RemoveInactive(now: int)
      modifies this
      ensures clients == Kept(old(clients), now)
    {
      var left := [];
      var i := 0;
      while i < |clients|
        invariant 0 <= i <= |clients| && left == Kept(clients[..i], now)
      {
        assert clients[..i + 1][..i] == clients[..i];
        if Active(clients[i], now) {
          left := left + [clients[i]];
        }
        i := i + 1;
      }
      assert clients[..i] == clients;
      clients := left;
    }

    method GetClient(address: Address, session: nat, now: int) returns (answer: Answer, gone: seq<Name>)
      modifies this
      ensures Lookup(clients, gone, answer) == LookUp(old(clients), address, session, now)
    {
      gone := CleanupInactive(now);
      var i := 0;
      while i < |clients|
        invariant 0 <= i <= |clients|
        invariant forall j | 0 <= j < i :: clients[j].address != address
      {
        if clients[i].address == address {
          assert i == Find(clients, address);
          if clients[i].session > session {
            return NewerSession, gone;
          } else if clients[i].session < session {
            gone := gone + [clients[i].name];
            clients := clients[..i] + clients[i + 1..];
            return NotFound, gone;
          } else {
            clients := clients[i := clients[i].(stamp := now)];
            return Found(clients[i].name), gone;
          }
        }
        i := i + 1;
      }
      return NotFound, gone;
    }

    method AddClient(address: Address, session: nat, name: Name, now: int) returns (gone: seq<Name>)
      modifies this
      ensures clients == Kept(old(clients), now) + [Conn(address, session, name, now)]
      ensures gone == Gone(old(clients), now)
    {
      gone := CleanupInactive(now);
      clients := clients + [Conn(address, session, name, now)];
    }

    method GetConnectedClients(now: int) returns (addresses: seq<Address>, gone: seq<Name>)
      modifies this
      ensures clients == Kept(old(clients), now) && gone == Gone(old(clients), now)
      ensures addresses == Addresses(clients)
    {
      gone := CleanupInactive(now);
      addresses := [];
      var i := 0;
      while i < |clients|
        invariant 0 <= i <= |clients| && addresses == Addresses(clients)[..i]
      {
        addresses := addresses + [clients[i].address];
        i := i + 1;
      }
    }
  }

  function Addresses(conns: seq<Conn>): (r: seq<Address>)
    ensures |r| == |conns|
  {
    seq(|conns|, i requires 0 <= i < |conns| => conns[i].address)
  }

  // ---- Names ----

  /** How many clients have the name. */
  function Holders(conns: seq<Conn>, name: Name): nat {
    if conns == [] then 0 else
    Holders(conns[..|conns| - 1], name) + if conns[|conns| - 1].name == name then 1 else 0
  }

  function Count(names: seq<Name>, name: Name): nat {
    if names == [] then 0 else
    Count(names[..|names| - 1], name) + if names[|names| - 1] == name then 1 else 0
  }

  lemma {:induction false} HoldersAppend(a: seq<Conn>, b: seq<Conn>, name: Name)
    ensures Holders(a + b, name) == Holders(a, name) + Holders(b, name)
    decreases |b|
  {
    if b == [] {
      assert a + b == a;
    } else {
      assert (a + b)[..|a + b| - 1] == a + b[..|b| - 1];
      HoldersAppend(a, b[..|b| - 1], name);
    }
  }

  lemma HoldersSnoc(conns: seq<Conn>, c: Conn, name: Name)
    ensures Holders(conns + [c], name) == Holders(conns, name) + if c.name == name then 1 else 0
  {
    assert (conns + [c])[..|conns|] == conns;
  }

  lemma CountSnoc(names: seq<Name>, n: Name, name: Name)
    ensures Count(names + [n], name) == Count(names, name) + if n == name then 1 else 0
  {
    assert (names + [n])[..|names|] == names;
  }

  lemma HoldersWithout(conns: seq<Conn>, i: nat, name: Name)
    requires i < |conns|
    ensures Holders(conns, name) ==
      Holders(conns[..i] + conns[i + 1..], name) + if conns[i].name == name then 1 else 0
  {
    hide Holders;
    HoldersAppend(conns[..i], conns[i + 1..], name);
    HoldersSnoc(conns[..i], conns[i], name);
    HoldersAppend(conns[..i] + [conns[i]], conns[i + 1..], name);
    assert conns == conns[..i] + [conns[i]] + conns[i + 1..];
  }

  lemma HoldersStamped(conns: seq<Conn>, i: nat, now: int, name: Name)
    requires i < |conns|
    ensures Holders(conns[i := conns[i].(stamp := now)], name) == Holders(conns, name)
  {
    hide Holders;
    var r := conns[i := conns[i].(stamp := now)];
    HoldersWithout(conns, i, name);
    HoldersWithout(r, i, name);
    assert r[..i] == conns[..i] && r[i + 1..] == conns[i + 1..];
  }

  /** A sweep drops nobody without reporting the name. */
  lemma {:induction false} SweepNames(conns: seq<Conn>, now: int, name: Name)
    ensures Holders(Kept(conns, now), name) + Count(Gone(conns, now), name) == Holders(conns, name)
    decreases |conns|
  {
    if conns != [] {
      var n := |conns| - 1;
      SweepNames(conns[..n], now, name);
      if Active(conns[n], now) {
        HoldersSnoc(Kept(conns[..n], now), conns[n], name);
        assert Gone(conns, now) == Gone(conns[..n], now);
      } else {
        CountSnoc(Gone(conns[..n], now), conns[n].name, name);
        assert Kept(conns, now) == Kept(conns[..n], now);
      }
    }
  }

  /** Nor does looking up a client. */
  lemma LookupNames(conns: seq<Conn>, address: Address, session: nat, now: int, name: Name)
    ensures var l := LookUp(conns, address, session, now);
      Holders(l.conns, name) + Count(l.gone, name) == Holders(conns, name)
  {
    hide Holders, Count, Kept, Gone;
    var kept, gone := Kept(conns, now), Gone(conns, now);
    SweepNames(conns, now, name);
    var i := Find(kept, address);
    if i < |kept| {
      HoldersStamped(kept, i, now, name);
      HoldersWithout(kept, i, name);
      CountSnoc(gone, kept[i].name, name);
    }
  }

  // ---- Addresses and sessions ----

  ghost predicate Unique(conns: seq<Conn>) {
    forall i, j | 0 <= i < j < |conns| :: conns[i].address != conns[j].address
  }

  ghost predicate AllActive(conns: seq<Conn>, now: int) {
    forall c | c in conns :: Active(c, now)
  }

  /** A sweep keeps exactly the active clients. */
  lemma {:induction false} KeptIff(conns: seq<Conn>, now: int)
    ensures forall c :: c in Kept(conns, now) <==> c in conns && Active(c, now)
    decreases |conns|
  {
    if conns != [] {
      var n := |conns| - 1;
      KeptIff(conns[..n], now);
      assert conns == conns[..n] + [conns[n]];
    }
  }

  lemma {:induction false} KeptUnique(conns: seq<Conn>, now: int)
    requires Unique(conns)
    ensures Unique(Kept(conns, now))
    decreases |conns|
  {
    if conns != [] {
      var n := |conns| - 1;
      var rest := conns[..n];
      KeptUnique(rest, now);
      KeptIff(rest, now);
      assert forall c | c in rest :: c.address != conns[n].address;
      assert forall c | c in Kept(rest, now) :: c in rest;
    }
  }

  /** A client stays exactly if it was heard less than two seconds ago; the names of all others are reported. */
  lemma {:induction false} TimedOutIff(conns: seq<Conn>, now: int)
    ensures forall c :: c in Kept(conns, now) <==> c in conns && now - c.stamp < 2_000_000_000
    ensures forall n :: n in Gone(conns, now) <==>
      exists c | c in conns :: c.name == n && now - c.stamp >= 2_000_000_000
    decreases |conns|
  {
    if conns != [] {
      var n := |conns| - 1;
      TimedOutIff(conns[..n], now);
      assert conns == conns[..n] + [conns[n]];
    }
  }

  /** Nobody but the client at this address is affected, who is refreshed if its session is the one given, and goes if
      its session is older. */
  ghost predicate Remains(conns: seq<Conn>, address: Address, session: nat, now: int, d: Conn) {
    exists c | c in conns && now - c.stamp < 2_000_000_000 ::
      if c.address != address || c.session > session then d == c else c.session == session && d == c.(stamp := now)
  }

  /** The client at this address, unless it timed out, has this session. */
  ghost predicate Listed(conns: seq<Conn>, address: Address, now: int, session: nat, name: Name) {
    exists c | c in conns && now - c.stamp < 2_000_000_000 ::
      c.address == address && c.session == session && c.name == name
  }

  /** What looking up a client comes to, for clients that have different addresses. */
  lemma LookUpIff(conns: seq<Conn>, address: Address, session: nat, now: int)
    requires Unique(conns)
    ensures var l := LookUp(conns, address, session, now);
      && (forall d :: d in l.conns <==> Remains(conns, address, session, now, d))
      && (forall name :: l.answer == Found(name) <==> Listed(conns, address, now, session, name))
      && (l.answer == NewerSession <==>
            exists later, name | later > session :: Listed(conns, address, now, later, name))
  {
    KeptUnique(conns, now);
    TimedOutIff(conns, now);
    var kept := Kept(conns, now);
    LeftIff(kept, address, session, now);
    AnswerIff(conns, kept, address, session, now);
    hide Kept, Gone, Find, Unique, Remains, Listed;
    var l := LookUp(conns, address, session, now);
    assert l.conns == Left(kept, address, session, now);
    forall d ensures d in l.conns <==> Remains(conns, address, session, now, d) {
      RemainsIff(conns, kept, address, session, now, d);
    }
  }

  /** What looking up leaves of active clients. */
  function Left(kept: seq<Conn>, address: Address, session: nat, now: int): seq<Conn> {
    var i := Find(kept, address);
    if i == |kept| || kept[i].session > session then kept
    else if kept[i].session < session then kept[..i] + kept[i + 1..]
    else kept[i := kept[i].(stamp := now)]
  }

  ghost predicate InLeft(kept: seq<Conn>, address: Address, session: nat, now: int, d: Conn) {
    || (d in kept && (d.address != address || d.session > session))
    || exists c | c in kept :: c.address == address && c.session == session && d == c.(stamp := now)
  }

  lemma RemainsIff(conns: seq<Conn>, kept: seq<Conn>, address: Address, session: nat, now: int, d: Conn)
    requires forall c :: c in kept <==> c in conns && now - c.stamp < 2_000_000_000
    ensures Remains(conns, address, session, now, d) <==> InLeft(kept, address, session, now, d)
  {
  }

  lemma LeftIff(kept: seq<Conn>, address: Address, session: nat, now: int)
    requires Unique(kept)
    ensures forall d :: d in Left(kept, address, session, now) <==> InLeft(kept, address, session, now, d)
  {
    var i := Find(kept, address);
    assert i < |kept| ==> kept[i] in kept && forall c | c in kept && c.address == address :: c == kept[i];
    if i == |kept| {
      assert forall c | c in kept :: c.address != address;
    } else if kept[i].session < session {
      Dropped(kept, i);
    } else if kept[i].session == session {
      Restamped(kept, i, now);
    }
  }

  lemma AnswerIff(conns: seq<Conn>, kept: seq<Conn>, address: Address, session: nat, now: int)
    requires Unique(kept) && kept == Kept(conns, now)
    requires forall c :: c in kept <==> c in conns && now - c.stamp < 2_000_000_000
    ensures var l := LookUp(conns, address, session, now);
      && (forall name :: l.answer == Found(name) <==> Listed(conns, address, now, session, name))
      && (l.answer == NewerSession <==>
            exists later, name | later > session :: Listed(conns, address, now, later, name))
  {
    hide Kept, Gone;
    var i, l := Find(kept, address), LookUp(conns, address, session, now);
    forall s, name ensures Listed(conns, address, now, s, name) <==>
      i < |kept| && kept[i].session == s && kept[i].name == name
    {
      ListedIff(conns, kept, address, now, s, name);
    }
    assert i < |kept| ==> Listed(conns, address, now, kept[i].session, kept[i].name);
    hide Listed;
  }

  lemma ListedIff(conns: seq<Conn>, kept: seq<Conn>, address: Address, now: int, session: nat, name: Name)
    requires Unique(kept) && forall c :: c in kept <==> c in conns && now - c.stamp < 2_000_000_000
    ensures var i := Find(kept, address);
      Listed(conns, address, now, session, name) <==>
        i < |kept| && kept[i].session == session && kept[i].name == name
  {
    var i := Find(kept, address);
    assert i < |kept| ==> kept[i] in kept && forall c | c in kept && c.address == address :: c == kept[i];
    assert i == |kept| ==> forall c | c in kept :: c.address != address;
  }

  lemma Restamped(conns: seq<Conn>, i: nat, now: int)
    requires i < |conns| && Unique(conns)
    ensures forall d :: d in conns[i := conns[i].(stamp := now)] <==>
      d == conns[i].(stamp := now) || (d in conns && d.address != conns[i].address)
  {
    var r := conns[i := conns[i].(stamp := now)];
    assert r[i] == conns[i].(stamp := now) && forall j | 0 <= j < |r| && j != i :: r[j] == conns[j];
    forall d ensures d in r <==> d == r[i] || (d in conns && d.address != conns[i].address) {
      if d in conns && d.address != conns[i].address {
        var j :| 0 <= j < |conns| && conns[j] == d;
        assert r[j] == d;
      }
      if d in r && d != r[i] {
        var j :| 0 <= j < |r| && r[j] == d;
        assert conns[j] == d;
      }
    }
  }

  /** A second sweep at the same time finds nothing to do. */
  lemma {:induction false} KeptAll(conns: seq<Conn>, now: int)
    requires AllActive(conns, now)
    ensures Kept(conns, now) == conns && Gone(conns, now) == []
    decreases |conns|
  {
    if conns != [] {
      var n := |conns| - 1;
      assert conns[n] in conns && conns == conns[..n] + [conns[n]];
      KeptAll(conns[..n], now);
    }
  }

  predicate Same(c: Conn, d: Conn) {
    c.address == d.address && c.session == d.session && c.name == d.name
  }

  /** Looking up a client leaves active clients with unique addresses. A client that is found is refreshed; otherwise
      the address is free or held by a newer session; and an active client keeps its session, or makes room for a
      newer one of its address. */
  lemma LookupKeeps(conns: seq<Conn>, address: Address, session: nat, now: int)
    requires Unique(conns)
    ensures var l := LookUp(conns, address, session, now);
      && Unique(l.conns) && AllActive(l.conns, now)
      && (l.answer.NotFound? ==> forall c | c in l.conns :: c.address != address)
      && (l.answer.Found? ==> Conn(address, session, l.answer.name, now) in l.conns)
    ensures var l := LookUp(conns, address, session, now);
      forall c | c in conns && Active(c, now) ::
        || (l.answer.NotFound? && c.address == address && c.session < session)
        || exists d | d in l.conns :: Same(c, d)
  {
    KeptIff(conns, now);
    KeptUnique(conns, now);
    var kept := Kept(conns, now);
    hide Kept, Gone;
    var i := Find(kept, address);
    var l := LookUp(conns, address, session, now);
    if i == |kept| {
      assert forall c | c in kept :: Same(c, c);
    } else if kept[i].session > session {
      assert forall c | c in kept :: Same(c, c);
    } else if kept[i].session == session {
      Stamped(kept, i, now);
    } else {
      Dropped(kept, i);
      assert forall c | c in l.conns :: Same(c, c);
    }
  }

  lemma Stamped(conns: seq<Conn>, i: nat, now: int)
    requires i < |conns| && Unique(conns) && AllActive(conns, now)
    ensures var r := conns[i := conns[i].(stamp := now)];
      && Unique(r) && AllActive(r, now) && r[i] in r
      && forall c | c in conns :: exists d | d in r :: Same(c, d)
  {
    var r := conns[i := conns[i].(stamp := now)];
    forall c | c in conns ensures exists d | d in r :: Same(c, d) {
      var j :| 0 <= j < |conns| && conns[j] == c;
      assert r[j] in r && Same(c, r[j]);
    }
  }

  lemma Dropped(conns: seq<Conn>, i: nat)
    requires i < |conns| && Unique(conns)
    ensures var r := conns[..i] + conns[i + 1..];
      && Unique(r)
      && (forall c :: c in r <==> c in conns && c.address != conns[i].address)
  {
    var r := conns[..i] + conns[i + 1..];
    assert forall j | 0 <= j < |r| :: r[j] == conns[if j < i then j else j + 1];
    DroppedLeaves(conns, i);
    DroppedKeeps(conns, i);
  }

  lemma DroppedKeeps(conns: seq<Conn>, i: nat)
    requires i < |conns|
    ensures forall c | c in conns && c.address != conns[i].address :: c in conns[..i] + conns[i + 1..]
  {
    var r := conns[..i] + conns[i + 1..];
    forall c | c in conns && c.address != conns[i].address ensures c in r {
      var j :| 0 <= j < |conns| && conns[j] == c;
      assert r[if j < i then j else j - 1] == c;
    }
  }

  lemma DroppedLeaves(conns: seq<Conn>, i: nat)
    requires i < |conns| && Unique(conns)
    ensures forall c | c in conns[..i] + conns[i + 1..] :: c in conns && c.address != conns[i].address
  {
    var r := conns[..i] + conns[i + 1..];
    forall c | c in r ensures c in conns && c.address != conns[i].address {
      var j :| 0 <= j < |r| && r[j] == c;
      assert conns[if j < i then j else j + 1] == c;
    }
  }
}
