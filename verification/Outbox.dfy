/** The log of events and the queue of outgoing datagrams (src/server/events.cc, src/server/buffer.cc and the sending
    half of src/server/server.cc). */
module Outbox {
  import opened Wire
  import opened Records
  import opened Registry

  // ---- The log ----

  /** get_events: what is stored from an index on. */
  function From(log: seq<Event>, k: nat): seq<Event> {
    if k <= |log| then log[k..] else []
  }

  class Events {
    var events: seq<Event>

    constructor ()
      ensures events == []
    {
      events := [];
    }

    method AddEvent(event: Event)
      modifies this
      ensures events == old(events) + [event]
    {
      events := events + [event];
    }

    method GetEvents(nextEvent: U32) returns (queue: seq<Event>)
      ensures queue == From(events, nextEvent)
    {
      queue := [];
      var i: int := nextEvent;
      while i < |events|
        invariant nextEvent <= i && (i <= |events| || i == nextEvent)
        invariant queue == if i <= |events| then events[nextEvent..i] else []
      {
        queue := queue + [events[i]];
        i := i + 1;
      }
    }

    method Clear()
      modifies this
      ensures events == []
    {
      events := [];
    }
  }

  /** In a log whose entries are numbered by their index, asking from k gives exactly the events numbered k or more. */
  lemma FromIsByNumber(log: seq<Event>, k: nat)
    requires forall i | 0 <= i < |log| :: log[i].no == i
    ensures forall e :: e in From(log, k) <==> e in log && e.no >= k
    ensures forall i | 0 <= i < |From(log, k)| :: From(log, k)[i].no == k + i
  {
    forall e | e in log && e.no >= k ensures e in From(log, k) {
      var i :| 0 <= i < |log| && log[i] == e;
      assert log[k..][i - k] == e;
    }
  }

  // ---- The queue ----

  datatype Message = Message(bytes: Bytes, addresses: seq<Address>)

  class Buffer {
    var messages: seq<Message>

    constructor ()
      ensures messages == []
    {
      messages := [];
    }

    predicate IsEmpty()
      reads this
      ensures IsEmpty() <==> messages == []
    {
      |messages| == 0
    }

    method Add(message: Message)
      modifies this
      ensures messages == old(messages) + [message]
    {
      messages := messages + [message];
    }

    /** None is the std::out_of_range. */
    method Pop() returns (r: Option<Message>)
      modifies this
      ensures old(messages) == match r case None => [] case Some(m) => [m] + messages
      ensures r.None? ==> messages == []
    {
      if messages == [] {
        return None;
      }
      r := Some(messages[0]);
      messages := messages[1..];
    }
  }

  /** A datagram and one of its recipients. */
  datatype Pair = Pair(bytes: Bytes, to: Address)

  function Fan(bytes: Bytes, addresses: seq<Address>): seq<Pair> {
    seq(|addresses|, i requires 0 <= i < |addresses| => Pair(bytes, addresses[i]))
  }

  function Pairs(queue: seq<Message>): seq<Pair> {
    if queue == [] then [] else Fan(queue[0].bytes, queue[0].addresses) + Pairs(queue[1..])
  }

  /** The queue, the message on its way with the recipients it has left, and whether the server waits until it can
      write. */
  datatype Box = Box(queue: seq<Message>, current: Bytes, addresses: seq<Address>, writing: bool)

  const EMPTY := Box([], [], [], true)

  function Pending(b: Box): seq<Pair> {
    Fan(b.current, b.addresses) + Pairs(b.queue)
  }

  /** Server::add_message. */
  function Add(b: Box, m: Message): Box {
    b.(queue := b.queue + [m], writing := true)
  }

  /** Server::can_send_message. */
  function Load(b: Box): Box
    decreases |b.queue|
  {
    if b.queue != [] && b.addresses == [] then
      Load(Box(b.queue[1..], b.queue[0].bytes, b.queue[0].addresses, b.writing))
    else if b.addresses == [] then b.(writing := false)
    else b
  }

  datatype Written = Written(box: Box, pair: Option<Pair>)

  function Taken(w: Written): seq<Pair> {
    if w.pair.Some? then [w.pair.value] else []
  }

  /** Server::send_message, and the pair that the socket took, unless it would have blocked. */
  function Write(b: Box, blocks: bool): Written {
    var b := Load(b);
    if b.addresses == [] || blocks then Written(b, None)
    else Written(b.(addresses := b.addresses[1..]), Some(Pair(b.current, b.addresses[0])))
  }

  // ---- Conservation ----

  lemma {:induction false} PairsSnoc(queue: seq<Message>, m: Message)
    ensures Pairs(queue + [m]) == Pairs(queue) + Fan(m.bytes, m.addresses)
    decreases |queue|
  {
    if queue == [] {
      assert [m][1..] == [] && queue + [m] == [m];
    } else {
      assert (queue + [m])[1..] == queue[1..] + [m];
      PairsSnoc(queue[1..], m);
    }
  }

  lemma {:induction false} LoadKeeps(b: Box)
    ensures Pending(Load(b)) == Pending(b)
    ensures Load(b).addresses == [] <==> Pending(b) == []
    ensures Load(b).writing == (b.writing && Pending(b) != [])
    decreases |b.queue|
  {
    if b.queue != [] && b.addresses == [] {
      LoadKeeps(Box(b.queue[1..], b.queue[0].bytes, b.queue[0].addresses, b.writing));
    } else if b.addresses != [] {
      assert Fan(b.current, b.addresses)[0] == Pair(b.current, b.addresses[0]);
    }
  }

  /** The socket gets the first pending pair or, when it would block or nothing is pending, none; the others stay. */
  lemma WriteTakesFirst(b: Box, blocks: bool)
    ensures var w := Write(b, blocks);
      && (w.pair.Some? <==> Pending(b) != [] && !blocks)
      && Pending(b) == Taken(w) + Pending(w.box)
  {
    LoadKeeps(b);
    var l, w := Load(b), Write(b, blocks);
    if w.pair.Some? {
      assert Fan(l.current, l.addresses) == [w.pair.value] + Fan(l.current, l.addresses[1..]);
    }
  }

  /** Whenever a pair is pending the server waits until it can write. */
  ghost predicate Awake(b: Box) {
    Pending(b) != [] ==> b.writing
  }

  lemma AddPending(b: Box, m: Message)
    ensures Pending(Add(b, m)) == Pending(b) + Fan(m.bytes, m.addresses) && Awake(Add(b, m))
  {
    PairsSnoc(b.queue, m);
  }

  lemma StaysAwake(b: Box, blocks: bool)
    requires Awake(b)
    ensures Awake(Write(b, blocks).box)
  {
    LoadKeeps(b);
    WriteTakesFirst(b, blocks);
  }

  datatype Op = Enqueue(message: Message) | Send(blocks: bool)

  function Enqueued(ops: seq<Op>): seq<Pair> {
    if ops == [] then [] else
    var op := ops[|ops| - 1];
    Enqueued(ops[..|ops| - 1]) + if op.Enqueue? then Fan(op.message.bytes, op.message.addresses) else []
  }

  function BoxAfter(ops: seq<Op>): Box {
    if ops == [] then EMPTY else
    var b := BoxAfter(ops[..|ops| - 1]);
    match ops[|ops| - 1]
    case Enqueue(m) => Add(b, m)
    case Send(blocks) => Write(b, blocks).box
  }

  function Sent(ops: seq<Op>): seq<Pair> {
    if ops == [] then [] else
    var before := ops[..|ops| - 1];
    match ops[|ops| - 1]
    case Enqueue(_) => Sent(before)
    case Send(blocks) => Sent(before) + Taken(Write(BoxAfter(before), blocks))
  }

  /** Over every run: what was enqueued is what the socket got followed by what is pending, in order, nothing lost and
      nothing twice; and nothing waits without the server waiting to write it. */
  lemma {:induction false} Conserved(ops: seq<Op>)
    ensures Enqueued(ops) == Sent(ops) + Pending(BoxAfter(ops)) && Awake(BoxAfter(ops))
    decreases |ops|
  {
    if ops != [] {
      var before, op := ops[..|ops| - 1], ops[|ops| - 1];
      Conserved(before);
      hide Pending, Write, Fan;
      var b := BoxAfter(before);
      if op.Enqueue? {
        AddPending(b, op.message);
      } else {
        WriteTakesFirst(b, op.blocks);
        StaysAwake(b, op.blocks);
      }
    }
  }
}
