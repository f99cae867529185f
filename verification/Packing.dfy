/** Server::make_message: cutting a part of the log into datagrams. */
module Packing {
  import opened Records
  import opened Parsing

  ghost predicate AllFit(events: seq<Event>) {
    forall e | e in events :: e.Fits()
  }

  /** The datagrams the loop makes from the queue when it has already put `current` in the open one. */
  function Pack(current: seq<Event>, queue: seq<Event>): (datagrams: seq<seq<Event>>)
    requires AllFit(queue)
    ensures datagrams != []
    decreases |queue|, TotalLen(current)
  {
    if queue == [] then [current] else
    assert queue[0] in queue && forall e | e in queue[1..] :: e in queue;
    if TotalLen(current) + queue[0].Len() <= MAX_MESSAGE_DATA_LEN then Pack(current + [queue[0]], queue[1..])
    else [current] + Pack([], queue)
  }

  function Flatten(parts: seq<seq<Event>>): seq<Event> {
    if parts == [] then [] else parts[0] + Flatten(parts[1..])
  }

  /** Nothing is lost, repeated or reordered, and no datagram is empty or too long. */
  lemma {:induction false} PackExact(current: seq<Event>, queue: seq<Event>)
    requires AllFit(queue) && TotalLen(current) <= MAX_MESSAGE_DATA_LEN
    ensures Flatten(Pack(current, queue)) == current + queue
    ensures forall p | p in Pack(current, queue) :: TotalLen(p) <= MAX_MESSAGE_DATA_LEN
    ensures current != [] || queue != [] ==> forall p | p in Pack(current, queue) :: p != []
    decreases |queue|, TotalLen(current)
  {
    if queue == [] {
      assert Flatten([current]) == current + Flatten([]);
    } else {
      var e, rest := queue[0], queue[1..];
      assert e in queue && forall f | f in rest :: f in queue;
      TotalLenSnoc(current, e);
      if TotalLen(current) + e.Len() <= MAX_MESSAGE_DATA_LEN {
        PackExact(current + [e], rest);
        assert current + [e] + rest == current + queue;
      } else {
        PackExact([], queue);
        assert ([current] + Pack([], queue))[1..] == Pack([], queue);
      }
    }
  }

  /** Every datagram but the last holds all it can: the next event would not have fitted. */
  lemma {:induction false} PackFull(current: seq<Event>, queue: seq<Event>, i: nat)
    requires AllFit(queue) && TotalLen(current) <= MAX_MESSAGE_DATA_LEN && queue != []
    requires i + 1 < |Pack(current, queue)|
    ensures var d := Pack(current, queue); d[i + 1] != [] && TotalLen(d[i]) + d[i + 1][0].Len() > MAX_MESSAGE_DATA_LEN
    decreases |queue|, TotalLen(current)
  {
    var e, rest := queue[0], queue[1..];
    assert e in queue && forall f | f in rest :: f in queue;
    TotalLenSnoc(current, e);
    if TotalLen(current) + e.Len() <= MAX_MESSAGE_DATA_LEN {
      PackFull(current + [e], rest, i);
    } else if i > 0 {
      PackFull([], queue, i - 1);
    } else {
      PackStartsWith([e], rest);
      assert [] + [e] == [e] && Pack([], queue) == Pack([e], rest);
    }
  }

  /** The open datagram is never reordered. */
  lemma {:induction false} PackStartsWith(current: seq<Event>, queue: seq<Event>)
    requires AllFit(queue)
    ensures current <= Pack(current, queue)[0]
    decreases |queue|
  {
    if queue != [] && TotalLen(current) + queue[0].Len() <= MAX_MESSAGE_DATA_LEN {
      assert forall f | f in queue[1..] :: f in queue;
      PackStartsWith(current + [queue[0]], queue[1..]);
    }
  }

  /** No order-preserving split of the queue into datagrams uses fewer. */
  lemma PackOptimal(queue: seq<Event>, parts: seq<seq<Event>>)
    requires AllFit(queue) && queue != []
    requires Flatten(parts) == queue && forall p | p in parts :: TotalLen(p) <= MAX_MESSAGE_DATA_LEN
    ensures |Pack([], queue)| <= |parts|
  {
    assert parts[0] in parts && forall p | p in parts[1..] :: p in parts;
    assert [] + parts[0] == parts[0];
    GreedyStaysAhead([], queue, [], parts[0], parts[1..], false);
  }

  /** Greedy packing walks along another split, which has put `taken` of its own open datagram and still has `left`
      for it. Greedy is never behind: its open datagram is no fuller, or it has closed one datagram less. */
  lemma {:induction false} GreedyStaysAhead(
      current: seq<Event>, queue: seq<Event>, taken: seq<Event>, left: seq<Event>, rest: seq<seq<Event>>, spare: bool)
    requires AllFit(queue)
    requires left + Flatten(rest) == queue
    requires TotalLen(taken + left) <= MAX_MESSAGE_DATA_LEN
    requires forall p | p in rest :: TotalLen(p) <= MAX_MESSAGE_DATA_LEN
    requires TotalLen(current) <= MAX_MESSAGE_DATA_LEN
    requires spare || TotalLen(current) <= TotalLen(taken)
    ensures |Pack(current, queue)| <= 1 + |rest| + if spare then 1 else 0
    decreases |queue|, |rest|
  {
    if queue == [] {
    } else if left == [] {
      assert rest[0] in rest && forall p | p in rest[1..] :: p in rest;
      assert [] + rest[0] == rest[0];
      GreedyStaysAhead(current, queue, [], rest[0], rest[1..], true);
    } else {
      var e, next := queue[0], queue[1..];
      assert e in queue && forall f | f in next :: f in queue;
      assert left[1..] + Flatten(rest) == next;
      assert taken + [e] + left[1..] == taken + left;
      TotalLenSnoc(taken, e);
      TotalLenSnoc(current, e);
      TotalLenAppend(taken + [e], left[1..]);
      TotalLenSnoc([], e);
      hide TotalLen, Flatten;
      if TotalLen(current) + e.Len() <= MAX_MESSAGE_DATA_LEN {
        GreedyStaysAhead(current + [e], next, taken + [e], left[1..], rest, spare);
      } else {
        assert [] + [e] == [e];
        GreedyStaysAhead([e], next, taken + [e], left[1..], rest, false);
        assert Pack([], queue) == Pack([e], next);
      }
    }
  }

  // ---- When the loop ends ----

  /** The local variables of the loop; sent lists the datagrams handed to add_message. */
  datatype Loop = Loop(queue: seq<Event>, message: seq<Event>, sent: seq<seq<Event>>)

  /** One turn: pop an event into the message, or on std::overflow_error send the message and try again. */
  function Turn(l: Loop): Loop {
    if l.queue == [] then l
    else if TotalLen(l.message) + l.queue[0].Len() <= MAX_MESSAGE_DATA_LEN then
      Loop(l.queue[1..], l.message + [l.queue[0]], l.sent)
    else Loop(l.queue, [], l.sent + [l.message])
  }

  function Turns(l: Loop, n: nat): Loop
    decreases n
  {
    if n == 0 then l else Turns(Turn(l), n - 1)
  }

  /** The loop ends exactly when every event of the queue fits a datagram of its own; it then has sent, with the
      message left open, what Pack says. */
  lemma LoopEndsIff(queue: seq<Event>)
    ensures (exists n: nat :: Turns(Loop(queue, [], []), n).queue == []) <==> AllFit(queue)
    ensures AllFit(queue) ==>
      exists n: nat :: var l := Turns(Loop(queue, [], []), n); l.queue == [] && l.sent + [l.message] == Pack([], queue)
  {
    if AllFit(queue) {
      var n := LoopPacks(Loop(queue, [], []));
      assert [] + Pack([], queue) == Pack([], queue);
    } else {
      forall n: nat ensures Turns(Loop(queue, [], []), n).queue != [] {
        LoopStuck(Loop(queue, [], []), n);
      }
    }
  }

  lemma {:induction false} LoopPacks(l: Loop) returns (n: nat)
    requires AllFit(l.queue)
    ensures var r := Turns(l, n); r.queue == [] && r.sent + [r.message] == l.sent + Pack(l.message, l.queue)
    decreases |l.queue|, TotalLen(l.message)
  {
    if l.queue == [] {
      n := 0;
    } else {
      assert l.queue[0] in l.queue && forall e | e in l.queue[1..] :: e in l.queue;
      n := LoopPacks(Turn(l));
      n := n + 1;
      assert l.sent + [l.message] + Pack([], l.queue) == l.sent + ([l.message] + Pack([], l.queue));
    }
  }

  lemma {:induction false} LoopStuck(l: Loop, n: nat)
    requires !AllFit(l.queue)
    ensures !AllFit(Turns(l, n).queue)
    decreases n
  {
    if n > 0 {
      var e :| e in l.queue && !e.Fits();
      assert e in l.queue[1..] || e == l.queue[0];
      LoopStuck(Turn(l), n - 1);
    }
  }
}
