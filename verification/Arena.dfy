/** What a running game draws on: the board, the snakes and the events after NEW_GAME (src/siktacka/game.cc,
    place_snake and the loops that call it). */
module Arenas {
  import opened Wire
  import opened Records

  datatype Direction = Left | Straight | Right

  datatype Pos = Pos(x: U32, y: U32)

  /** A snake's position is the pixel of its head; how motion computes the next pixel is left open. */
  datatype Snake = Snake(pos: Pos, dir: Direction, alive: bool)

  /** The pixels that motion or the random start comes up with, for every snake or player by its number. */
  type Pixels = nat -> Pos

  datatype Arena = Arena(
    width: U32, height: U32, occupied: set<Pos>, snakes: seq<Snake>, alive: int, eventNo: U32)
  {
    /** Board::is_empty: fields off the board count as occupied. */
    predicate IsEmpty(p: Pos) {
      p.x < width && p.y < height && p !in occupied
    }
  }

  datatype Placed = Placed(arena: Arena, snake: Snake, event: Event)

  /** Game::place_snake. */
  function PlaceSnake(a: Arena, s: Snake, no: Byte): Placed {
    if a.IsEmpty(s.pos) then
      Placed(a.(occupied := a.occupied + {s.pos}, eventNo := Succ(a.eventNo)), s,
             Pixel(a.eventNo, no, s.pos.x, s.pos.y))
    else
      Placed(a.(alive := a.alive - 1, eventNo := Succ(a.eventNo)), s.(alive := false), Eliminated(a.eventNo, no))
  }

  /** Snake i, having moved to the pixel p, is placed; the loop index that becomes the player number has 8 bits. */
  function MoveSnake(a: Arena, i: nat, p: Pos): Placed
    requires i < |a.snakes|
  {
    var r := PlaceSnake(a, a.snakes[i].(pos := p), i % 0x100);
    r.(arena := r.arena.(snakes := a.snakes[i := r.snake]))
  }

  datatype Played = Played(arena: Arena, events: seq<Event>)

  /** The loop of do_frame over the snakes. */
  function FrameFrom(a: Arena, i: nat, next: Pixels): Played
    decreases |a.snakes| - i
  {
    if i >= |a.snakes| then Played(a, [])
    else if !a.snakes[i].alive || next(i) == a.snakes[i].pos then FrameFrom(a, i + 1, next) else
    var r := MoveSnake(a, i, next(i));
    var rest := FrameFrom(r.arena, i + 1, next);
    Played(rest.arena, [r.event] + rest.events)
  }

  // ---- What the events say ----

  function Cells(events: seq<Event>): set<Pos> {
    if events == [] then {} else
    var e := events[|events| - 1];
    Cells(events[..|events| - 1]) + if e.Pixel? then {Pos(e.x, e.y)} else {}
  }

  function Pixelled(events: seq<Event>): nat {
    if events == [] then 0 else
    Pixelled(events[..|events| - 1]) + if events[|events| - 1].Pixel? then 1 else 0
  }

  /** The player has been eliminated. */
  predicate Dead(events: seq<Event>, player: nat) {
    exists i | 0 <= i < |events| :: events[i].Eliminated? && events[i].player == player
  }

  function CountAlive(snakes: seq<Snake>): nat {
    if snakes == [] then 0 else
    CountAlive(snakes[..|snakes| - 1]) + if snakes[|snakes| - 1].alive then 1 else 0
  }

  /** Two different snakes are alive. */
  ghost predicate TwoAlive(snakes: seq<Snake>) {
    exists i, j | 0 <= i < j < |snakes| :: snakes[i].alive && snakes[j].alive
  }

  lemma {:induction false} CountAliveIff(snakes: seq<Snake>)
    ensures CountAlive(snakes) >= 1 <==> exists i | 0 <= i < |snakes| :: snakes[i].alive
    ensures CountAlive(snakes) >= 2 <==> TwoAlive(snakes)
    decreases |snakes|
  {
    if snakes != [] {
      var n := |snakes| - 1;
      var rest := snakes[..n];
      CountAliveIff(rest);
      assert forall i | 0 <= i < n :: rest[i] == snakes[i];
      if TwoAlive(snakes) {
        var i, j :| 0 <= i < j < |snakes| && snakes[i].alive && snakes[j].alive;
        assert rest[i].alive && (j < n ==> rest[j].alive);
      }
      if CountAlive(rest) >= 1 {
        var i :| 0 <= i < |rest| && rest[i].alive;
        assert snakes[i].alive;
      }
    }
  }

  /** Events are numbered from one, name seated players and stay on the board. */
  ghost predicate Proper(a: Arena, events: seq<Event>) {
    && a.eventNo == 1 + |events|
    && forall i | 0 <= i < |events| ::
         && events[i].no == i + 1
         && (events[i].Pixel? || events[i].Eliminated?)
         && events[i].player < |a.snakes|
         && (events[i].Pixel? ==> events[i].x < a.width && events[i].y < a.height)
  }

  /** Board and log agree and no cell is drawn twice; the counter of live snakes is right; and every event either
      took a cell or a life. */
  ghost predicate Balanced(a: Arena, events: seq<Event>) {
    && a.occupied == Cells(events)
    && |a.occupied| == Pixelled(events)
    && a.alive == CountAlive(a.snakes)
    && |events| == |a.occupied| + (|a.snakes| - a.alive)
  }

  /** A snake is dead exactly when its elimination was announced, which happens once and is its last event. */
  ghost predicate Fates(a: Arena, events: seq<Event>) {
    && (forall s | 0 <= s < |a.snakes| :: a.snakes[s].alive <==> !Dead(events, s))
    && (forall j | 0 <= j < |events| && (events[j].Pixel? || events[j].Eliminated?) ::
          !Dead(events[..j], events[j].player))
  }

  ghost predicate OnBoard(a: Arena) {
    forall p | p in a.occupied :: p.x < a.width && p.y < a.height
  }

  const MAX_SNAKES := 247

  /** The board is small enough for 32-bit event numbers. */
  predicate BoardOk(width: U32, height: U32) {
    1 + width * height + MAX_SNAKES < 0x1_0000_0000
  }

  ghost predicate Roomy(a: Arena) {
    BoardOk(a.width, a.height)
  }

  ghost predicate ArenaInv(a: Arena, events: seq<Event>) {
    Proper(a, events) && Balanced(a, events) && Fates(a, events) && OnBoard(a) && Roomy(a) && |a.snakes| <= MAX_SNAKES
  }

  // ---- Bounds ----

  lemma {:induction false} ColumnBound(s: set<Pos>, x: U32, h: U32)
    requires forall p | p in s :: p.x == x && p.y < h
    ensures |s| <= h
    decreases h
  {
    if h == 0 {
      assert forall p :: p !in s;
    } else {
      var top := Pos(x, h - 1);
      var rest := s - {top};
      ColumnBound(rest, x, h - 1);
      assert s <= rest + {top};
      Subset(s, rest + {top});
    }
  }

  lemma {:induction false} Subset<T>(a: set<T>, b: set<T>)
    requires a <= b
    ensures |a| <= |b|
    decreases |a|
  {
    if x :| x in a {
      Subset(a - {x}, b - {x});
    }
  }

  /** A board of width w and height h has at most w * h cells. */
  lemma {:induction false} GridBound(s: set<Pos>, w: U32, h: U32)
    requires forall p | p in s :: p.x < w && p.y < h
    ensures |s| <= w * h
    decreases w
  {
    if w == 0 {
      assert forall p :: p !in s;
    } else {
      var column := set p | p in s && p.x == w - 1;
      var rest := s - column;
      ColumnBound(column, w - 1, h);
      assert s == rest + column && forall p | p in rest :: p.x < w - 1 && p.y < h;
      GridBound(rest, w - 1, h);
      OneMoreColumn(w, h);
    }
  }

  lemma OneMoreColumn(w: int, h: int)
    ensures w * h == (w - 1) * h + h
  {
  }

  lemma {:induction false} AliveBound(snakes: seq<Snake>)
    ensures CountAlive(snakes) <= |snakes|
    decreases |snakes|
  {
    if snakes != [] {
      AliveBound(snakes[..|snakes| - 1]);
    }
  }

  /** Conservation: free cells and live snakes are what a game can still spend, and it has spent one for every event;
      so it logs at most 1 + width * height + snakes events. */
  lemma Conservation(a: Arena, events: seq<Event>)
    requires ArenaInv(a, events)
    ensures |events| + (a.width * a.height - |a.occupied|) + a.alive == a.width * a.height + |a.snakes|
    ensures |a.occupied| <= a.width * a.height && 0 <= a.alive <= |a.snakes|
    ensures 1 + |events| <= 1 + a.width * a.height + |a.snakes| < 0x1_0000_0000
  {
    GridBound(a.occupied, a.width, a.height);
    AliveBound(a.snakes);
  }

  // ---- One placement ----

  lemma {:induction false} AliveUpdate(snakes: seq<Snake>, i: nat, s: Snake)
    requires i < |snakes|
    ensures CountAlive(snakes[i := s]) ==
      CountAlive(snakes) - (if snakes[i].alive then 1 else 0) + (if s.alive then 1 else 0)
    decreases |snakes|
  {
    var n := |snakes| - 1;
    if i < n {
      assert snakes[i := s][..n] == snakes[..n][i := s];
      AliveUpdate(snakes[..n], i, s);
    } else {
      assert snakes[i := s][..n] == snakes[..n];
    }
  }

  lemma DeadSnoc(events: seq<Event>, e: Event, player: nat)
    ensures Dead(events + [e], player) <==> Dead(events, player) || (e.Eliminated? && e.player == player)
  {
    var all := events + [e];
    if Dead(events, player) {
      var i :| 0 <= i < |events| && events[i].Eliminated? && events[i].player == player;
      assert all[i] == events[i];
    }
    if e.Eliminated? && e.player == player {
      assert all[|events|] == e;
    }
  }

  lemma FatesSnoc(a: Arena, events: seq<Event>, i: nat, s: Snake, e: Event)
    requires Fates(a, events) && i < |a.snakes| && a.snakes[i].alive
    requires e.Pixel? || e.Eliminated?
    requires e.player == i && s.alive == e.Pixel?
    ensures Fates(a.(snakes := a.snakes[i := s]), events + [e])
  {
    var all, snakes := events + [e], a.snakes[i := s];
    forall k | 0 <= k < |snakes| ensures snakes[k].alive <==> !Dead(all, k) {
      DeadSnoc(events, e, k);
    }
    forall j | 0 <= j < |all| && (all[j].Pixel? || all[j].Eliminated?) ensures !Dead(all[..j], all[j].player) {
      assert all[..j] == events[..j];
      if j == |events| {
        assert events[..j] == events;
      }
    }
  }

  lemma CellsSnoc(events: seq<Event>, e: Event)
    ensures Cells(events + [e]) == Cells(events) + if e.Pixel? then {Pos(e.x, e.y)} else {}
    ensures Pixelled(events + [e]) == Pixelled(events) + if e.Pixel? then 1 else 0
  {
    assert (events + [e])[..|events|] == events;
  }

  /** Wherever a live snake moves to, placing it keeps the arena and the log in agreement. */
  lemma PlacingKeeps(a: Arena, events: seq<Event>, i: nat, p: Pos)
    requires ArenaInv(a, events) && i < |a.snakes| && a.snakes[i].alive
    ensures var r := MoveSnake(a, i, p);
      && ArenaInv(r.arena, events + [r.event]) && (r.event.Pixel? || r.event.Eliminated?)
      && |r.arena.snakes| == |a.snakes| && r.arena.width == a.width && r.arena.height == a.height
  {
    var r := MoveSnake(a, i, p);
    PlacedBalanced(a, events, i, p);
    PlacedOnBoard(a, events, i, p);
    NoWrap(a, events, r.arena, r.event);
    FatesSnoc(a, events, i, r.snake, r.event);
    assert Fates(r.arena, events + [r.event]);
    hide Fates, Balanced, OnBoard;
  }

  lemma PlacedBalanced(a: Arena, events: seq<Event>, i: nat, p: Pos)
    requires Balanced(a, events) && i < |a.snakes| && a.snakes[i].alive
    ensures var r := MoveSnake(a, i, p); Balanced(r.arena, events + [r.event])
  {
    var r := MoveSnake(a, i, p);
    AliveUpdate(a.snakes, i, r.snake);
    CellsSnoc(events, r.event);
  }

  lemma PlacedOnBoard(a: Arena, events: seq<Event>, i: nat, p: Pos)
    requires OnBoard(a) && i < |a.snakes|
    ensures OnBoard(MoveSnake(a, i, p).arena)
  {
  }

  /** The event number does not wrap around. */
  lemma NoWrap(a: Arena, events: seq<Event>, b: Arena, e: Event)
    requires Proper(a, events) && Roomy(a) && |a.snakes| <= MAX_SNAKES
    requires Balanced(b, events + [e]) && OnBoard(b)
    requires b.width == a.width && b.height == a.height && |b.snakes| == |a.snakes|
    ensures Succ(a.eventNo) == a.eventNo + 1
  {
    var area := a.width * a.height;
    GridBound(b.occupied, a.width, a.height);
    AliveBound(b.snakes);
    assert |b.occupied| <= area && 1 + area + MAX_SNAKES < 0x1_0000_0000;
    assert |events + [e]| == |events| + 1;
  }
}
