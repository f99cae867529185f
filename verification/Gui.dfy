/** The line buffer between the GUI and the client (src/client/gui_client.cc). */
module GuiLines {
  import opened Wire
  import opened Arenas

  const BUFFER_LEN := 64

  /** deselect. */
  function Released(d: Direction, key: Direction): Direction {
    if d == key then Straight else d
  }

  function Press(d: Direction, line: string): Direction {
    if line == "LEFT_KEY_DOWN" then Left
    else if line == "LEFT_KEY_UP" then Released(d, Left)
    else if line == "RIGHT_KEY_DOWN" then Right
    else if line == "RIGHT_KEY_UP" then Released(d, Right)
    else d
  }

  /** The direction after these lines. */
  function Keys(lines: seq<string>): Direction {
    if lines == [] then Straight else Press(Keys(lines[..|lines| - 1]), lines[|lines| - 1])
  }

  function Down(d: Direction): string {
    match d case Left => "LEFT_KEY_DOWN" case Right => "RIGHT_KEY_DOWN" case Straight => ""
  }

  function Up(d: Direction): string {
    match d case Left => "LEFT_KEY_UP" case Right => "RIGHT_KEY_UP" case Straight => ""
  }

  function Other(d: Direction): Direction {
    match d case Left => Right case Right => Left case Straight => Straight
  }

  /** The key of d went down with line number i, and since then neither went up nor did the other key go down. */
  predicate Presses(lines: seq<string>, d: Direction, i: nat) {
    i < |lines| && lines[i] == Down(d) && forall j | i < j < |lines| :: lines[j] != Up(d) && lines[j] != Down(Other(d))
  }

  /** Neither went the key of d up nor the other key down. */
  predicate Undisturbed(lines: seq<string>, d: Direction) {
    forall j | 0 <= j < |lines| :: lines[j] != Up(d) && lines[j] != Down(Other(d))
  }

  /** The direction after these lines, for a client that went into the direction d before. */
  function Turns(d: Direction, lines: seq<string>): Direction {
    if lines == [] then d else Press(Turns(d, lines[..|lines| - 1]), lines[|lines| - 1])
  }

  /** Lines lead to a direction that a key stands for when this key went down last and not up again, or when they left
      the direction as it was. */
  lemma {:induction false} TurnsIff(before: Direction, lines: seq<string>, d: Direction)
    requires d != Straight
    ensures Turns(before, lines) == d <==>
      (exists i: nat :: Presses(lines, d, i)) || (before == d && Undisturbed(lines, d))
    decreases |lines|
  {
    hide Press, Presses, Down, Up, Other, Undisturbed;
    if lines == [] {
      NonePressed(d);
    } else {
      var n := |lines| - 1;
      TurnsIff(before, lines[..n], d);
      KeyNames(lines[n], Turns(before, lines[..n]), d);
      PressesSnoc(lines[..n], lines[n], d);
      UndisturbedSnoc(lines[..n], lines[n], d);
      assert lines == lines[..n] + [lines[n]];
    }
  }

  lemma {:induction false} KeysAreTurns(lines: seq<string>)
    ensures Keys(lines) == Turns(Straight, lines)
    decreases |lines|
  {
    if lines != [] {
      KeysAreTurns(lines[..|lines| - 1]);
    }
  }

  /** The client turns where the key points that went down last, until that key goes up. */
  lemma KeysIff(lines: seq<string>, d: Direction)
    requires d != Straight
    ensures Keys(lines) == d <==> exists i: nat :: Presses(lines, d, i)
  {
    KeysAreTurns(lines);
    TurnsIff(Straight, lines, d);
  }

  lemma {:induction false} KeysAppend(a: seq<string>, b: seq<string>)
    ensures Keys(a + b) == Turns(Keys(a), b)
    decreases |b|
  {
    if b == [] {
      assert a + b == a;
    } else {
      var n := |b| - 1;
      assert (a + b)[..|a + b| - 1] == a + b[..n] && (a + b)[|a + b| - 1] == b[n];
      KeysAppend(a, b[..n]);
    }
  }

  /** Lines leave the direction unchanged when its key was not touched and the other not pressed, or was pressed once
      more and is still down; and for a client that goes straight, when no key is left down. */
  lemma UnturnedIff(d: Direction, lines: seq<string>)
    ensures Turns(d, lines) == d <==>
      if d == Straight
      then !(exists i: nat :: Presses(lines, Left, i)) && !(exists i: nat :: Presses(lines, Right, i))
      else (exists i: nat :: Presses(lines, d, i)) || Undisturbed(lines, d)
  {
    if d == Straight {
      TurnsIff(d, lines, Left);
      TurnsIff(d, lines, Right);
    } else {
      TurnsIff(d, lines, d);
    }
  }

  lemma NonePressed(d: Direction)
    ensures !exists i: nat :: Presses([], d, i)
    ensures Undisturbed([], d)
  {
  }

  lemma PressesSnoc(lines: seq<string>, last: string, d: Direction)
    ensures (exists i: nat :: Presses(lines + [last], d, i)) <==>
      last == Down(d) || ((exists i: nat :: Presses(lines, d, i)) && last != Up(d) && last != Down(Other(d)))
  {
    hide Down, Up, Other;
    var all, n := lines + [last], |lines|;
    assert all[n] == last && forall j | 0 <= j < n :: all[j] == lines[j];
    forall i: nat | Presses(all, d, i)
      ensures last == Down(d) || (Presses(lines, d, i) && last != Up(d) && last != Down(Other(d)))
    {
      assert i < n ==> all[n] != Up(d) && all[n] != Down(Other(d));
      assert i < n ==> forall j | i < j < n :: all[j] == lines[j];
    }
    if last == Down(d) {
      assert Presses(all, d, n);
    } else if i: nat :| Presses(lines, d, i) {
      assert last != Up(d) && last != Down(Other(d)) ==> Presses(all, d, i);
    }
  }

  lemma UndisturbedSnoc(lines: seq<string>, last: string, d: Direction)
    ensures Undisturbed(lines + [last], d) <==>
      Undisturbed(lines, d) && last != Up(d) && last != Down(Other(d))
  {
    hide Down, Up, Other;
    var all, n := lines + [last], |lines|;
    assert all[n] == last && forall j | 0 <= j < n :: all[j] == lines[j];
  }

  lemma KeyNames(line: string, before: Direction, d: Direction)
    requires d != Straight
    ensures Press(before, line) == d <==>
      line == Down(d) || (before == d && line != Up(d) && line != Down(Other(d)))
  {
  }

  function FirstNewline(s: string): (i: nat)
    ensures i <= |s|
  {
    if s == "" || s[0] == '\n' then 0 else 1 + FirstNewline(s[1..])
  }

  lemma {:induction false} FirstNewlineIs(s: string)
    ensures var i := FirstNewline(s); (i < |s| ==> s[i] == '\n') && forall j | 0 <= j < i :: s[j] != '\n'
    decreases |s|
  {
    if s != "" && s[0] != '\n' {
      FirstNewlineIs(s[1..]);
      assert forall j | 0 < j < |s| :: s[j] == s[1..][j - 1];
    }
  }

  /** The object, with the lines that it has acted upon so far. */
  datatype Gui = Gui(buffer: string, offset: nat, direction: Direction, handled: seq<string>)
  {
    predicate Valid() {
      |buffer| == BUFFER_LEN && offset < BUFFER_LEN
    }

    /** read asks for at most the free bytes but one. */
    predicate Takes(chunk: string) {
      Valid() && offset + |chunk| < BUFFER_LEN
    }

    /** The bytes received after the last handled line. */
    function Rest(): string
      requires offset <= |buffer|
    {
      buffer[..offset]
    }
  }

  function Nothing(n: nat): (z: string)
    ensures |z| == n
  {
    seq(n, _ => '\0')
  }

  const FRESH := Gui(Nothing(BUFFER_LEN), 0, Straight, [])

  /** receive_event for what read has put into the free part of the buffer. */
  function Read(g: Gui, chunk: string): Gui
    requires g.Takes(chunk)
  {
    var buffer := g.buffer[..g.offset] + chunk + g.buffer[g.offset + |chunk|..];
    var offset := g.offset + |chunk|;
    var i := FirstNewline(buffer[..offset]);
    if i == offset then g.(buffer := buffer, offset := offset)
    else Gui(buffer[i + 1..] + Nothing(i + 1), offset - (i + 1), Press(g.direction, buffer[..i]),
             g.handled + [buffer[..i]])
  }

  lemma NoKey(d: Direction)
    ensures Press(d, "") == d
  {
  }

  class GuiClient {
    var buffer: string
    var offset: nat
    var direction: Direction
    ghost var handled: seq<string>

    ghost function State(): Gui
      reads this
    {
      Gui(buffer, offset, direction, handled)
    }

    constructor ()
      ensures State() == FRESH
    {
      buffer, offset, direction, handled := Nothing(BUFFER_LEN), 0, Straight, [];
    }

    method Deselect(deselected: Direction)
      modifies `direction
      ensures direction == Released(old(direction), deselected)
    {
      if direction == deselected {
        direction := Straight;
      }
    }

    method Turn(action: string)
      modifies `direction
      ensures direction == Press(old(direction), action)
    {
      if action == "LEFT_KEY_DOWN" {
        direction := Left;
      } else if action == "LEFT_KEY_UP" {
        Deselect(Left);
      } else if action == "RIGHT_KEY_DOWN" {
        direction := Right;
      } else if action == "RIGHT_KEY_UP" {
        Deselect(Right);
      }
    }

    /** chunk is what the socket gives; a read of no bytes is the std::runtime_error. */
    method ReceiveEvent(chunk: string) returns (ok: bool)
      requires State().Takes(chunk)
      modifies this
      ensures ok <==> chunk != ""
      ensures State() == if ok then Read(old(State()), chunk) else old(State())
    {
      hide Press;
      if |chunk| == 0 {
        return false;
      }
      buffer := buffer[..offset] + chunk + buffer[offset + |chunk|..];
      offset := offset + |chunk|;
      var action := "";
      assert Press(direction, "") == direction by { NoKey(direction); }
      ghost var first := FirstNewline(buffer[..offset]);
      FirstNewlineIs(buffer[..offset]);
      var i := 0;
      while i < offset
        invariant 0 <= i <= first <= offset
      {
        if buffer[i] == '\n' {
          assert i == first && buffer[..offset][..i] == buffer[..i];
          action := buffer[..i];
          handled := handled + [action];
          buffer := buffer[i + 1..];
          buffer := buffer + Nothing(BUFFER_LEN - |buffer|);
          offset := offset - (i + 1);
          break;
        }
        i := i + 1;
      }
      Turn(action);
      return true;
    }
  }

  // ---- Any sequence of reads ----

  /** Nothing comes that the reads did not ask for. */
  predicate Readable(chunks: seq<string>) {
    chunks == [] || (Readable(chunks[..|chunks| - 1]) && After(chunks[..|chunks| - 1]).Takes(chunks[|chunks| - 1]))
  }

  function After(chunks: seq<string>): Gui {
    if chunks == [] then FRESH else
    var g, chunk := After(chunks[..|chunks| - 1]), chunks[|chunks| - 1];
    if g.Takes(chunk) then Read(g, chunk) else g
  }

  function Received(chunks: seq<string>): string {
    if chunks == [] then "" else Received(chunks[..|chunks| - 1]) + chunks[|chunks| - 1]
  }

  function Unlines(lines: seq<string>): string {
    if lines == [] then "" else Unlines(lines[..|lines| - 1]) + lines[|lines| - 1] + "\n"
  }

  function Newlines(s: string): nat {
    if s == "" then 0 else Newlines(s[..|s| - 1]) + if s[|s| - 1] == '\n' then 1 else 0
  }

  lemma {:induction false} NewlinesAppend(a: string, b: string)
    ensures Newlines(a + b) == Newlines(a) + Newlines(b)
    decreases |b|
  {
    if b == "" {
      assert a + b == a;
    } else {
      assert (a + b)[..|a + b| - 1] == a + b[..|b| - 1];
      NewlinesAppend(a, b[..|b| - 1]);
    }
  }

  lemma {:induction false} NewlinesZero(s: string)
    ensures Newlines(s) == 0 <==> '\n' !in s
    decreases |s|
  {
    if s != "" {
      assert s == s[..|s| - 1] + [s[|s| - 1]];
      NewlinesZero(s[..|s| - 1]);
    }
  }

  function Line(s: string): string {
    s[..FirstNewline(s)]
  }

  function Behind(s: string): string {
    if FirstNewline(s) < |s| then s[FirstNewline(s) + 1..] else ""
  }

  lemma LineSplits(s: string)
    ensures '\n' in s <==> FirstNewline(s) < |s|
    ensures '\n' !in Line(s)
    ensures '\n' in s ==> s == Line(s) + "\n" + Behind(s) && |Behind(s)| < |s|
  {
    FirstNewlineIs(s);
    hide FirstNewline;
    var i := FirstNewline(s);
    if i < |s| {
      CutAt(s, i);
    }
  }

  lemma CutAt(s: string, i: nat)
    requires i < |s|
    ensures s == s[..i] + [s[i]] + s[i + 1..]
  {
  }

  /** What one read does to the bytes that are not handled yet. */
  lemma ReadRest(g: Gui, chunk: string)
    requires g.Takes(chunk)
    ensures var r := Read(g, chunk); var s := g.Rest() + chunk;
      && r.Valid() && |s| < BUFFER_LEN && |r.Rest()| == r.offset
      && if '\n' in s
         then r.Rest() == Behind(s) && r.handled == g.handled + [Line(s)] && r.direction == Press(g.direction, Line(s))
         else r.Rest() == s && r.handled == g.handled && r.direction == g.direction
  {
    var s := g.Rest() + chunk;
    var tail := g.buffer[|s|..];
    Prefix(s, tail);
    var i := FirstNewline(s);
    LineSplits(s);
    if i < |s| {
      Remainder(s, tail, i, Nothing(i + 1));
    }
    hide Press, FirstNewline, Nothing;
  }

  lemma Prefix(s: string, tail: string)
    ensures (s + tail)[..|s|] == s
  {
  }

  lemma Remainder(s: string, tail: string, i: nat, z: string)
    requires i < |s|
    ensures (s + tail)[..i] == s[..i] && ((s + tail)[i + 1..] + z)[..|s| - (i + 1)] == s[i + 1..]
  {
  }

  /** However the bytes are cut into reads: the lines handled, with their newlines, and the bytes held back are all
      that was received; the direction is what the keys of the handled lines give; and the buffer is never full while a
      whole line waits in it. */
  lemma {:induction false} NothingLost(chunks: seq<string>)
    requires Readable(chunks)
    ensures var g := After(chunks);
      && g.Valid() && Received(chunks) == Unlines(g.handled) + g.Rest()
      && g.direction == Keys(g.handled)
      && (forall line | line in g.handled :: '\n' !in line)
      && ('\n' in g.Rest() ==> g.offset + 1 < BUFFER_LEN)
    decreases |chunks|
  {
    if chunks != [] {
      hide Read, Press, Line, Behind, FirstNewline, Gui.Rest;
      var before, chunk := chunks[..|chunks| - 1], chunks[|chunks| - 1];
      NothingLost(before);
      var g := After(before);
      OneRead(g, chunk, Received(before));
    }
  }

  lemma OneRead(g: Gui, chunk: string, received: string)
    requires g.Takes(chunk) && received == Unlines(g.handled) + g.Rest() && g.direction == Keys(g.handled)
    requires forall line | line in g.handled :: '\n' !in line
    ensures var r := Read(g, chunk);
      && r.Valid() && received + chunk == Unlines(r.handled) + r.Rest() && r.direction == Keys(r.handled)
      && (forall line | line in r.handled :: '\n' !in line)
      && ('\n' in r.Rest() ==> r.offset + 1 < BUFFER_LEN)
  {
    var s, r := g.Rest() + chunk, Read(g, chunk);
    hide *;
    ReadRest(g, chunk);
    Associate(Unlines(g.handled), g.Rest(), chunk);
    LineSplits(s);
    HandledOne(g.handled, Line(s));
    if '\n' in s {
      Associate(Unlines(g.handled), Line(s) + "\n", Behind(s));
      Associate(Unlines(g.handled), Line(s), "\n");
    }
  }

  lemma HandledOne(handled: seq<string>, line: string)
    ensures Unlines(handled + [line]) == Unlines(handled) + line + "\n"
    ensures Keys(handled + [line]) == Press(Keys(handled), line)
  {
    assert (handled + [line])[..|handled|] == handled;
  }

  // ---- Chunking ----

  /** A read handles at most one line: the whole lines left behind are those before and those that came, less one. */
  lemma Backlog(chunks: seq<string>)
    requires chunks != [] && Readable(chunks)
    ensures var n := Newlines(After(chunks[..|chunks| - 1]).Rest()) + Newlines(chunks[|chunks| - 1]);
      Newlines(After(chunks).Rest()) == if n > 0 then n - 1 else 0
  {
    hide Read, Press, Line, Behind, FirstNewline, Newlines, Gui.Rest;
    var g, chunk := After(chunks[..|chunks| - 1]), chunks[|chunks| - 1];
    ReadRest(g, chunk);
    Counted(g.Rest(), chunk);
  }

  lemma Counted(a: string, b: string)
    ensures var s, n := a + b, Newlines(a) + Newlines(b);
      Newlines(if '\n' in s then Behind(s) else s) == if n > 0 then n - 1 else 0
  {
    hide Newlines, Behind;
    var s := a + b;
    NewlinesAppend(a, b);
    NewlinesZero(s);
    if '\n' in s {
      OneLess(s);
    }
  }

  lemma OneLess(s: string)
    requires '\n' in s
    ensures Newlines(Behind(s)) == Newlines(s) - 1
  {
    LineSplits(s);
    hide Line, Behind, FirstNewline;
    NewlinesZero(Line(s));
    assert Newlines("\n") == 1 by { assert "\n"[..0] == ""; }
    NewlinesAppend(Line(s), "\n");
    NewlinesAppend(Line(s) + "\n", Behind(s));
  }

  /** The newlines received in all reads from number k on. */
  function NewlinesFrom(chunks: seq<string>, k: nat): nat
    requires k <= |chunks|
    decreases |chunks| - k
  {
    if k == |chunks| then 0 else Newlines(chunks[k]) + NewlinesFrom(chunks, k + 1)
  }

  lemma {:induction false} NewlinesFromLast(chunks: seq<string>, k: nat)
    requires k < |chunks|
    ensures NewlinesFrom(chunks, k) == NewlinesFrom(chunks[..|chunks| - 1], k) + Newlines(chunks[|chunks| - 1])
    decreases |chunks| - k
  {
    if k + 1 < |chunks| {
      NewlinesFromLast(chunks, k + 1);
    }
  }

  /** No whole line waits exactly when no stretch of reads up to the last one brought more lines than it had reads. */
  lemma AllHandledIff(chunks: seq<string>)
    requires Readable(chunks)
    ensures '\n' !in After(chunks).Rest() <==> forall k | 0 <= k <= |chunks| :: NewlinesFrom(chunks, k) <= |chunks| - k
  {
    var k := Waiting(chunks);
    NewlinesZero(After(chunks).Rest());
  }

  /** As many lines wait as the worst stretch brought too many. */
  lemma {:induction false} Waiting(chunks: seq<string>) returns (worst: nat)
    requires Readable(chunks)
    ensures var w := Newlines(After(chunks).Rest());
      && worst <= |chunks| && w == NewlinesFrom(chunks, worst) - (|chunks| - worst)
      && forall k | 0 <= k <= |chunks| :: NewlinesFrom(chunks, k) - (|chunks| - k) <= w
    decreases |chunks|
  {
    worst := |chunks|;
    if chunks != [] {
      var n := |chunks| - 1;
      var before := chunks[..n];
      Backlog(chunks);
      var last := Waiting(before);
      forall k | 0 <= k < |chunks| ensures NewlinesFrom(chunks, k) == NewlinesFrom(before, k) + Newlines(chunks[n]) {
        NewlinesFromLast(chunks, k);
      }
      if Newlines(After(before).Rest()) + Newlines(chunks[n]) > 0 {
        worst := last;
      }
    }
  }

  // ---- What was received ----

  /** The lines of which all bytes have come. */
  function WholeLines(s: string): seq<string>
    decreases |s|
  {
    var i := FirstNewline(s);
    if i < |s| then [s[..i]] + WholeLines(s[i + 1..]) else []
  }

  lemma {:induction false} WholeLinesOf(lines: seq<string>, rest: string)
    requires forall line | line in lines :: '\n' !in line
    ensures WholeLines(Unlines(lines) + rest) == lines + WholeLines(rest)
    decreases |lines|
  {
    if lines == [] {
      assert Unlines(lines) + rest == rest;
    } else {
      var n := |lines| - 1;
      var before, line := lines[..n], lines[n];
      assert line in lines && forall l | l in before :: l in lines;
      var more := line + "\n" + rest;
      Associate(Unlines(before), line + "\n", rest);
      Associate(Unlines(before), line, "\n");
      assert Unlines(lines) + rest == Unlines(before) + more;
      WholeLinesOf(before, more);
      WholeLine(line, rest);
      hide WholeLines;
      assert before + ([line] + WholeLines(rest)) == lines + WholeLines(rest);
    }
  }

  lemma WholeLine(line: string, rest: string)
    requires '\n' !in line
    ensures WholeLines(line + "\n" + rest) == [line] + WholeLines(rest)
  {
    LineOf(line, rest);
    LineSplits(line + "\n" + rest);
  }

  lemma {:induction false} WholeLinesCount(s: string)
    ensures |WholeLines(s)| == Newlines(s)
    decreases |s|
  {
    LineSplits(s);
    NewlinesZero(s);
    if '\n' in s {
      OneLess(s);
      WholeLinesCount(Behind(s));
    }
  }

  /** How many whole lines the reads have left behind, by their numbers of newlines alone. */
  function Surplus(chunks: seq<string>): nat {
    if chunks == [] then 0 else
    var n := Surplus(chunks[..|chunks| - 1]) + Newlines(chunks[|chunks| - 1]);
    if n > 0 then n - 1 else 0
  }

  lemma {:induction false} SurplusWaits(chunks: seq<string>)
    requires Readable(chunks)
    ensures Newlines(After(chunks).Rest()) == Surplus(chunks)
    decreases |chunks|
  {
    if chunks != [] {
      SurplusWaits(chunks[..|chunks| - 1]);
      Backlog(chunks);
    }
  }

  /** The lines handled are those received but for the last ones that wait; how many these are follows from the
      numbers of newlines in the reads. */
  lemma HandledOfReceived(chunks: seq<string>)
    requires Readable(chunks)
    ensures var g, whole := After(chunks), WholeLines(Received(chunks));
      && Surplus(chunks) <= |whole|
      && g.handled == whole[..|whole| - Surplus(chunks)] && WholeLines(g.Rest()) == whole[|whole| - Surplus(chunks)..]
  {
    NothingLost(chunks);
    var g := After(chunks);
    WholeLinesOf(g.handled, g.Rest());
    WholeLinesCount(g.Rest());
    SurplusWaits(chunks);
  }

  /** All whole lines received are handled exactly when no stretch of reads up to the last one brought more lines than
      it had reads. */
  lemma AllReceivedIff(chunks: seq<string>)
    requires Readable(chunks)
    ensures After(chunks).handled == WholeLines(Received(chunks)) <==>
      forall k | 0 <= k <= |chunks| :: NewlinesFrom(chunks, k) <= |chunks| - k
  {
    NothingLost(chunks);
    var g := After(chunks);
    var rest := g.Rest();
    hide *;
    HandledOfReceived(chunks);
    AllHandledIff(chunks);
    SurplusWaits(chunks);
    NewlinesZero(rest);
    CutBy(WholeLines(Received(chunks)), Surplus(chunks));
  }

  lemma CutBy(lines: seq<string>, w: nat)
    requires w <= |lines|
    ensures lines[..|lines| - w] == lines <==> w == 0
    ensures lines[..|lines| - w] + lines[|lines| - w..] == lines
  {
  }

  /** The direction is that of the lines before the waiting ones. It is the direction of everything received exactly
      when the waiting lines would leave it as it is, for which see UnturnedIff; in particular when none waits. */
  lemma DirectionIff(chunks: seq<string>)
    requires Readable(chunks)
    ensures var whole, w := WholeLines(Received(chunks)), Surplus(chunks);
      && w <= |whole| && After(chunks).direction == Keys(whole[..|whole| - w])
      && (After(chunks).direction == Keys(whole) <==>
            Turns(Keys(whole[..|whole| - w]), whole[|whole| - w..]) == Keys(whole[..|whole| - w]))
    ensures (forall k | 0 <= k <= |chunks| :: NewlinesFrom(chunks, k) <= |chunks| - k) ==>
      After(chunks).direction == Keys(WholeLines(Received(chunks)))
  {
    hide *;
    NothingLost(chunks);
    HandledOfReceived(chunks);
    AllReceivedIff(chunks);
    var whole, w := WholeLines(Received(chunks)), Surplus(chunks);
    CutBy(whole, w);
    KeysAppend(whole[..|whole| - w], whole[|whole| - w..]);
  }

  /** Two ways of cutting the same bytes that leave equally many lines waiting are not told apart. */
  lemma SameBytes(a: seq<string>, b: seq<string>)
    requires Readable(a) && Readable(b) && Received(a) == Received(b) && Surplus(a) == Surplus(b)
    ensures After(a).handled == After(b).handled && After(a).direction == After(b).direction
  {
    hide *;
    HandledOfReceived(a);
    HandledOfReceived(b);
    NothingLost(a);
    NothingLost(b);
  }

  /** So the direction does depend on the chunking: pressing and releasing a key within one read leaves it pressed
      until more bytes come. */
  lemma ChunkingMatters()
    ensures var down, up := "LEFT_KEY_DOWN\n", "LEFT_KEY_UP\n";
      && Readable([down + up]) && Readable([down, up]) && Received([down + up]) == Received([down, up])
      && After([down + up]).direction == Left && After([down, up]).direction == Straight
  {
    hide Read, FirstNewline, Press, Readable, After, Received;
    LeftKey();
    var down, up := "LEFT_KEY_DOWN", "LEFT_KEY_UP";
    var one, two := down + "\n" + (up + "\n"), [down + "\n", up + "\n"];
    assert one == "LEFT_KEY_DOWN\nLEFT_KEY_UP\n";
    ReadLine(FRESH, down, up + "\n");
    AfterOne(one);
    ReadLine(FRESH, down, "");
    assert down + "\n" + "" == down + "\n" == "LEFT_KEY_DOWN\n";
    var g := Read(FRESH, two[0]);
    ReadLine(g, up, "");
    assert up + "\n" + "" == up + "\n" == "LEFT_KEY_UP\n";
    AfterTwo(two[0], two[1]);
  }

  lemma LeftKey()
    ensures Press(Straight, "LEFT_KEY_DOWN") == Left && Press(Left, "LEFT_KEY_UP") == Straight
    ensures '\n' !in "LEFT_KEY_DOWN" && '\n' !in "LEFT_KEY_UP"
  {
  }

  lemma AfterTwo(a: string, b: string)
    requires |a| < BUFFER_LEN && Read(FRESH, a).Takes(b)
    ensures Readable([a, b]) && After([a, b]) == Read(Read(FRESH, a), b) && Received([a, b]) == a + b
  {
    AfterOne(a);
    assert [a, b][..1] == [a];
  }

  lemma AfterOne(chunk: string)
    requires |chunk| < BUFFER_LEN
    ensures Readable([chunk]) && After([chunk]) == Read(FRESH, chunk) && Received([chunk]) == chunk
  {
    assert [chunk][..0] == [] && Readable([]) && After([]) == FRESH && FRESH.Takes(chunk);
    assert "" + chunk == chunk;
  }

  /** Reading a line and more into an empty buffer handles the line. */
  lemma ReadLine(g: Gui, line: string, more: string)
    requires g.Valid() && g.offset == 0 && '\n' !in line && |line| + 1 + |more| < BUFFER_LEN
    ensures var r := Read(g, line + "\n" + more);
      r.Valid() && r.offset == |more| && r.direction == Press(g.direction, line)
  {
    hide Read, Press, FirstNewline, Line, Behind;
    var s := line + "\n" + more;
    assert g.Rest() + s == s;
    ReadRest(g, s);
    LineOf(line, more);
    var r := Read(g, s);
    assert |r.Rest()| == r.offset;
  }

  lemma LineOf(line: string, more: string)
    requires '\n' !in line
    ensures var s := line + "\n" + more; '\n' in s && Line(s) == line && Behind(s) == more
  {
    var s := line + "\n" + more;
    assert s[|line|] == '\n';
    FirstNewlineOf(line, more);
  }

  lemma {:induction false} FirstNewlineOf(line: string, more: string)
    requires '\n' !in line
    ensures FirstNewline(line + "\n" + more) == |line|
    decreases |line|
  {
    if line == "" {
      assert (line + "\n" + more)[0] == '\n';
    } else {
      assert (line + "\n" + more)[1..] == line[1..] + "\n" + more;
      assert line[0] in line;
      FirstNewlineOf(line[1..], more);
    }
  }
}
