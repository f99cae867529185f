/** The Client object of src/client, proved to deliver as the functions of Delivery say. */
module ClientObject {
  import opened Wire
  import opened Records
  import opened Parsing
  import opened Messages
  import opened Delivery

  class Client {
    var gameId: U32
    var eventNo: U32
    var width: U32
    var height: U32
    var players: seq<Name>
    /** Every line pushed to the queue of the GUI so far. */
    var events: seq<Line>
    var stopping: bool

    ghost function State(): Receiver
      reads this
    {
      Receiver(gameId, eventNo, width, height, players, events, stopping)
    }

    constructor ()
      ensures State() == INITIAL
    {
      gameId, eventNo, width, height, players, events, stopping := 0, 0, 0, 0, [], [], false;
    }

    /** false stands for the std::invalid_argument that any other event gets. */
    method InitializePlayers(event: Event) returns (ok: bool)
      modifies `width, `height, `players
      ensures ok == event.NewGame? && State() == Initialized(old(State()), event)
    {
      if !event.NewGame? {
        return false;
      }
      width := event.maxX;
      height := event.maxY;
      players := [];
      var i := 0;
      while i < |event.names|
        invariant 0 <= i <= |event.names| && players == event.names[..i]
        invariant width == event.maxX && height == event.maxY
      {
        players := players + [event.names[i]];
        i := i + 1;
      }
      assert event.names[..i] == event.names;
      return true;
    }

    /** A message that cannot be parsed, or an event that is invalid in the game, stops the client. Nothing is said of
        messages that the source reads beyond their end. */
    method ReceiveMessage(crc: Checksum, buffer: Bytes)
      modifies this
      ensures Parse(crc, buffer) != Failed(Undefined) ==> State() == ReceiveBytes(crc, old(State()), buffer)
    {
      hide Parse;
      var message, why := ServerMessage.FromBytes(crc, buffer);
      if message == null {
        stopping := true;
        return;
      }
      if stopping {
        return;
      }
      if gameId != message.gameId {
        gameId := message.gameId;
        eventNo := 0;
      }
      ghost var start := State();
      var all := message.events;
      var i := 0;
      assert all[i..] == all;
      while i < |all|
        invariant 0 <= i <= |all|
        invariant !stopping && Handle(State(), all[i..]) == Handle(start, all)
      {
        var event := all[i];
        assert all[i..][0] == event && all[i..][1..] == all[i + 1..];
        i := i + 1;
        if event.no < eventNo {
          continue;
        } else if event.no == eventNo {
          if event.GameOver? {
            continue;
          } else if event.NewGame? {
            var ok := InitializePlayers(event);
          }
          if !event.ValidInGame(width, height, |players|) {
            stopping := true;
            return;
          }
          eventNo := Succ(eventNo);
          events := events + [Render(event, players)];
        } else {
          break;
        }
      }
    }
  }
}
