# A verified model of the Siktacka server and client

Siktacka is a multi-player snake game. A server runs the games, numbers everything that happens in them, and sends it
over UDP, which may lose, repeat and reorder datagrams, to clients that show it in a GUI. This project models that
pipeline and proves what each part is for, up to the statement about the whole of it:

- `Wire`, `Records`: bytes, big-endian integers, the order of names, and the four kinds of events with their layout.
- `Parsing`, `Datagrams`: the parser of events and datagrams as functions; printing and parsing undo each other, and
  the parser's language is characterised exactly.
- `Messages`: the objects and buffers of that code, proved against these functions.
- `Packing`: the greedy cutting of a log into datagrams.
- `Delivery`, `ClientObject`, `Display`: what a client makes of the datagrams it gets, what it shows and what it
  refuses.
- `GuiLines`: the line buffer between the GUI and the client.
- `Generator`: the random generator, whose draws name the games.
- `Arenas`, `BoardObject`, `GameRules`, `GameObject`: board, snakes, players, readiness, seating and frames; the
  objects are proved against the functions. `GameProofs` and `GameRuns` hold the invariant of all runs and its meaning,
  `Frames` what frames, starts and requests do, told by the board and the log.
- `Registry`, `Outbox`: the connections; the event log and the queue of outgoing datagrams.
- `Service`, `ServerObject`: the server as a state machine, and the object proved against it. `ServiceProofs` and
  `ServiceFacts` hold the invariant of all runs and its meaning.
- `Turns`: what a turn of the server does to the game, to its clients and to the message it handles.
- `Starting`, `Visits`: which turns of the server start a game or take the process down, and runs that get there.
- `EndToEnd`, `Answers`, `Chronicles`, `Following`: server, network and client together. The main results are
  `EndToEnd.SystemSafe`, `Answers.MessageCatchesUp`, `Answers.MessageStarts`, `Chronicles.EveryDelivery`,
  `Chronicles.ShortRunDelivery` and `Following.KeepsUp`.

Classes follow the objects of the source that change in place. Each of their methods says that the new state is what a
function makes of the old state, and the lemmas are about these functions.

Conventions. The checksum is a parameter: every result holds for any function from bytes to 32 bits. `std::map` and
`std::set` are strictly sorted sequences. Exceptions are values: an `AddResult`, an `Outcome`, a `Lookup`, a null
object. A callback to a listener is a value returned to the caller, who makes the call. Random starting places and the
motion of the snakes are functions chosen freely for every step, so the results hold for any motion. Game event numbers
do not wrap around, because 1 + width * height + 247 is taken to be below 2^32 (`Arenas.BoardOk`). Names that reach the
game are 1 to 64 characters between 33 and 126 (`GameRules.NameOk`), as `ClientMessage` checks.

Where the code and its comments or intentions part, the model follows the code:

- `add_player` accepts up to 495 bytes of names, but a record with its 8 bytes of width and height then has up to 516.
  A NEW_GAME fits a datagram only with at most 487 bytes (`Records.NewGameFits`). When a game starts with more, the
  `std::overflow_error` leaves a `noexcept` function and the process ends. `Starting.TurnDownIff` says for every turn,
  from the state before it, whether it does so, and `Visits.EightGoDown` gives a run from the boot that ends in this
  way.
- A client restarts on any other game id, also on that of a late datagram of an earlier game
  (`Delivery.LateDatagramRestarts`). `Delivery.NoRestartIff` says exactly when it delivers a game from its start twice:
  when between two datagrams that begin with event 0 of this game there is a datagram of another game.
  `Delivery.GroupedIff` says for which orders of arrival that cannot happen, whatever the datagrams carry.
- With 256 or more players the 8-bit ready count never reaches the number of players, and no game starts
  (`GameRules.StartsIff`); `Visits.FullHouse` gives a run from the boot that ends with 256 players, all of them ready,
  and no game.
- One read handles at most one line from the GUI, so the direction depends on how the bytes are cut into reads
  (`GuiLines.ChunkingMatters`). `GuiLines.HandledOfReceived` says which lines have been handled,
  `GuiLines.AllReceivedIff` exactly when all have, and `GuiLines.DirectionIff` exactly when the direction is that of
  all lines received.
- GAME_OVER is not kept in the log and is not shown by the client.

## Model

| member | source | states |
|---|---|---|
| Wire.BigEndianOrder | src/siktacka/events/event.cc:29-33 | Integers are written in network order: their encodings compare as bytes the way the numbers do |
| Wire.LessIff | src/siktacka/events/event_new_game.cc:80 | Names compare as std::string does: the smaller one has the smaller byte, or ends, where they first differ |
| Messages.EventToBytes | src/siktacka/events/event.cc:17-44 | Filling the buffer in place gives the record: length, number, type, payload, checksum of all before |
| Records.LenIsEncodedLength | src/siktacka/events/event.cc:46-48 | get_len is the number of bytes to_bytes writes exactly when the names fit the length accounted for them |
| Records.NewGameFits | src/siktacka/events/event_new_game.cc:40-42 | An accepted list of names fits a datagram exactly when it takes at most 487 bytes |
| Messages.EventNewGame.AddPlayer | src/siktacka/events/event_new_game.cc:35-45 | The capacity guard, with both exceptions, and the sorted insertion |
| Messages.EventNewGame.GetData | src/siktacka/events/event_new_game.cc:12-29 | The array filled through the moving offset is width, height and the joined names |
| Messages.EventNewGame.FromData | src/siktacka/events/event_new_game.cc:51-93 | The parsing constructor accepts what ParseNewGame accepts and builds the same event |
| Parsing.ParseNewGameSound | src/siktacka/events/event_new_game.cc:47-93 | Every accepted payload is accounted for byte by byte, repeated names included, and is given back by get_data unless names repeat |
| Parsing.ParseNewGameIff | src/siktacka/events/event_new_game.cc:51-93 | Exactly the payloads of at least 12 bytes are accepted that end in NUL and whose names are in order, at most 64 bytes each and at most 495 with their NULs |
| Parsing.AddAllSound | src/siktacka/events/event_new_game.cc:75-92 | The name loop keeps a sorted set whose accounted length is that of the names read, and loses bytes only to repetitions |
| Parsing.ParseOfNewGame | src/siktacka/events/event_new_game.cc:12-93 | Parsing get_data gives back width, height and names exactly when the names are sorted, NUL-free, within 64 bytes, and take 4 to 495 bytes |
| Parsing.ParseOfData | src/siktacka/events/event_pixel.cc:13-50 | For all four kinds, parsing the payload of an event gives the event back exactly when it is canonical |
| Parsing.ParseSound | src/siktacka/events/event_player_eliminated.cc:13-34 | For all four kinds, get_len of an accepted payload is the payload plus the framing, and a canonical event serialises to the payload it was read from |
| Messages.MakeEvent | src/siktacka/events/event_factory.cc:21-79 | The moving cursor computes Make: bad checksum, unknown type with its length, refusal, or the event |
| Parsing.MakeOfFrame | src/siktacka/events/event_factory.cc:32-78 | What make answers for an intact record of any type, whatever follows it |
| Parsing.RecordLayout | src/siktacka/events/event.cc:17-44 | At which offsets the bytes of each of the four kinds hold length, number, type, fields and checksum |
| Parsing.MakeIff | src/siktacka/events/event_factory.cc:32-78 | make reports a bad checksum exactly when no record with its length and checksum right begins there, and rejects exactly such a record of a known type whose payload makes no event |
| Parsing.MakeSound | src/siktacka/events/event_factory.cc:32-78 | Whatever make accepts or skips is an intact record, whose length it reports exactly |
| Messages.ServerMessage.AddEvent | src/siktacka/protocol/server_message.cc:12-18 | The message takes an event exactly when the total stays within 508 bytes, and is unchanged otherwise |
| Messages.ServerMessage.ToBytes | src/siktacka/protocol/server_message.cc:20-29 | The loop writes the game id and the records in order |
| Messages.ServerMessage.FromBytes | src/siktacka/protocol/server_message.cc:31-48 | The offset loop computes Parse |
| Datagrams.NoOverflow | src/siktacka/protocol/server_message.cc:36-40 | While parsing up to 512 bytes add_event cannot overflow |
| Datagrams.ScanRaws | src/siktacka/protocol/server_message.cc:36-47 | Records are read one after another by their exact lengths, unknown types are skipped, and the first bad record ends it |
| Datagrams.ParseIff | src/siktacka/protocol/server_message.cc:31-48 | The exact language of the parser: an id, intact records, then a tail that is empty or fails its length or checksum; the events are those of the known types |
| Datagrams.RefusedIff | src/siktacka/protocol/server_message.cc:31-48 | The parser throws std::invalid_argument exactly on datagrams in which, behind readable records, an intact record of a known type makes no event |
| Datagrams.DatagramRoundTrip | src/siktacka/protocol/server_message.cc:20-48 | A datagram parses back to its id and events whatever broken tail is appended |
| Packing.PackExact | src/server/server.cc:142-165 | Greedy packing gives back the requested events in order, in datagrams that are not empty and not too long |
| Packing.PackFull | src/server/server.cc:154-162 | No datagram but the last could take the next event |
| Packing.PackOptimal | src/server/server.cc:154-164 | No other way of cutting the events in order uses fewer datagrams |
| Packing.LoopEndsIff | src/server/server.cc:154-162 | The loop of make_message ends exactly when every event fits a datagram |
| ServerObject.Server.MakeMessage | src/server/server.cc:142-165 | The loop posts the packed part of the log to the client, or nothing when it asked for nothing new |
| ClientObject.Client.ReceiveMessage | src/client/client.cc:154-193 | The loop with its early exits moves the client as ReceiveBytes says, for all messages that the source does not read beyond their end; what is shown and what is refused are the matter of Display |
| ClientObject.Client.InitializePlayers | src/client/client.cc:227-239 | Width, height and the numbered players become those of NEW_GAME, others forgotten; any other event is refused |
| Display.RenderShows | src/siktacka/events/event_pixel.cc:51-59 | A line is the one of an event exactly when it has its kind, its coordinates and the name with its player number |
| Display.RenderInjective | src/siktacka/events/event_pixel.cc:51-59 | Two valid events of a game with the same line have the same kind, coordinates and player |
| Display.LinesDetermine | src/client/client.cc:186-187 | Delivered lines determine the log: two games that show the same k lines have the same first k events |
| Display.AcceptIff | src/client/client.cc:173-187 | An event in its turn stops the client exactly when its pixel is off the board or its player does not exist; otherwise it is shown and the next number expected |
| Display.GapEnds | src/client/client.cc:169-192 | What lies behind a gap in a datagram is not handled |
| Display.StopsIff | src/client/client.cc:169-192 | The events of a message stop the client exactly when one in its turn is impossible in the game as described by then; all before it was handled and nothing after it |
| Display.BytesStopIff | src/client/client.cc:154-193 | A datagram stops the client exactly when an intact record has a bad payload, and then nothing of it is taken, or by an impossible event in its turn |
| Delivery.HandleFromLog | src/client/client.cc:169-192 | From any events of a game's log the client gets to hold a prefix of the log that is no shorter than before |
| Delivery.HandleStretch | src/client/client.cc:169-192 | A stretch of the log that the client can reach brings it to the end of the stretch |
| Delivery.SafeDelivery | src/client/client.cc:154-193 | For any sequence of datagrams of one game, lost, repeated and reordered, exactly a growing prefix of the log is delivered |
| Delivery.DeliveryByRuns | src/client/client.cc:164-192 | For datagrams of any games the lines delivered are one prefix of a log for every maximal stretch of datagrams with the same id |
| Delivery.NoRestartIff | src/client/client.cc:164-192 | A client delivers some game from its start in two stays exactly when two datagrams that begin with its event 0 have a datagram of another game between them |
| Delivery.GroupedDelivery | src/client/client.cc:164-192 | When datagrams arrive grouped by game, the lines delivered are prefixes of the logs of different games |
| Delivery.GroupedIff | src/client/client.cc:164-167 | Ids come grouped exactly when no contents of the datagrams make the client deliver a game from its start twice |
| Delivery.StaysDistinctIff | src/client/client.cc:164-167 | A fresh client, which counts as being in game 0, enters no game twice exactly when the ids come grouped behind a 0 |
| Delivery.LateDatagramRestarts | src/client/client.cc:164-167 | A late datagram of an earlier game makes its first line appear twice |
| GuiLines.GuiClient.ReceiveEvent | src/client/gui_client.cc:44-76 | The scanning loop handles the first line in the buffer, if any, and moves the rest to the front |
| GuiLines.GuiClient.Deselect | src/client/gui_client.cc:82-86 | Releasing a key ends only its own direction |
| GuiLines.NothingLost | src/client/gui_client.cc:44-76 | For any reads, handled lines with their newlines and the bytes held back are all bytes received; the buffer stays 64 long; the direction is what the keys of the handled lines give |
| GuiLines.KeysIff | src/client/gui_client.cc:67-86 | The direction is that of the key that went down last, as long as this key has not gone up since |
| GuiLines.AllHandledIff | src/client/gui_client.cc:53-61 | No whole line waits exactly when no stretch of reads up to the last brought more lines than it had reads |
| GuiLines.HandledOfReceived | src/client/gui_client.cc:44-61 | The lines handled are the whole lines received but for the last ones, and the newlines in the reads tell how many |
| GuiLines.AllReceivedIff | src/client/gui_client.cc:44-61 | All whole lines received are handled exactly when no stretch of reads up to the last brought more lines than it had reads |
| GuiLines.DirectionIff | src/client/gui_client.cc:44-76 | The direction is that of all whole lines received exactly when the waiting ones would leave it as it is; in particular when none waits |
| GuiLines.UnturnedIff | src/client/gui_client.cc:67-86 | Which lines leave a direction as it is |
| GuiLines.SameBytes | src/client/gui_client.cc:44-76 | The same bytes in different reads that leave equally many lines waiting give the same handled lines and direction |
| GuiLines.ChunkingMatters | src/client/gui_client.cc:53-75 | The same bytes in one read or two can leave different directions |
| Generator.Random.Draw | src/siktacka/random.cc:9-13 | A draw returns the state and advances it, without overflow in 64 bits |
| Generator.DrawFormula | src/siktacka/random.cc:9-13 | The k-th draw is seed * 279470273^k mod 4294967291 |
| Generator.NextInvertible | src/siktacka/random.cc:9-13 | A draw can be undone: the step is a bijection below the modulus |
| Generator.ZeroIff | src/siktacka/random.cc:9-13 | Zero is drawn exactly when the modulus divides the seed |
| Generator.FullPeriod | src/siktacka/random.cc:9-13 | From any state but zero the generator is back exactly after the multiples of 4294967290 draws |
| Generator.DrawsDiffer | src/siktacka/random.cc:9-13 | Fewer draws than the period apart, two draws differ unless the modulus divides the seed |
| Generator.IdsDiffer | src/siktacka/game.cc:170-176 | Two draws 3n + 1 apart with n from 1 to 247 are equal exactly when they are zero |
| BoardObject.Board.constructor | src/siktacka/board.cc:10-17 | A new board has no occupied field |
| BoardObject.Board.Clear | src/siktacka/board.cc:19-25 | The loops leave no occupied field |
| BoardObject.Board.MarkOccupied | src/siktacka/board.cc:27-29 | Exactly the given field becomes occupied |
| BoardObject.Board.IsEmpty | src/siktacka/board.cc:31-34 | A field is empty exactly when it is on the board and not occupied |
| GameObject.Game.constructor | src/siktacka/game.cc:18-25 | A new game is idle, with its id drawn and an empty board |
| GameObject.Game.Initialize | src/siktacka/game.cc:27-36 | Next id drawn, ready count and event number reset, nobody ready or in the game |
| GameObject.Game.AddPlayer | src/siktacka/game.cc:38-49 | The player is added under a new name of at most 64 characters, else nothing changes |
| GameObject.Game.PlayerAction | src/siktacka/game.cc:51-77 | A running game turns the player's snake, an idle one makes the player ready and may start |
| GameObject.Game.RemovePlayer | src/siktacka/game.cc:79-93 | The player and its readiness are gone; an idle game may start |
| GameObject.Game.Start | src/siktacka/game.cc:95-106 | A game with two players or more, all of them counted as ready, starts |
| GameObject.Game.NewGame | src/siktacka/game.cc:129-168 | The loop seats players until a name does not fit, and announces NEW_GAME and then the placements |
| GameObject.Game.PlaceSnake | src/siktacka/game.cc:178-190 | An empty field is taken and announced as PIXEL; otherwise the snake dies and is announced as eliminated |
| GameObject.Game.DoFrame | src/siktacka/game.cc:112-127 | A frame announces GAME_OVER when at most one snake is alive, else moves and places the live ones in order |
| GameObject.Game.EndGame | src/siktacka/game.cc:114-117 | After GAME_OVER the game is idle and initialised anew |
| GameRules.StartsIff | src/siktacka/game.cc:95-99 | A game starts exactly when there are 2 to 255 players, all ready; otherwise nothing changes |
| GameProofs.StartSeats | src/siktacka/game.cc:129-168 | The longest prefix of the sorted names that fits is seated, at least 2 and at most 247; player j has the j-th name; three draws each |
| Frames.StartTells | src/siktacka/game.cc:129-168 | Every seated player gets one event, in order: a PIXEL at its start when that is on the board and nobody was placed there before, else PLAYER_ELIMINATED; exactly they are in the game, by number |
| GameProofs.FrameKeeps | src/siktacka/game.cc:120-126 | Frames keep board, log, counters and fates in agreement for any motion |
| GameProofs.AddPlayerKeeps | src/siktacka/game.cc:38-49 | Adding keeps the invariant and adds exactly this name |
| Frames.JoinIff | src/siktacka/game.cc:38-49 | A name joins exactly when it has at most 64 characters and is not taken, unready and unseated; nothing else changes |
| GameProofs.RemovePlayerKeeps | src/siktacka/game.cc:79-93 | Removing keeps the invariant, started game included, and removes exactly this name |
| Frames.DepartureTells | src/siktacka/game.cc:79-93 | A departure takes exactly this player out and changes nothing else, unless it starts a game, which then has the others placed |
| GameProofs.PlayerActionKeeps | src/siktacka/game.cc:51-77 | An action keeps the invariant, started game included, and the names |
| Frames.TurnsSnake | src/siktacka/game.cc:71-77 | While a game runs, an action of a player who takes part turns exactly the snake with the number of its name in NEW_GAME, in the direction asked for; any other action changes nothing |
| Frames.ActionReadies | src/siktacka/game.cc:51-69 | In an idle game an action that is not Straight makes exactly its player ready, another changes nothing, and the one that starts the game has all players placed |
| Arenas.PlacingKeeps | src/siktacka/game.cc:178-190 | Placing a live snake anywhere keeps board, log, live count and fates in agreement |
| Frames.PlacedIff | src/siktacka/game.cc:178-190 | A snake is drawn exactly when its pixel is on the board and unoccupied, and that field is then occupied; otherwise it is eliminated |
| Frames.FrameOnLog | src/siktacka/game.cc:120-126 | A frame has exactly one event for each live snake whose pixel changes, in order, and leaves the others alone; the snake is eliminated exactly when it comes to a pixel off the board or to that of an earlier PIXEL of the log or the frame |
| Arenas.Conservation | src/siktacka/game.cc:112-127 | Events logged, free fields and live snakes add up to a constant; a game logs at most 1 + width * height + snakes events |
| GameRuns.EveryRun | src/siktacka/game.cc:12-216 | Every run of joins, leaves, actions and frames keeps the invariant of the game and its log |
| GameRuns.LogAcceptable | src/client/client.cc:173-184 | The server's log is numbered by position, starts with its only NEW_GAME, passes validate_in_game throughout and survives the wire |
| GameRuns.BoardIsLog | src/siktacka/game.cc:178-190 | Occupied fields are exactly the fields of the PIXEL events, all on the board, no two on one field |
| GameRuns.FatesInLog | src/siktacka/game.cc:178-190 | Elimination comes once and is a player's last event; alive means not eliminated; players of the game have distinct numbers |
| GameRuns.FrameSpends | src/siktacka/game.cc:112-127 | Every event of a frame costs one free field or one life |
| GameRuns.GameOverIff | src/siktacka/game.cc:112-118 | GAME_OVER is announced exactly by a frame of a running game in which no two snakes are alive; it empties the log; all else only appends to the log |
| Frames.EndsIff | src/siktacka/game.cc:113 | A frame ends the game exactly when no two snakes are alive, which is when at most one player of NEW_GAME has no PLAYER_ELIMINATED in the log |
| Frames.StepEndsIff | src/siktacka/game.cc:112-118 | Over runs, GAME_OVER comes from exactly the frames of a running game with at most one player not eliminated in the log, and only they end a game |
| Frames.EveryGameAnew | src/siktacka/game.cc:27-36 | After a game, whatever happens, the next one does not start before every player who stays has got ready again |
| GameRuns.ActionStartsIff | src/siktacka/game.cc:62-106 | An action starts an idle game exactly when it comes from the last of 2 to 255 players to get ready |
| GameRuns.DepartureStartsIff | src/siktacka/game.cc:79-106 | A departure starts an idle game exactly when 2 to 255 players remain, all ready |
| GameRuns.EveryRunDraws | src/siktacka/game.cc:27-36 | Over every run ids are draws of the generator, and are zero modulo the modulus only if the seed is |
| GameRuns.NextIdDiffers | src/siktacka/game.cc:27-36 | A game and the next have different ids exactly when the first id is not zero |
| Registry.Connections.CleanupInactive | src/server/connections.cc:71-82 | Reports and removes exactly the clients whose time is up |
| Registry.Connections.GetClient | src/server/connections.cc:31-52 | After a sweep: found and refreshed, refused for a newer session, replaced by one, or not found |
| Registry.Connections.AddClient | src/server/connections.cc:54-59 | After a sweep the client is appended |
| Registry.Connections.GetConnectedClients | src/server/connections.cc:61-69 | After a sweep, the addresses of all that are left |
| Registry.TimedOutIff | src/server/connections.cc:71-82 | A sweep keeps a client exactly when it was heard less than 2 000 000 000 ns ago, and reports exactly the names of the others |
| Registry.LookUpIff | src/server/connections.cc:31-52 | What looking up finds and leaves, client by client: found for the same session, refused for a newer one, the client refreshed or dropped accordingly and no other affected but by the timeout |
| Registry.LookupKeeps | src/server/connections.cc:31-52 | Looking up refreshes the client it finds and keeps addresses unique; an active client keeps its session or makes room for a newer one of its address |
| Registry.LookupNames | src/server/connections.cc:31-52 | Every name that looking up drops is reported, as often as it is dropped |
| Outbox.Events.GetEvents | src/server/events.cc:9-16 | The queue is the stored events from the index on |
| Outbox.FromIsByNumber | src/server/events.cc:9-16 | In a log numbered by position, asking from k gives exactly the events numbered k or more |
| Outbox.Buffer.Pop | src/server/buffer.cc:27-34 | First in, first out, or std::out_of_range when empty |
| ServerObject.Server.CanSendMessage | src/server/server.cc:90-104 | The loop passes over messages without recipients and stops waiting for writes when nothing is left |
| ServerObject.Server.SendMessage | src/server/server.cc:106-118 | One recipient is served, unless the socket would block, when it stays first |
| Outbox.WriteTakesFirst | src/server/server.cc:90-118 | The socket gets the first pending pair or none, and the others stay in order |
| Outbox.Conserved | src/server/server.cc:90-118 | Over every run, pairs enqueued are pairs sent followed by pairs pending, in order, and no pair waits without write interest |
| ServerObject.Server.constructor | src/server/server.cc:13-28 | A new server has no clients, no log and nothing to send |
| ServerObject.Server.OnEvent | src/server/server.cc:59-80 | The event is logged, inactive clients are dropped with their players, and all others get it in a datagram of the running game |
| ServerObject.Server.OnDisconnect | src/server/server.cc:82-88 | A player leaves the game, which may start one; an observer leaves nothing behind |
| ServerObject.Server.OnAction | src/server/server.cc:120-190 | A message is refused, answered from the log, or connects its sender first |
| ServerObject.Server.OnConnect | src/server/server.cc:192-214 | Player and connection are added together or, when the name is taken, not at all |
| ServerObject.Server.CleanupInactive | src/server/server.cc:34-38 | A timeout sweeps the clients and reports them one by one |
| ServerObject.Server.Frame | src/siktacka/game.cc:196-216 | A turn of the game loop with all events handed to on_event |
| ServiceProofs.DeliverKeeps | src/server/server.cc:59-80 | Handing over a game's events logs them all and keeps players and connections coupled, unless one fits no datagram |
| ServiceProofs.OnActionKeeps | src/server/server.cc:120-214 | A message keeps the invariant of the server, and posts only events of the log of its game |
| ServiceProofs.EveryRunGood | src/server/server.cc:30-53 | Every run of messages, timeouts, frames and writes keeps the invariant of the server |
| ServiceFacts.RegistriesAgree | src/server/connections.cc:31-82 | Players are exactly the non-empty names of the clients, each held by one client, and addresses are unique |
| ServiceFacts.SessionsGrow | src/server/connections.cc:37-47 | In one turn, the session of an address that has not timed out does not get lower |
| Following.RunSessionsGrow | src/server/connections.cc:37-47 | Over a run in which an address stays connected without a timeout its session never gets lower |
| ServiceFacts.Reconnects | src/server/connections.cc:37-43 | A client that comes back with a newer session and its own name is connected anew |
| ServiceFacts.DeliverPosts | src/server/server.cc:69-79 | Every event of the game goes out once, in a letter of its own, with the id of the game, to the clients connected then |
| ServiceFacts.Recipients | src/server/connections.cc:61-69 | These are exactly the clients seen within the timeout, nobody twice |
| Turns.TimeoutIff | src/server/connections.cc:61-82 | After a message, a timeout or a frame that sends, clients heard 2 s ago or earlier are neither connected nor addressed nor players, and all others are still there unless a message replaces them |
| Turns.QuietTurn | src/server/connections.cc:61-82 | Other turns leave clients, letters and log alone |
| Turns.AdmittedIff | src/server/server.cc:120-214 | The sender of a message is registered exactly when its address has neither a newer session nor another name for this session and no other client has its name; otherwise the message does nothing but its sweep |
| Turns.TurnEndsIff | src/siktacka/game.cc:112-118 | Of all turns while a game runs exactly the frames with at most one player not eliminated in the log empty the log and end the game, and they send GAME_OVER alone to all clients connected then |
| Turns.MessageTurns | src/server/server.cc:173-190 | While a game runs, a message turns the snake of its sender, known by address, session and name, in the direction it asks for, and no other; without a snake of its sender it turns none |
| Turns.OtherTurns | src/server/server.cc:30-53 | Other turns leave the snakes as they are, but for frames |
| ServiceFacts.DownIff | src/server/server.cc:59-72 | Over every run, to be down is to have logged a NEW_GAME with more than 487 bytes of names |
| Starting.ActionDownIff | src/server/server.cc:173-190 | An action takes the server down exactly when it is idle, the action comes from the last of 2 to 255 players to get ready, and some prefix of their names takes 488 to 495 bytes |
| Starting.DisconnectDownIff | src/server/server.cc:82-88 | A departure takes the server down exactly when it is idle, 2 to 255 players remain, all ready, and some prefix of their names takes 488 to 495 bytes |
| Starting.ReceiveDownIff | src/server/server.cc:120-214 | A message takes the server down exactly when it is idle and either the first departure that its sweep reports and that starts a game leaves names too long, or none starts a game and the sender's action among the players who remain does it |
| Starting.TimeoutDownIff | src/server/server.cc:34-38 | A timeout of the poll takes the server down exactly when it is idle and the first of the departures that starts a game leaves names too long |
| Starting.TurnDownIff | src/server/server.cc:30-53 | For every turn, the condition on the state before it under which it takes the server down |
| Starting.TurnDownPosts | src/server/server.cc:59-80 | A turn that takes the server down posts nothing, and the server was idle before |
| Starting.PlayingStaysUp | src/server/server.cc:30-53 | No turn takes a server down that plays |
| Visits.VisitIff | src/server/server.cc:30-53 | When any number of clients, two at least, connect to a new server and then get ready, the last of up to 255 starts the first game or takes the server down, which the lengths of the names decide; with more nothing starts, though all are ready |
| Visits.FullHouse | src/siktacka/game.cc:95-99 | From the boot, 256 clients connect and get ready, and no game starts |
| Visits.TwoPlay | src/server/server.cc:30-53 | Two clients with one-letter names get a game |
| ServiceFacts.StartFitsIff | src/siktacka/game.cc:137-161 | NEW_GAME fits exactly when the longest prefix of names within 495 bytes is within 487 |
| Visits.EightGoDown | src/siktacka/events/event_new_game.cc:40-42 | From the boot, eight clients with names of 60 characters take the server down |
| EndToEnd.CatchUp | src/server/server.cc:142-165 | The answer to a request goes to its sender alone; a client with the first k events that gets it, serialised and parsed, holds exactly the whole log |
| EndToEnd.FrameFollowed | src/siktacka/game.cc:112-127 | A client that holds the whole log and gets the letters of a frame in order holds the whole log again; a frame never takes the server down |
| Answers.TurnShouts | src/server/server.cc:120-190 | The turn of a connected client posts every event it logs once to all clients, and then the answer |
| Answers.MessageCatchesUp | src/server/server.cc:120-190 | The letters of a turn in which a connected client asks for events from a place on that it has reached by then leave it with the whole log |
| Answers.MessageStarts | src/server/server.cc:120-190 | The letters of a turn that starts a game bring its sender to the whole log of that game, wherever it was before |
| EndToEnd.NetworkSafe | src/client/client.cc:154-193 | From any bytes that were posted for a game the client keeps a growing prefix of its log |
| EndToEnd.RunGoes | src/server/server.cc:59-80 | While one game goes on its log only grows and all letters carry its events |
| EndToEnd.SystemSafe | src/server/server.cc:59-80 | While the server plays a game to its end, a client given any selection of its datagrams holds a prefix of the server's log |
| EndToEnd.Entering | src/client/client.cc:164-167 | A client coming from another game starts the new one from its beginning |
| Chronicles.RunChronicled | src/server/server.cc:59-80 | Over any run whose games have different ids, every letter carries events of the final log of the game it names |
| Chronicles.EveryDelivery | src/client/client.cc:154-193 | Over any such run, a fresh client given any datagrams in any order delivers one log prefix after another, one for every stretch of the same game, refuses nothing, and starts a game twice only as NoRestartIff says |
| Chronicles.ShortRunFresh | src/siktacka/game.cc:27-36 | In a run that takes fewer draws than the period all games have different ids, unless the modulus divides the seed |
| Chronicles.ShortRunDelivery | src/client/client.cc:154-193 | Over every run that takes fewer draws than the period, from a seed that the modulus does not divide, a fresh client delivers as in EveryDelivery |
| Following.TurnTells | src/server/server.cc:59-80 | A turn that does not end a game posts each event it logs once to everybody who hears the turn, and then at most an answer from the log |
| Following.KeepsUp | src/client/client.cc:154-193 | Over any run with game ids that the modulus does not divide, a client that is up to date once, stays connected and gets its letters in order has, at every turn boundary, delivered every game that ended meanwhile once and whole, and holds all of the current one |

## Left out

- Sockets, address resolution, `poll`, signals and the two `main` programs. Sending either succeeds or would block, as
  a parameter says; what a read brings is a parameter; addresses are byte strings with equality.
- Threads, mutexes, sleeping and the timing of the game loop. Every message, timeout, frame and write is one atomic
  step, with one value of the clock for the whole step. The locks that a callback would take a second time on the same
  thread, when a disconnection found by `get_client` starts a game, are not modelled.
- Registry.Connections.CleanupInactive: returns the names of the inactive clients for its caller to report when they
  are removed, where the source calls the listener for each and removes them afterwards. In the source a departure that
  starts a game would therefore sweep the same clients again within the callback, and lock a mutex that is held.
- Registry.Connections.GetClient: likewise, a client replaced by a newer session is removed and then reported; the
  source reports it first, so that it would still be sent the first events of a game started by its leaving.
- Motion and the order of the draws in `make_snake`: positions are arbitrary, only the number of draws is kept. The cast
  from coordinates to pixels truncates toward zero, and nothing is claimed about geometry.
- The checksum algorithm and how many errors it detects.
- The text of the lines for the GUI, represented by one constructor for each form; command lines and options.
- `ClientMessage` and its codec: its result is taken as given, with names that are empty or pass its checks.
- The client's own sending, and the queue of lines waiting for the GUI, kept as the list of all lines ever pushed.
- ClientObject.Client.ReceiveMessage: says nothing of messages that the source reads beyond their end, those with fewer
  than four bytes left for an id or a length, or with an intact record that has no room for a number and a type. The
  parser gives them the outcome OutOfContract or Undefined.
- Messages.EventNewGame.GetData: requires names that fit the accounted length, which add_player and the parser ensure;
  other states of the object do not arise.
- GameObject.Game.PlayerAction: turning does nothing when the player's number has no snake, which the source leaves
  undefined and which the invariant excludes.
- GameObject.Game.DoFrame: stops before the callback that announces GAME_OVER, and EndGame is what follows it.
- Chronicles.EveryDelivery: takes it as given that no two games of the run have the same id, which ShortRunDelivery
  does not. A run of more draws than the period, which is at least five million games, may repeat ids.
- GameRuns.EveryRun: takes the board to be small enough that event numbers do not wrap around at 2^32.
- Sending datagrams while the process goes down: after an exception has left a noexcept function nothing more happens.
