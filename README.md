# BattlEye RCon client — a verified model

This project models the core of the BattlEye RCon client in
`src/backends/rcon.cpp`. The client connects over UDP to a game server's
remote console. It logs in with a password and queues console commands
that a host extension hands it. It sends those commands while it is logged
in, and keeps the session alive with keep-alive packets and logins sent
again. It collects replies that arrive as several fragments, and turns the
server's mission listing into a result string for every request that asked
for it.

The model has these parts:

- `bytes.dfy` (`Bytes`): octets, the text they carry, C string copies, and
  32-bit little-endian octet order.
- `checksum.dfy` (`Checksum`): the CRC-32 and the way the client turns the
  checksum into four octets (print eight hex digits, read the pairs back
  from the right).
- `codec.dfy` (`Codec`):
  - the outbound payload and frame (`'B'`, `'E'`, the checksum, then the
    payload);
  - the keep-alive frame;
  - the check a receiver makes on a frame (the server's check on what the
    client sends; the client itself never checks the magic or the checksum
    of a datagram it receives);
  - how the receive loop reads an inbound datagram at fixed offsets;
  - `extractData`.
- `responses.dfy` (`Responses`): Poco's tokenizer, the mission-listing
  parser and its result string, and the player-listing parser.
- `session.dfy` (`Session`): the client as a state machine over values,
  with the properties of connect, queueing, draining, dispatch, multi-part
  reassembly, the idle-timeout policy and the receive loop.
  - Each datagram sent is appended to `sent`.
  - Each result saved for the host is appended to `delivered`.
  - Time comes with each event, in whole seconds.
- `rcon.dfy` (`Client.Rcon`): the client object. It is a class whose
  fields are the source's fields and three more: `msgCache` is the
  multi-part cache, a local of `mainLoop` (line 435); `sent` stands for
  the socket; `delivered` stands for the host's result store. Its methods
  update these fields in place. Each method is
  proved to move `State()` exactly as the matching `Session` function says.
- `wrappers.dfy` (`Wrappers`): `Option`.

Behaviour of the source that the model keeps as it is:

- A type-1 datagram that arrives before login is ignored.
- A rejected login ends the loop at once, even with commands still queued.
- The first fragment of a multi-part reply is never checked for completion.
  So a message announced as one fragment never completes.
- The 120-second cache forgets a partly received message for good.
- A player listing is parsed and then dropped. Player requests are recorded
  but never answered.
- Receive timeouts come every 5 seconds (`src/backends/rcon.cpp:437`), and
  the 30-second keep-alive restarts the stopwatch, so the 45-second
  reconnect is never reached while timeouts keep coming. A session whose
  login the server has dropped is not logged in again while the server
  stays silent.
- The player branch of `processMessage` (`src/backends/rcon.cpp:334-335,350`)
  lacks three semicolons as written. It is modelled as if they were present.

## Model

| member | source | states |
|---|---|---|
| Checksum.ReverseCrc | src/backends/rcon.cpp:157-172 | the four octets read back from the eight-digit hex printing of the checksum are the checksum least significant first, and they join back to the checksum |
| Checksum.HexPairIsOctet | src/backends/rcon.cpp:88-103 | the i-th two-digit pair from the right of a zero-padded hex printing reads back as octet i of the value |
| Bytes.LeValueOfLeBytes | src/backends/rcon.cpp:109-112 | the four checksum octets put on the wire determine the checksum |
| Bytes.CStringOfNoNul | src/backends/rcon.cpp:544-548 | a command text without NUL survives the C string copy the packet is built from |
| Codec.FrameAccepted | src/backends/rcon.cpp:174-184 | every frame the client builds passes the magic-and-checksum check and yields its payload |
| Codec.FrameOnlyAccepted | src/backends/rcon.cpp:174-184 | a datagram that passes the check with a payload is exactly the frame the client builds for it |
| Codec.FrameParse | src/backends/rcon.cpp:174-184 | passing the check with a payload if and only if being that payload's frame |
| Codec.PayloadHeader | src/backends/rcon.cpp:122-124 | every payload starts with 0xFF and the packet code |
| Codec.PayloadRoundTrip | src/backends/rcon.cpp:122-150 | decoding a payload gives back the login password, the command's sequence octet (1 and 2 kept, anything else 0) and text, or the echoed octet |
| Codec.DecodeInboundPayload | src/backends/rcon.cpp:446-536 | a datagram whose octets from 6 on are an inbound payload is read by the loop as that frame: login status at 8, command reply whole or fragment (count at 10, index at 11, text from 12), server message |
| Codec.InboundRoundTrip | src/backends/rcon.cpp:446-536 | the frame of a well-formed inbound message is read back as that message |
| Codec.ExtractData | src/backends/rcon.cpp:189-197 | the text copied from offset pos to the end is the datagram's octets from pos, read as characters, and streams back to them; empty past the end |
| Responses.TokenizeJoin | src/backends/rcon.cpp:305 | cutting a message into lines loses nothing and no line holds a newline |
| Responses.SplitJoin | src/backends/rcon.cpp:310 | lines or tokens free of the separator are recovered by cutting their join |
| Responses.StripPbo | src/backends/rcon.cpp:369-376 | a mission name is its line less the `.pbo` suffix when the line ends in it, and the line itself otherwise |
| Responses.ParseMissions | src/backends/rcon.cpp:366-377 | one name per line after the header, in order, each the line with any `.pbo` removed |
| Responses.FormatMissions | src/backends/rcon.cpp:380-396 | the result is `[1,[]]` for no names and otherwise `[1,[` + the names joined by commas + `]]` |
| Responses.MissionsResultReadBack | src/backends/rcon.cpp:380-396 | names without commas are recovered from the result by cutting its inside at commas |
| Responses.MissionListingOneLine | src/backends/rcon.cpp:366-377 | a header plus one line gives exactly that line's mission name |
| Responses.MissionListingHeaderOnly | src/backends/rcon.cpp:381-384 | a listing with only its header gives `[1,[]]` |
| Responses.CollapseSpacesSpec | src/backends/rcon.cpp:309 | after the `std::unique` pass no two spaces are neighbours and only spaces were removed |
| Responses.CollapseSpacesRun | src/backends/rcon.cpp:309 | two neighbouring spaces anywhere in a line collapse exactly as one space does, so each run of spaces becomes one space and nothing else is merged |
| Responses.CollapseSpacesIdentity | src/backends/rcon.cpp:309 | a line without neighbouring spaces is left unchanged |
| Responses.CollapseSpacesIdempotent | src/backends/rcon.cpp:309 | collapsing twice is collapsing once |
| Responses.IpPortSplit | src/backends/rcon.cpp:333-335 | the (corrected) address and the port are the two sides of the first colon, and the address holds no colon |
| Responses.PlayerIpDropsCharacter | src/backends/rcon.cpp:334 | `substr(0, found-1)` turns `127.0.0.1:2302` into `127.0.0.`; the corrected address is `127.0.0.1` |
| Responses.Guid | src/backends/rcon.cpp:339-348 | a verified player's GUID is the token less its `(OK)` marker, and every GUID is a prefix of its token |
| Responses.GuidTrimmedByCount | src/backends/rcon.cpp:342 | with the token count in place of the token length, `guid123(OK)` on a five-token line gives `g`; the corrected GUID is `guid123` |
| Responses.ParsePlayerLineSpec | src/backends/rcon.cpp:310-350 | a line is parsed exactly when it has five or more tokens; slot and ping are tokens 0 and 2; verification is whether token 3 ends in `(OK)`; the name is the line from two characters after its first `)` (from its second character with none), and a line whose first `)` ends it is refused; address and port are the corrected readings of token 1, the two sides of its first colon (the address holding none), or both the whole token when it has no colon; the GUID is the corrected reading of token 3, a prefix of it, and for a verified player the token less `(OK)` (see Findings) |
| Responses.ParsePlayersAsWritten | src/backends/rcon.cpp:305-308 | with the unsigned bound `count()-1` the loop reads past the last line exactly when the message is empty, and otherwise parses lines 3 to count-2 in order |
| Responses.PlayerListingLines | src/backends/rcon.cpp:306 | the player lines are the listing's lines 3 to count-2, none for fewer than four lines |
| Responses.ParsePlayers | src/backends/rcon.cpp:305-359 | each line from 3 to count-2 is parsed in order, and nothing past the end is read |
| Session.RunLoopEndsStopped | src/backends/rcon.cpp:438-632 | the loop ends only with the run flag clear |
| Session.LoginPacketCarriesPassword | src/backends/rcon.cpp:213-227 | connect sends one frame, which passes the check and decodes to a login carrying the stored password |
| Session.EnqueueWhileStopped | src/backends/rcon.cpp:245-288 | adding a command or a missions or players query while not running changes nothing |
| Session.AddCommandsQueue | src/backends/rcon.cpp:245-252 | while running, plain commands queue in order behind those already queued |
| Session.QueueThenDrain | src/backends/rcon.cpp:245-252 | commands queued on an empty queue and then drained are each sent once, in order, as code-1 packets of sequence 0, and the queue ends empty |
| Session.DrainedFramesDecode | src/backends/rcon.cpp:538-555 | every frame a drain sends passes the check and decodes to the queued command's sequence octet and text |
| Session.LoginAccepted | src/backends/rcon.cpp:446-452 | a login reply of 1 logs in, drains the queue, and ends the loop exactly when the run flag is clear |
| Session.LoginRejected | src/backends/rcon.cpp:453-461 | any other login reply clears both flags and ends the loop without sending anything |
| Session.ServerMessageLogsIn | src/backends/rcon.cpp:516-522 | a server message before login sets the login flag and is not acknowledged |
| Session.ServerMessageAcknowledged | src/backends/rcon.cpp:523-535 | a server message after login is acknowledged with a code-2 packet echoing octet 8, before the queue is drained |
| Session.ResponseIgnoredWhenLoggedOut | src/backends/rcon.cpp:463 | a type-1 datagram before login changes nothing but the stopwatch |
| Session.MissionListingDelivered | src/backends/rcon.cpp:469-475 | a whole mission listing delivers its result string to every pending missions request in order and forgets them, leaving player requests alone |
| Session.ReceiveStopsExactlyWhenDone | src/backends/rcon.cpp:557-572 | after a datagram the loop ends exactly when the run flag is clear and either the queue is empty or the login was rejected |
| Session.ReceiveRestartsTimer | src/backends/rcon.cpp:444 | every datagram restarts the idle stopwatch |
| Session.FirstFragmentStarts | src/backends/rcon.cpp:485-494 | the first fragment of a sequence opens an entry with count 1 and its text, delivers nothing, and leaves other live entries alone |
| Session.LaterFragmentCounts | src/backends/rcon.cpp:495-501 | a later fragment that does not complete the message increments the count and stores its text, and nothing else changes |
| Session.LastFragmentCompletes | src/backends/rcon.cpp:502-512 | the fragment bringing the count to the total hands the fragments in index order to processMessage and removes only that entry |
| Session.ExpiredEntryLost | src/backends/rcon.cpp:435 | an entry older than 120 s is gone, and the next fragment starts over with count 1 |
| Session.SingleFragmentNeverCompletes | src/backends/rcon.cpp:485-502 | a message announced as one fragment delivers nothing |
| Session.FeedPartial | src/backends/rcon.cpp:476-514 | before the last fragment, the entry counts the fragments and holds their texts by index, and nothing is delivered |
| Session.FeedComplete | src/backends/rcon.cpp:502-511 | after all fragments of a new sequence, the message handed on is the texts in index order and the entry is gone |
| Session.PartsOfDistinct | src/backends/rcon.cpp:493-500 | fragments with distinct indices are stored each at its own index |
| Session.ArrivalOrderIrrelevant | src/backends/rcon.cpp:506-509 | reordering the arrival of fragments with distinct indices does not change the reassembled message |
| Session.TimeoutWhenStopped | src/backends/rcon.cpp:576-579 | with the run flag clear a receive timeout ends the loop and changes nothing |
| Session.TimeoutReconnects | src/backends/rcon.cpp:583-588 | after 45 idle seconds the login packet is sent again, the login flag is cleared, the stopwatch restarts and the queue is kept |
| Session.TimeoutKeepAlive | src/backends/rcon.cpp:589-599 | between 30 and 45 idle seconds exactly the stored keep-alive frame is sent, the stopwatch restarts, and nothing else changes |
| Session.TimeoutDrains | src/backends/rcon.cpp:600-619 | below 30 idle seconds a logged-in session drains the queue, and one not logged in waits |
| Session.IdleTimings | src/backends/rcon.cpp:582-599 | after connect and 31 silent seconds one keep-alive and no login goes out; after 46 the login packet goes out again |
| Session.FrequentTimeoutsNeverReconnect | src/backends/rcon.cpp:580-599 | timeouts at most 15 seconds apart, starting below 45 idle seconds, never reconnect: the flags stay as they were, and a session not logged in sends only keep-alives and keeps its queue |
| Session.TimeoutStopsOnlyWhenStopped | src/backends/rcon.cpp:576-579 | a timeout ends the loop exactly when the run flag is clear |
| Client.Rcon.constructor | src/backends/rcon.cpp:59-64 | both flags start clear, with nothing queued |
| Client.Rcon.CreateKeepAlive | src/backends/rcon.cpp:75-117 | the stored keep-alive packet is the frame of `FF 01 00 00` |
| Client.Rcon.UpdateLogin | src/backends/rcon.cpp:200-210 | builds the keep-alive frame and stores address, port and password |
| Client.Rcon.SendPacket | src/backends/rcon.cpp:120-186 | exactly one datagram is sent, the frame of the packet's payload |
| Client.Rcon.Connect | src/backends/rcon.cpp:213-227 | clears the login flag, sets the run flag, sends the login packet and starts a stopped stopwatch |
| Client.Rcon.Status | src/backends/rcon.cpp:230-233 | reports the login flag |
| Client.Rcon.AddCommand | src/backends/rcon.cpp:245-252 | queues a kind-0 command, only while running |
| Client.Rcon.GetMissions | src/backends/rcon.cpp:255-270 | records the request id and queues a kind-1 command, only while running |
| Client.Rcon.GetPlayers | src/backends/rcon.cpp:273-288 | records the request id and queues a kind-2 command, only while running |
| Client.Rcon.Disconnect | src/backends/rcon.cpp:291-294 | clears the run flag |
| Client.Rcon.SendQueued | src/backends/rcon.cpp:538-555 | sends every queued command in order and empties the queue |
| Client.Rcon.ProcessMessage | src/backends/rcon.cpp:297-424 | mission listings are delivered to each pending request and the requests cleared; other messages change nothing |
| Client.Rcon.Reassemble | src/backends/rcon.cpp:505-509 | the fragments 0 to count-1 joined in index order, a missing one counting as empty |
| Client.Rcon.HandleFragment | src/backends/rcon.cpp:476-514 | one fragment moves the state as the reassembly rules say |
| Client.Rcon.Receive | src/backends/rcon.cpp:442-573 | one datagram moves the state, and decides the loop's end, as the dispatch rules say |
| Client.Rcon.OnTimeout | src/backends/rcon.cpp:574-621 | a receive timeout moves the state as the timeout policy says |
| Client.Rcon.MainLoop | src/backends/rcon.cpp:427-634 | the loop starts logged out with an empty cache and handles events until one ends it |
| Client.Rcon.Run | src/backends/rcon.cpp:236-242 | connect, then the loop |

## Left out

- Sockets are not modelled. Each datagram sent is recorded in `sent`, and
  each received datagram, receive timeout or socket failure is an event the
  loop is given. Connecting the socket in `run` is not modelled.
- The loop is given a finite list of events. The model says what happens
  up to the end of that list or up to the event that ends the loop.
- Logging, the mutexes, the atomics, and the `RCON_APP` command-line
  program (`main`, at line 638 on) are not modelled.
- The extension's result store is modelled as the `delivered` list. The
  `RCON_APP` build, which only logs mission names, is not modelled.
- The wall clocks of Poco's stopwatch and cache are replaced by a `now` in
  whole seconds carried by each event.
- The CRC-32 is written out with the standard parameters of boost's
  `crc_32_type`. No proved property depends on which 32-bit checksum it is.
- Client.Rcon.MainLoop: requires every datagram to carry octets 7 and 8, and
  octets 10 and 11 when it is a fragment. The source reads these without a
  length check, from a buffer that may hold a previous datagram's octets.
- Session.ProcessMessage, Client.Rcon.ProcessMessage, Client.Rcon.Receive
  and Client.Rcon.MainLoop: the player branch's exception for an empty
  message is not modelled. The loop bound wraps round (line 306), Poco
  throws a range error, and the loop's handler (line 627) calls
  `disconnect`. The corrected bound is used instead (see Findings).
- Responses.PlayerName, Session.ProcessMessage, Client.Rcon.ProcessMessage,
  Client.Rcon.Receive and Client.Rcon.MainLoop: a player line whose first
  `)` is its last character gives no name, and the model goes on. The
  source throws `std::out_of_range` there (lines 349-350). The handlers at
  lines 574, 622 and 627 catch only Poco exceptions, so the exception
  leaves `mainLoop`.
- Octets are read as unsigned. Where `char` is signed, a fragment count or
  index of 128 or more becomes negative, so such a message never completes.
  The model does not capture this.
- Session.Connect, Session.TimeoutReconnects and Client.Rcon.Connect send
  the stored password every time. In the source, `connect` points the
  packet's text at the password buffer (line 219), and the first command
  sent frees that buffer (`delete []` at lines 547 and 610). A later
  reconnect (line 587) then sends freed memory. Heap memory is not
  modelled, so the model sends the password the client was given.
- Session.Drain and Client.Rcon.SendQueued: a failing send is not
  modelled. In the source, a send that throws inside the dispatch drain
  skips the queue clear (line 555), so commands already sent go out again
  later. One that throws in the timeout branch (lines 587, 596 and 605-616)
  escapes `mainLoop`. The model's socket failure covers receiving only.
- Client.Rcon.SendPacket: the packet is passed as a parameter. The source
  passes it through the object's `rcon_packet` field, and the model does not
  keep that field.

## Findings

| source | as written | input that shows it | evidently intended | confidence | as-written member | corrected member |
|---|---|---|---|---|---|---|
| src/backends/rcon.cpp:334 | `substr(0, found-1)` drops the character before the colon | `127.0.0.1:2302` gives address `127.0.0.` | `substr(0, found)`, the whole address | high (not executed) | Responses.PlayerIpAsWritten, Responses.PlayerIpDropsCharacter | Responses.PlayerIp, Responses.IpPortSplit |
| src/backends/rcon.cpp:342-347 | the GUID is cut at `player_tokens.size()-4` (or `-12`), the number of tokens on the line | `guid123(OK)` on a five-token line gives `g` | cut at the GUID token's own length, less the `(OK)` marker | high (not executed) | Responses.GuidAsWritten, Responses.GuidTrimmedByCount | Responses.Guid |
| src/backends/rcon.cpp:306 | the bound `tokens.count() - 1` is unsigned and wraps round for an empty message | an empty player listing makes the loop read line 3 of none, where Poco throws | no player lines for fewer than four lines | high (not executed) | Responses.LoopBoundAsWritten, Responses.ParsePlayersAsWritten | Responses.ParsePlayers, Responses.PlayerListingLines |
