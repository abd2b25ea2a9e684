/** The protocol engine of the client as a state machine over values
    (src/backends/rcon.cpp:200-294, 427-634): the login and run flags, the
    command queue and its request lists, the multi-part message cache, the
    idle stopwatch, and the frames sent and the results delivered so far.

    Every datagram sent is appended to `sent`; every result handed to the
    host is appended to `delivered`. Time is given with each event, in whole
    seconds. */
module Session {
  import opened Bytes
  import opened Codec
  import opened Responses
  import opened Wrappers

  /** A queued command: its kind (0 plain, 1 missions query, 2 players
      query), which goes on the wire as the command's sequence octet, and
      its text. */
  datatype PendingCommand = PendingCommand(kind: int, text: string)

  /** A partly received multi-part message: how many fragments have come,
      the text of each by fragment index, and when the entry was made. */
  datatype MultiPart = MultiPart(received: int, parts: map<int, string>, createdAt: int)

  /** Poco's stopwatch, read in whole seconds. */
  datatype Stopwatch = Stopwatch(running: bool, start: int)

  /** A result handed to the host for the request with identifier `id`. */
  datatype Delivery = Delivery(id: nat, result: string)

  /** Where to connect and the password to log in with. */
  datatype LoginCredentials = LoginCredentials(address: string, port: int, password: string)

  datatype SessionState = SessionState(
    login: LoginCredentials,
    keepAlive: seq<Byte>,
    loginFlag: bool,
    runFlag: bool,
    commands: seq<PendingCommand>,
    missionsRequests: seq<nat>,
    playersRequests: seq<nat>,
    cache: map<int, MultiPart>,
    timer: Stopwatch,
    sent: seq<seq<Byte>>,
    delivered: seq<Delivery>)

  /** What the receive loop waits for: a datagram, the five-second receive
      timeout, or a socket failure. */
  datatype Event =
    | Datagram(bytes: seq<Byte>, now: int)
    | ReceiveTimeout(now: int)
    | SocketError

  // ---------------------------------------------------------------- stopwatch

  /** Seconds since the stopwatch was (re)started; 0 before it ever ran. */
  function Elapsed(sw: Stopwatch, now: int): int
  {
    if sw.running then now - sw.start else 0
  }

  /** `start()`: starts a stopped stopwatch and leaves a running one alone. */
  function Started(sw: Stopwatch, now: int): Stopwatch
  {
    if sw.running then sw else Stopwatch(true, now)
  }

  /** `restart()`: counts again from zero. */
  function Restarted(now: int): Stopwatch
  {
    Stopwatch(true, now)
  }

  // ---------------------------------------------------------------- the cache

  /** Multi-part entries live two minutes from their creation. */
  const CacheLifetime: int := 120

  predicate Expired(e: MultiPart, now: int)
  {
    now - e.createdAt >= CacheLifetime
  }

  /** The cache holds a live entry for `key` (`ExpireCache::has`). */
  predicate Has(cache: map<int, MultiPart>, key: int, now: int)
  {
    key in cache && !Expired(cache[key], now)
  }

  /** The entries that have not expired; an `add` drops all the others. */
  function Purge(cache: map<int, MultiPart>, now: int): (live: map<int, MultiPart>)
    ensures forall k :: k in live <==> Has(cache, k, now)
    ensures forall k :: k in live ==> k in cache && live[k] == cache[k]
  {
    map k | k in cache && !Expired(cache[k], now) :: cache[k]
  }

  /** The text of fragment `i`, or nothing when it never came. */
  function PartOrEmpty(parts: map<int, string>, i: int): string
  {
    if i in parts then parts[i] else []
  }

  /** Fragments 0 to n - 1 in index order, concatenated. */
  function Assemble(parts: map<int, string>, n: int): string
    decreases n
  {
    if n <= 0 then [] else Assemble(parts, n - 1) + PartOrEmpty(parts, n - 1)
  }

  // ----------------------------------------------------------------- frames

  /** The login packet's frame. */
  function LoginFrame(password: string): seq<Byte>
  {
    Frame(Payload(Login(password)))
  }

  /** The frame a queued command is sent as. */
  function CommandFrame(c: PendingCommand): seq<Byte>
  {
    Frame(Payload(Command(c.kind, c.text)))
  }

  /** The frames of queued commands, in queue order. */
  function CommandFrames(cmds: seq<PendingCommand>): (frames: seq<seq<Byte>>)
    ensures |frames| == |cmds|
  {
    seq(|cmds|, i requires 0 <= i < |cmds| => CommandFrame(cmds[i]))
  }

  /** The frames of a queue prefix grow by one frame per command. */
  lemma CommandFramesSnoc(cmds: seq<PendingCommand>, i: nat)
    requires i < |cmds|
    ensures CommandFrames(cmds[..i + 1]) == CommandFrames(cmds[..i]) + [CommandFrame(cmds[i])]
  {
  }

  /** The acknowledgement of a server message. */
  function AckFrame(sequence: Byte): seq<Byte>
  {
    Frame(Payload(ServerAck(sequence)))
  }

  // ------------------------------------------------------------- operations

  /** `init`: both flags clear, nothing queued, nothing sent. */
  function Initial(): SessionState
  {
    SessionState(LoginCredentials([], 0, []), [], false, false, [], [], [], map[],
                 Stopwatch(false, 0), [], [])
  }

  /** `updateLogin`: build the keep-alive frame and store the credentials. */
  function UpdateLogin(s: SessionState, address: string, port: int, password: string): SessionState
  {
    s.(keepAlive := KeepAliveFrame(), login := LoginCredentials(address, port, password))
  }

  /** `connect`: clear the login flag, set the run flag, send the login
      packet and start the stopwatch. */
  function Connect(s: SessionState, now: int): SessionState
  {
    s.(loginFlag := false, runFlag := true,
       sent := s.sent + [LoginFrame(s.login.password)],
       timer := Started(s.timer, now))
  }

  /** `disconnect`: ask the loop to stop. */
  function Disconnect(s: SessionState): SessionState
  {
    s.(runFlag := false)
  }

  /** `addCommand`: queue a plain command, while running. */
  function AddCommand(s: SessionState, text: string): SessionState
  {
    if s.runFlag then s.(commands := s.commands + [PendingCommand(0, text)]) else s
  }

  /** `getMissions`: record the request and queue the query, while running. */
  function GetMissions(s: SessionState, text: string, id: nat): SessionState
  {
    if s.runFlag
    then s.(missionsRequests := s.missionsRequests + [id],
            commands := s.commands + [PendingCommand(1, text)])
    else s
  }

  /** `getPlayers`: record the request and queue the query, while running. */
  function GetPlayers(s: SessionState, text: string, id: nat): SessionState
  {
    if s.runFlag
    then s.(playersRequests := s.playersRequests + [id],
            commands := s.commands + [PendingCommand(2, text)])
    else s
  }

  /** Send every queued command in order, then clear the queue. */
  function Drain(s: SessionState): SessionState
  {
    s.(sent := s.sent + CommandFrames(s.commands), commands := [])
  }

  /** One delivery of `result` per request identifier, in request order. */
  function Deliveries(ids: seq<nat>, result: string): (ds: seq<Delivery>)
    ensures |ds| == |ids|
  {
    seq(|ids|, i requires 0 <= i < |ids| => Delivery(ids[i], result))
  }

  /** `processMessage`: a mission listing (sequence 1) is delivered to every
      pending missions request, which are then forgotten; a player listing
      (sequence 2) is parsed and dropped; anything else is only logged. */
  function ProcessMessage(s: SessionState, sequence: int, message: string): SessionState
  {
    if sequence == 1 then
      var result := MissionsResult(MissionNames(message));
      s.(delivered := s.delivered + Deliveries(s.missionsRequests, result), missionsRequests := [])
    else s
  }

  /** One fragment of a multi-part message. The first fragment of a sequence
      makes the entry with count 1 (and is never checked for completion);
      each later one increments the count and stores its text, and the one
      that brings the count to `total` hands the fragments, in index order,
      to `processMessage` and removes the entry. */
  function Fragment(s: SessionState, sequence: int, total: int, index: int, text: string, now: int): SessionState
  {
    if !Has(s.cache, sequence, now) then
      s.(cache := Purge(s.cache[sequence := MultiPart(1, map[index := text], now)], now))
    else
      var e := s.cache[sequence];
      var e' := e.(received := e.received + 1, parts := e.parts[index := text]);
      if e'.received == total
      then ProcessMessage(s.(cache := s.cache - {sequence}), sequence, Assemble(e'.parts, total))
      else s.(cache := s.cache[sequence := e'])
  }

  /** The end of a receive step: a logged-in session drains the queue and
      stops if the run flag is clear; otherwise it stops once the run flag
      is clear and the queue empty. */
  function AfterDispatch(s: SessionState): (r: (SessionState, bool))
  {
    if s.loginFlag then
      var d := Drain(s);
      (d, !d.runFlag)
    else
      (s, !s.runFlag && s.commands == [])
  }

  /** What a datagram must hold for the loop to read it: octets 7 and 8,
      and the fragment header of a multi-part reply when logged in. */
  predicate Receivable(s: SessionState, buf: seq<Byte>)
  {
    |buf| >= 9 && (s.loginFlag ==> Decodable(buf))
  }

  /** The receive branch of the loop, for one datagram: the new state and
      whether the loop ends. */
  function Receive(s: SessionState, buf: seq<Byte>, now: int): (r: (SessionState, bool))
    requires Receivable(s, buf)
  {
    var s1 := s.(timer := Restarted(now));
    if buf[7] == 0x01 && !s1.loginFlag then AfterDispatch(s1)
    else
      match Decode(buf)
      case LoginReply(success) =>
        if success then AfterDispatch(s1.(loginFlag := true))
        else (s1.(loginFlag := false, runFlag := false), true)
      case CommandReply(sequence, Whole(text)) =>
        AfterDispatch(ProcessMessage(s1, sequence, text))
      case CommandReply(sequence, Part(total, index, text)) =>
        AfterDispatch(Fragment(s1, sequence, total, index, text, now))
      case ServerMessage(sequence, _) =>
        if !s1.loginFlag then AfterDispatch(s1.(loginFlag := true))
        else AfterDispatch(s1.(sent := s1.sent + [AckFrame(sequence)]))
      case OtherType(_) => AfterDispatch(s1)
  }

  /** The timeout branch of the loop: stop when the run flag is clear;
      otherwise reconnect after 45 idle seconds, send the keep-alive after
      30, and drain the queue when logged in. */
  function Timeout(s: SessionState, now: int): (r: (SessionState, bool))
  {
    if !s.runFlag then (s, true)
    else
      var elapsed := Elapsed(s.timer, now);
      if elapsed >= 45 then (Connect(s.(timer := Restarted(now)), now), false)
      else if elapsed >= 30 then (s.(timer := Restarted(now), sent := s.sent + [s.keepAlive]), false)
      else if s.loginFlag then (Drain(s), false)
      else (s, false)
  }

  /** One iteration of the loop. A socket failure asks the loop to stop and
      carries on. */
  function Step(s: SessionState, ev: Event): (r: (SessionState, bool))
    requires ev.Datagram? ==> Receivable(s, ev.bytes)
  {
    match ev
    case Datagram(bytes, now) => Receive(s, bytes, now)
    case ReceiveTimeout(now) => Timeout(s, now)
    case SocketError => (Disconnect(s), false)
  }

  /** The state the loop starts from: not logged in, and a new, empty
      multi-part cache (the cache lives only as long as one loop). */
  function StartLoop(s: SessionState): SessionState
  {
    s.(loginFlag := false, cache := map[])
  }

  /** Every datagram of `events` can be read. */
  predicate AllDecodable(events: seq<Event>)
  {
    forall i :: 0 <= i < |events| && events[i].Datagram? ==> Decodable(events[i].bytes)
  }

  /** The loop run over `events` until it ends or the events run out: the
      final state, how many events were handled, and whether it ended. */
  function RunLoop(s: SessionState, events: seq<Event>): (r: (SessionState, nat, bool))
    requires AllDecodable(events)
    ensures r.1 <= |events|
    ensures !r.2 ==> r.1 == |events|
    decreases |events|
  {
    if events == [] then (s, 0, false)
    else
      var (s', stop) := Step(s, events[0]);
      if stop then (s', 1, true)
      else
        var (s'', n, ended) := RunLoop(s', events[1..]);
        (s'', n + 1, ended)
  }

  /** When the loop ends, the run flag is clear. */
  lemma {:induction false} RunLoopEndsStopped(s: SessionState, events: seq<Event>)
    requires AllDecodable(events)
    ensures RunLoop(s, events).2 ==> !RunLoop(s, events).0.runFlag
    decreases |events|
  {
    if events != [] {
      var (s', stop) := Step(s, events[0]);
      if stop {
        match events[0]
        case Datagram(bytes, now) => ReceiveStopsExactlyWhenDone(s, bytes, now);
        case ReceiveTimeout(now) => TimeoutStopsOnlyWhenStopped(s, now);
        case SocketError =>
      } else {
        assert AllDecodable(events[1..]) by {
          forall i | 0 <= i < |events[1..]| && events[1..][i].Datagram?
            ensures Decodable(events[1..][i].bytes)
          {
            assert events[1..][i] == events[i + 1];
          }
        }
        RunLoopEndsStopped(s', events[1..]);
      }
    }
  }

  /** The login packet `connect` sends passes the receiving check and
      decodes to a login carrying the stored password. */
  lemma LoginPacketCarriesPassword(s: SessionState, now: int)
    requires IsByteText(s.login.password) && NoNul(s.login.password)
    ensures var c := Connect(s, now);
      && |c.sent| == |s.sent| + 1
      && ParseFrame(c.sent[|s.sent|]) == Some(Payload(Login(s.login.password)))
      && DecodePayload(Payload(Login(s.login.password))) == Some(Login(s.login.password))
  {
    FrameAccepted(Payload(Login(s.login.password)));
    PayloadRoundTrip(Login(s.login.password));
  }

  // ------------------------------------------------------- the command queue

  /** Queue plain commands one after another. */
  function AddCommands(s: SessionState, texts: seq<string>): SessionState
    decreases |texts|
  {
    if texts == [] then s else AddCommands(AddCommand(s, texts[0]), texts[1..])
  }

  /** Enqueueing while the session is not running changes nothing. */
  lemma EnqueueWhileStopped(s: SessionState, text: string, id: nat)
    requires !s.runFlag
    ensures AddCommand(s, text) == s
    ensures GetMissions(s, text, id) == s
    ensures GetPlayers(s, text, id) == s
  {
  }

  /** While running, plain commands queue in order behind what is there. */
  lemma {:induction false} AddCommandsQueue(s: SessionState, texts: seq<string>)
    requires s.runFlag
    ensures AddCommands(s, texts) ==
      s.(commands := s.commands + seq(|texts|, i requires 0 <= i < |texts| => PendingCommand(0, texts[i])))
    decreases |texts|
  {
    var q := seq(|texts|, i requires 0 <= i < |texts| => PendingCommand(0, texts[i]));
    if texts != [] {
      var s1 := AddCommand(s, texts[0]);
      AddCommandsQueue(s1, texts[1..]);
      var q1 := seq(|texts| - 1, i requires 0 <= i < |texts| - 1 => PendingCommand(0, texts[1..][i]));
      assert [PendingCommand(0, texts[0])] + q1 == q;
      assert s1.commands + q1 == s.commands + q;
    } else {
      assert s.commands + q == s.commands;
    }
  }

  /** Queueing commands on an empty queue and draining sends each of them
      once, in the order queued, as a code-1 packet of sequence 0, and
      leaves the queue empty. */
  lemma QueueThenDrain(s: SessionState, texts: seq<string>)
    requires s.runFlag && s.commands == []
    ensures var d := Drain(AddCommands(s, texts));
      && d.commands == []
      && |d.sent| == |s.sent| + |texts|
      && d.sent[..|s.sent|] == s.sent
      && forall i :: 0 <= i < |texts| ==> d.sent[|s.sent| + i] == Frame(Payload(Command(0, texts[i])))
  {
    AddCommandsQueue(s, texts);
    var q := seq(|texts|, i requires 0 <= i < |texts| => PendingCommand(0, texts[i]));
    var d := Drain(AddCommands(s, texts));
    assert AddCommands(s, texts).commands == q;
    assert d.sent == s.sent + CommandFrames(q);
    forall i | 0 <= i < |texts| ensures d.sent[|s.sent| + i] == Frame(Payload(Command(0, texts[i]))) {
      assert d.sent[|s.sent| + i] == CommandFrames(q)[i] == CommandFrame(q[i]);
    }
  }

  /** Each frame a drain sends carries the checksum of its payload and
      decodes to the queued command: its kind as the sequence octet (1 and
      2 as they are, anything else as 0) and its text. */
  lemma DrainedFramesDecode(s: SessionState, i: nat)
    requires i < |s.commands| && IsByteText(s.commands[i].text) && NoNul(s.commands[i].text)
    ensures var c, frame := s.commands[i], Drain(s).sent[|s.sent| + i];
      && ParseFrame(frame) == Some(Payload(Command(c.kind, c.text)))
      && DecodePayload(Payload(Command(c.kind, c.text))) == Some(Command(SequenceByte(c.kind), c.text))
  {
    var c := s.commands[i];
    FrameAccepted(Payload(Command(c.kind, c.text)));
    PayloadRoundTrip(Command(c.kind, c.text));
  }

  // ------------------------------------------------------ inbound dispatch

  /** A login reply of 1 logs the session in; the queue is then drained,
      and the loop ends if the run flag is clear. */
  lemma LoginAccepted(s: SessionState, buf: seq<Byte>, now: int)
    requires Receivable(s, buf) && buf[7] == 0x00 && buf[8] == 0x01
    ensures var (r, stop) := Receive(s, buf, now);
      && r.loginFlag && r.runFlag == s.runFlag
      && r.commands == [] && r.sent == s.sent + CommandFrames(s.commands)
      && (stop <==> !s.runFlag)
  {
  }

  /** Any other login reply clears both flags and ends the loop at once,
      without draining the queue. */
  lemma LoginRejected(s: SessionState, buf: seq<Byte>, now: int)
    requires Receivable(s, buf) && buf[7] == 0x00 && buf[8] != 0x01
    ensures var (r, stop) := Receive(s, buf, now);
      && !r.loginFlag && !r.runFlag && stop
      && r.commands == s.commands && r.sent == s.sent
  {
  }

  /** A server message to a session that is not logged in marks it logged
      in and is not acknowledged. */
  lemma ServerMessageLogsIn(s: SessionState, buf: seq<Byte>, now: int)
    requires Receivable(s, buf) && buf[7] == 0x02 && !s.loginFlag
    ensures var (r, stop) := Receive(s, buf, now);
      r.loginFlag && r.sent == s.sent + CommandFrames(s.commands) && r.commands == []
  {
  }

  /** A server message to a logged-in session is acknowledged with a code-2
      packet echoing octet 8, before the queue is drained. */
  lemma ServerMessageAcknowledged(s: SessionState, buf: seq<Byte>, now: int)
    requires Receivable(s, buf) && buf[7] == 0x02 && s.loginFlag
    ensures var (r, stop) := Receive(s, buf, now);
      && r.loginFlag
      && r.sent == s.sent + [Frame([0xFF, 0x02, buf[8]])] + CommandFrames(s.commands)
      && r.commands == []
  {
    assert Payload(ServerAck(buf[8])) == [0xFF, 0x02, buf[8]];
  }

  /** A type-1 datagram is ignored by a session that is not logged in: only
      the stopwatch restarts, and the loop ends if the run flag is clear and
      the queue empty. */
  lemma ResponseIgnoredWhenLoggedOut(s: SessionState, buf: seq<Byte>, now: int)
    requires Receivable(s, buf) && buf[7] == 0x01 && !s.loginFlag
    ensures Receive(s, buf, now) == (s.(timer := Restarted(now)), !s.runFlag && s.commands == [])
  {
  }

  /** A whole mission listing delivers its result to every pending missions
      request, in order, and forgets them. */
  lemma MissionListingDelivered(s: SessionState, buf: seq<Byte>, now: int)
    requires Receivable(s, buf) && s.loginFlag
    requires buf[7] == 0x01 && buf[8] == 0x01 && !IsFragment(buf)
    ensures var (r, stop) := Receive(s, buf, now);
      var result := MissionsResult(MissionNames(BytesText(buf[9..])));
      && r.delivered == s.delivered + Deliveries(s.missionsRequests, result)
      && r.missionsRequests == []
      && r.playersRequests == s.playersRequests
  {
  }

  /** The loop ends after a datagram exactly when, once the datagram is
      handled, the run flag is clear and either the queue is empty or the
      datagram was a rejected login. */
  lemma ReceiveStopsExactlyWhenDone(s: SessionState, buf: seq<Byte>, now: int)
    requires Receivable(s, buf)
    ensures var (r, stop) := Receive(s, buf, now);
      stop <==> !r.runFlag && (r.commands == [] || (buf[7] == 0x00 && buf[8] != 0x01))
  {
  }

  /** Every datagram restarts the stopwatch. */
  lemma ReceiveRestartsTimer(s: SessionState, buf: seq<Byte>, now: int)
    requires Receivable(s, buf)
    ensures Elapsed(Receive(s, buf, now).0.timer, now) == 0
  {
  }

  // ---------------------------------------------------------- reassembly

  /** The first fragment of a sequence (no live entry) makes an entry with
      count 1 holding its text at its index and delivers nothing, however
      many fragments the message has; other live entries stay as they were. */
  lemma FirstFragmentStarts(s: SessionState, sequence: int, total: int, index: int, text: string, now: int)
    requires !Has(s.cache, sequence, now)
    ensures var r := Fragment(s, sequence, total, index, text, now);
      && Has(r.cache, sequence, now)
      && r.cache[sequence] == MultiPart(1, map[index := text], now)
      && r.delivered == s.delivered && r.missionsRequests == s.missionsRequests
      && (forall k :: k != sequence ==> (Has(r.cache, k, now) <==> Has(s.cache, k, now)))
      && (forall k :: k != sequence && Has(s.cache, k, now) ==> r.cache[k] == s.cache[k])
  {
  }

  /** A later fragment that does not complete the message counts itself and
      stores its text; nothing else changes. */
  lemma LaterFragmentCounts(s: SessionState, sequence: int, total: int, index: int, text: string, now: int)
    requires Has(s.cache, sequence, now)
    requires s.cache[sequence].received + 1 != total
    ensures var r, e := Fragment(s, sequence, total, index, text, now), s.cache[sequence];
      r == s.(cache := s.cache[sequence := MultiPart(e.received + 1, e.parts[index := text], e.createdAt)])
  {
  }

  /** The fragment that brings the count to `total` hands the fragments in
      index order to `processMessage` and removes the entry; no other entry
      changes. */
  lemma LastFragmentCompletes(s: SessionState, sequence: int, total: int, index: int, text: string, now: int)
    requires Has(s.cache, sequence, now)
    requires s.cache[sequence].received + 1 == total
    ensures var r, parts := Fragment(s, sequence, total, index, text, now), s.cache[sequence].parts[index := text];
      && sequence !in r.cache
      && (forall k :: k != sequence ==> (k in r.cache <==> k in s.cache))
      && (forall k :: k != sequence && k in s.cache ==> r.cache[k] == s.cache[k])
      && r.delivered == ProcessMessage(s, sequence, Assemble(parts, total)).delivered
  {
  }

  /** An entry older than two minutes is gone: the next fragment of that
      sequence starts a new entry and the earlier fragments are lost. */
  lemma ExpiredEntryLost(s: SessionState, sequence: int, total: int, index: int, text: string, now: int)
    requires sequence in s.cache && now - s.cache[sequence].createdAt >= CacheLifetime
    ensures Fragment(s, sequence, total, index, text, now).cache[sequence] == MultiPart(1, map[index := text], now)
  {
  }

  /** A message announced as one fragment never completes: its fragment
      opens the entry, and every later fragment makes the count at least 2. */
  lemma SingleFragmentNeverCompletes(s: SessionState, sequence: int, index: int, text: string, now: int)
    requires !Has(s.cache, sequence, now) || s.cache[sequence].received >= 1
    ensures var r := Fragment(s, sequence, 1, index, text, now);
      r.delivered == s.delivered && Has(r.cache, sequence, now) && r.cache[sequence].received >= 1
  {
  }

  /** One received fragment: its index and its text. */
  datatype FragmentIn = FragmentIn(index: int, text: string)

  /** The fragments fed one after another, all at time `now`. */
  function Feed(s: SessionState, sequence: int, total: int, frags: seq<FragmentIn>, now: int): SessionState
    decreases |frags|
  {
    if frags == [] then s
    else
      var last := frags[|frags| - 1];
      Fragment(Feed(s, sequence, total, frags[..|frags| - 1], now), sequence, total, last.index, last.text, now)
  }

  /** The index-to-text map of fragments, later arrivals winning. */
  function PartsOf(frags: seq<FragmentIn>): map<int, string>
    decreases |frags|
  {
    if frags == [] then map[]
    else PartsOf(frags[..|frags| - 1])[frags[|frags| - 1].index := frags[|frags| - 1].text]
  }

  /** Before the last fragment arrives, the entry counts the fragments
      received and holds their texts by index; nothing is delivered. */
  lemma {:induction false} FeedPartial(s: SessionState, sequence: int, total: int, frags: seq<FragmentIn>, now: int)
    requires !Has(s.cache, sequence, now)
    requires 1 <= |frags| < total
    ensures var r := Feed(s, sequence, total, frags, now);
      && Has(r.cache, sequence, now)
      && r.cache[sequence] == MultiPart(|frags|, PartsOf(frags), now)
      && r.delivered == s.delivered && r.missionsRequests == s.missionsRequests
    decreases |frags|
  {
    var front := frags[..|frags| - 1];
    if |frags| > 1 {
      FeedPartial(s, sequence, total, front, now);
      assert front[..|front| - 1] == frags[..|frags| - 2];
    } else {
      assert front == [];
    }
  }

  /** When `total` (at least two) fragments of a new sequence have come,
      the message handed on is the fragments' texts in index order and the
      entry is gone. */
  lemma FeedComplete(s: SessionState, sequence: int, total: int, frags: seq<FragmentIn>, now: int)
    requires !Has(s.cache, sequence, now)
    requires total >= 2 && |frags| == total
    ensures var r := Feed(s, sequence, total, frags, now);
      && sequence !in r.cache
      && r.delivered == ProcessMessage(s, sequence, Assemble(PartsOf(frags), total)).delivered
      && r.missionsRequests == ProcessMessage(s, sequence, Assemble(PartsOf(frags), total)).missionsRequests
  {
    var front := frags[..|frags| - 1];
    FeedPartial(s, sequence, total, front, now);
  }

  /** The parts map of fragments with distinct indices holds each
      fragment's text at its index, and nothing else. */
  lemma {:induction false} PartsOfDistinct(frags: seq<FragmentIn>)
    requires forall i, j :: 0 <= i < j < |frags| ==> frags[i].index != frags[j].index
    ensures forall k :: k in PartsOf(frags) <==> exists i :: 0 <= i < |frags| && frags[i].index == k
    ensures forall i :: 0 <= i < |frags| ==> PartsOf(frags)[frags[i].index] == frags[i].text
    decreases |frags|
  {
    if frags != [] {
      var front := frags[..|frags| - 1];
      PartsOfDistinct(front);
      forall k ensures k in PartsOf(frags) <==> exists i :: 0 <= i < |frags| && frags[i].index == k {
        if k in PartsOf(frags) && k != frags[|frags| - 1].index {
          var i :| 0 <= i < |front| && front[i].index == k;
          assert frags[i].index == k;
        }
        if exists i :: 0 <= i < |frags| && frags[i].index == k {
          var i :| 0 <= i < |frags| && frags[i].index == k;
          if i < |front| {
            assert front[i].index == k;
          }
        }
      }
    }
  }

  /** The message does not depend on the order fragments arrive in: any
      reordering of fragments with distinct indices gives the same parts,
      so the same reassembled text. */
  lemma ArrivalOrderIrrelevant(frags: seq<FragmentIn>, reordered: seq<FragmentIn>, total: int)
    requires forall i, j :: 0 <= i < j < |frags| ==> frags[i].index != frags[j].index
    requires multiset(reordered) == multiset(frags)
    ensures Assemble(PartsOf(reordered), total) == Assemble(PartsOf(frags), total)
  {
    forall i, j | 0 <= i < j < |reordered| ensures reordered[i].index != reordered[j].index {
      assert reordered[i] in multiset(frags) && reordered[j] in multiset(frags);
      var a :| 0 <= a < |frags| && frags[a] == reordered[i];
      var b :| 0 <= b < |frags| && frags[b] == reordered[j];
      if reordered[i].index == reordered[j].index {
        assert a == b;
        assert multiset(reordered)[reordered[i]] >= 2 by {
          assert multiset(reordered) == multiset(reordered[..i]) + multiset([reordered[i]])
            + multiset(reordered[i + 1..j]) + multiset([reordered[j]]) + multiset(reordered[j + 1..]) by {
            assert reordered == reordered[..i] + [reordered[i]] + reordered[i + 1..j] + [reordered[j]] + reordered[j + 1..];
          }
        }
        MultisetOfDistinct(frags, frags[a]);
        assert false;
      }
    }
    PartsOfDistinct(frags);
    PartsOfDistinct(reordered);
    var p, q := PartsOf(frags), PartsOf(reordered);
    forall k ensures k in p <==> k in q {
      if k in p {
        var i :| 0 <= i < |frags| && frags[i].index == k;
        assert frags[i] in multiset(reordered);
        var j :| 0 <= j < |reordered| && reordered[j] == frags[i];
      }
      if k in q {
        var j :| 0 <= j < |reordered| && reordered[j].index == k;
        assert reordered[j] in multiset(frags);
        var i :| 0 <= i < |frags| && frags[i] == reordered[j];
      }
    }
    forall k | k in p ensures p[k] == q[k] {
      var i :| 0 <= i < |frags| && frags[i].index == k;
      assert frags[i] in multiset(reordered);
      var j :| 0 <= j < |reordered| && reordered[j] == frags[i];
    }
    assert p == q;
  }

  /** In fragments with distinct indices every fragment occurs once. */
  lemma MultisetOfDistinct(frags: seq<FragmentIn>, f: FragmentIn)
    requires forall i, j :: 0 <= i < j < |frags| ==> frags[i].index != frags[j].index
    ensures multiset(frags)[f] <= 1
  {
    if frags != [] {
      var front := frags[..|frags| - 1];
      MultisetOfDistinct(front, f);
      assert frags == front + [frags[|frags| - 1]];
      if f == frags[|frags| - 1] {
        assert forall i :: 0 <= i < |front| ==> front[i].index != f.index;
      }
    }
  }

  // ----------------------------------------------------------- timeouts

  /** With the run flag clear, a receive timeout ends the loop and changes
      nothing. */
  lemma TimeoutWhenStopped(s: SessionState, now: int)
    requires !s.runFlag
    ensures Timeout(s, now) == (s, true)
  {
  }

  /** After 45 idle seconds the session reconnects: the login packet is sent
      again, the login flag cleared, the stopwatch restarted, and the queue
      kept. */
  lemma TimeoutReconnects(s: SessionState, now: int)
    requires s.runFlag && Elapsed(s.timer, now) >= 45
    ensures var (r, stop) := Timeout(s, now);
      && !stop && r.runFlag && !r.loginFlag
      && r.sent == s.sent + [LoginFrame(s.login.password)]
      && r.commands == s.commands
      && Elapsed(r.timer, now) == 0
  {
  }

  /** Between 30 and 45 idle seconds exactly the keep-alive frame is sent and
      the stopwatch restarted; the session does not log in again. */
  lemma TimeoutKeepAlive(s: SessionState, now: int)
    requires s.runFlag && 30 <= Elapsed(s.timer, now) < 45
    ensures var (r, stop) := Timeout(s, now);
      && !stop
      && r == s.(timer := Restarted(now), sent := s.sent + [s.keepAlive])
  {
  }

  /** Below 30 idle seconds a logged-in session drains its queue, and one
      that is not logged in waits. */
  lemma TimeoutDrains(s: SessionState, now: int)
    requires s.runFlag && Elapsed(s.timer, now) < 30
    ensures Timeout(s, now) == (if s.loginFlag then (Drain(s), false) else (s, false))
  {
  }

  /** Idle timings: after `updateLogin` and `connect` at time t0 and
      silence, a timeout at t0 + 31 sends one keep-alive and no login
      packet, and one at t0 + 46 sends the login packet again. */
  lemma IdleTimings(s0: SessionState, address: string, port: int, password: string, t0: int)
    requires !s0.timer.running
    ensures var s := Connect(UpdateLogin(s0, address, port, password), t0);
      && Timeout(s, t0 + 31).0.sent == s.sent + [KeepAliveFrame()]
      && Timeout(s, t0 + 46).0.sent == s.sent + [LoginFrame(password)]
  {
  }

  /** Receive timeouts at the given times, one after another, with no
      datagram in between. */
  function Timeouts(s: SessionState, times: seq<int>): SessionState
    decreases |times|
  {
    if times == [] then s else Timeouts(Timeout(s, times[0]).0, times[1..])
  }

  /** Timeouts that come at most 15 seconds apart never reach the 45-second
      reconnect: each one that reaches 30 seconds sends a keep-alive and
      restarts the stopwatch first. So a running session that has lost its
      login while the server is silent keeps its flags, sends only
      keep-alives, and is never logged in again. */
  lemma {:induction false} FrequentTimeoutsNeverReconnect(s: SessionState, times: seq<int>)
    requires s.runFlag
    requires |times| >= 1 ==> Elapsed(s.timer, times[0]) < 45
    requires forall i :: 0 < i < |times| ==> times[i - 1] <= times[i] <= times[i - 1] + 15
    ensures var r := Timeouts(s, times);
      && r.runFlag && r.loginFlag == s.loginFlag
      && |r.sent| >= |s.sent| && r.sent[..|s.sent|] == s.sent
      && (!s.loginFlag ==>
            r.commands == s.commands
            && forall j :: |s.sent| <= j < |r.sent| ==> r.sent[j] == s.keepAlive)
    decreases |times|
  {
    if times != [] {
      var s1 := Timeout(s, times[0]).0;
      assert Elapsed(s1.timer, times[0]) < 30;
      if |times| > 1 {
        assert times[0] <= times[1] <= times[0] + 15;
      }
      FrequentTimeoutsNeverReconnect(s1, times[1..]);
      var r := Timeouts(s1, times[1..]);
      assert r.sent[..|s1.sent|] == s1.sent;
      assert r.sent[..|s.sent|] == s1.sent[..|s.sent|];
    }
  }

  /** A timeout ends the loop exactly when the run flag is clear. */
  lemma TimeoutStopsOnlyWhenStopped(s: SessionState, now: int)
    ensures Timeout(s, now).1 <==> !s.runFlag
  {
  }
}
