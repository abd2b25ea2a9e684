/** The client object (src/backends/rcon.cpp:59-634): its flags, its command
    queue and request lists, the keep-alive frame, the stopwatch, and the
    receive loop, as a class whose methods update those fields in place.

    Each method is proved to take the object from `old(State())` to the state
    the matching function of `Session` gives, so every property proved there
    holds of the object. The socket is replaced by the `sent` field, to which
    each datagram is appended, and the extension's result store by the
    `delivered` field. */
module Client {
  import opened Bytes
  import opened Checksum
  import opened Codec
  import opened Responses
  import opened Session

  class Rcon {
    var login: LoginCredentials
    var keepAlivePacket: seq<Byte>
    var loginFlag: bool
    var runFlag: bool
    var commands: seq<PendingCommand>
    var missionsRequests: seq<nat>
    var playersRequests: seq<nat>
    var msgCache: map<int, MultiPart>
    var timer: Stopwatch
    var sent: seq<seq<Byte>>
    var delivered: seq<Delivery>

    /** The object's state as a value. */
    function State(): SessionState
      reads this
    {
      SessionState(login, keepAlivePacket, loginFlag, runFlag, commands,
                   missionsRequests, playersRequests, msgCache, timer, sent, delivered)
    }

    /** `init`: both flags clear. */
    constructor ()
      ensures State() == Initial()
    {
      login := LoginCredentials([], 0, []);
      keepAlivePacket := [];
      loginFlag, runFlag := false, false;
      commands, missionsRequests, playersRequests := [], [], [];
      msgCache := map[];
      timer := Stopwatch(false, 0);
      sent, delivered := [], [];
    }

    /** `createKeepAlive`: checksum the fixed keep-alive payload and keep its
        frame. */
    method CreateKeepAlive()
      modifies this
      ensures State() == old(State()).(keepAlive := KeepAliveFrame())
    {
      var cmd: seq<Byte> := [0xFF, 0x01, 0x00, 0x00];
      var crcVal := Crc32(cmd);
      var reversedCrc := ReverseCrc(crcVal);
      keepAlivePacket := Magic + reversedCrc + cmd;
    }

    /** `updateLogin`: build the keep-alive frame and store the credentials. */
    method UpdateLogin(address: string, port: int, password: string)
      modifies this
      ensures State() == Session.UpdateLogin(old(State()), address, port, password)
    {
      CreateKeepAlive();
      login := LoginCredentials(address, port, password);
    }

    /** `sendPacket`: build the payload of `packet`, prefix it with the magic
        and the checksum octets, and send it. */
    method SendPacket(packet: OutboundPacket)
      modifies this
      ensures State() == old(State()).(sent := old(sent) + [Frame(Payload(packet))])
    {
      var cmd: seq<Byte> := [0xFF, PacketCode(packet)];
      match packet {
        case Command(sequenceNum, text) =>
          cmd := cmd + [SequenceByte(sequenceNum)] + TextBytes(CString(text));
        case ServerAck(echo) =>
          cmd := cmd + [echo];
        case Login(password) =>
          cmd := cmd + TextBytes(CString(password));
      }
      assert cmd == Payload(packet);
      var crcVal := Crc32(cmd);
      var reversedCrc := ReverseCrc(crcVal);
      sent := sent + [Magic + reversedCrc + cmd];
    }

    /** `connect`: clear the login flag, set the run flag, send the login
        packet and start the stopwatch (a running one is left alone). */
    method Connect(now: int)
      modifies this
      ensures State() == Session.Connect(old(State()), now)
    {
      loginFlag := false;
      runFlag := true;
      SendPacket(Login(login.password));
      if !timer.running {
        timer := Stopwatch(true, now);
      }
    }

    /** `status`: whether the session is logged in. */
    method Status() returns (loggedIn: bool)
      ensures loggedIn == State().loginFlag
    {
      loggedIn := loginFlag;
    }

    /** `addCommand`: queue a plain command while running. */
    method AddCommand(command: string)
      modifies this
      ensures State() == Session.AddCommand(old(State()), command)
    {
      if runFlag {
        commands := commands + [PendingCommand(0, command)];
      }
    }

    /** `getMissions`: record the request and queue the query while running. */
    method GetMissions(command: string, uniqueId: nat)
      modifies this
      ensures State() == Session.GetMissions(old(State()), command, uniqueId)
    {
      if runFlag {
        missionsRequests := missionsRequests + [uniqueId];
        commands := commands + [PendingCommand(1, command)];
      }
    }

    /** `getPlayers`: record the request and queue the query while running. */
    method GetPlayers(command: string, uniqueId: nat)
      modifies this
      ensures State() == Session.GetPlayers(old(State()), command, uniqueId)
    {
      if runFlag {
        playersRequests := playersRequests + [uniqueId];
        commands := commands + [PendingCommand(2, command)];
      }
    }

    /** `disconnect`: ask the loop to stop. */
    method Disconnect()
      modifies this
      ensures State() == Session.Disconnect(old(State()))
    {
      runFlag := false;
    }

    /** Send every queued command as a code-1 packet, in order, then clear
        the queue (the two command loops of `mainLoop`). */
    method SendQueued()
      modifies this
      ensures State() == Drain(old(State()))
    {
      var queue := commands;
      var i := 0;
      while i < |queue|
        invariant 0 <= i <= |queue|
        invariant State() == old(State()).(sent := old(sent) + CommandFrames(queue[..i]))
      {
        CommandFramesSnoc(queue, i);
        SendPacket(Command(queue[i].kind, queue[i].text));
        i := i + 1;
      }
      assert queue[..i] == queue;
      commands := [];
    }

    /** `processMessage`: a mission listing is parsed, formatted and saved
        for every pending missions request, which are then forgotten; a player
        listing is parsed and the records dropped; anything else is only
        logged. */
    method ProcessMessage(sequenceNum: int, message: string)
      modifies this
      ensures State() == Session.ProcessMessage(old(State()), sequenceNum, message)
    {
      if sequenceNum == 2 {
        var players := ParsePlayers(message);
      } else if sequenceNum == 1 {
        var infoVector := ParseMissions(message);
        var result := FormatMissions(infoVector);
        var ids := missionsRequests;
        var saved := delivered;
        var i := 0;
        while i < |ids|
          invariant 0 <= i <= |ids|
          invariant saved == delivered + Deliveries(ids[..i], result)
        {
          assert Deliveries(ids[..i + 1], result) == Deliveries(ids[..i], result) + [Delivery(ids[i], result)];
          saved := saved + [Delivery(ids[i], result)];
          i := i + 1;
        }
        assert ids[..i] == ids;
        delivered := saved;
        missionsRequests := [];
      }
    }

    /** The fragments of a complete multi-part message joined in index
        order; a fragment that never came counts as empty. */
    method Reassemble(parts: map<int, string>, numPackets: int) returns (result: string)
      ensures result == Assemble(parts, numPackets)
    {
      result := [];
      var i := 0;
      while i < numPackets
        invariant numPackets > 0 ==> 0 <= i <= numPackets
        invariant numPackets <= 0 ==> i == 0
        invariant result == Assemble(parts, i)
      {
        result := result + PartOrEmpty(parts, i);
        i := i + 1;
      }
    }

    /** One fragment of a multi-part command reply: open the entry, or
        count the fragment and store its text, and on the last one hand the
        whole message on and drop the entry. */
    method HandleFragment(sequenceNum: int, numPackets: int, packetNum: int, partialMsg: string, now: int)
      modifies this
      ensures State() == Fragment(old(State()), sequenceNum, numPackets, packetNum, partialMsg, now)
    {
      if !Has(msgCache, sequenceNum, now) {
        msgCache := Purge(msgCache[sequenceNum := MultiPart(1, map[packetNum := partialMsg], now)], now);
      } else {
        var elem := msgCache[sequenceNum];
        elem := elem.(received := elem.received + 1, parts := elem.parts[packetNum := partialMsg]);
        if elem.received == numPackets {
          var result := Reassemble(elem.parts, numPackets);
          msgCache := msgCache - {sequenceNum};
          ProcessMessage(sequenceNum, result);
        } else {
          msgCache := msgCache[sequenceNum := elem];
        }
      }
    }

    /** The receive branch of `mainLoop` for one datagram; `stop` says
        whether the loop ends. */
    method Receive(buffer: seq<Byte>, now: int) returns (stop: bool)
      requires Receivable(State(), buffer)
      modifies this
      ensures (State(), stop) == Session.Receive(old(State()), buffer, now)
    {
      timer := Restarted(now);
      if buffer[7] == 0x00 {
        if buffer[8] == 0x01 {
          loginFlag := true;
        } else {
          loginFlag := false;
          Disconnect();
          return true;
        }
      } else if buffer[7] == 0x01 && loginFlag {
        var sequenceNum := buffer[8];
        if !(|buffer| > 9 && buffer[9] == 0x00) {
          var result := ExtractData(buffer, 9);
          ProcessMessage(sequenceNum, result);
        } else {
          var numPackets, packetNum := buffer[10], buffer[11];
          var partialMsg := ExtractData(buffer, 12);
          HandleFragment(sequenceNum, numPackets, packetNum, partialMsg, now);
        }
      } else if buffer[7] == 0x02 {
        if !loginFlag {
          loginFlag := true;
        } else {
          SendPacket(ServerAck(buffer[8]));
        }
      }
      if loginFlag {
        SendQueued();
        stop := !runFlag;
      } else {
        stop := !runFlag && commands == [];
      }
    }

    /** The receive-timeout branch of `mainLoop`. */
    method OnTimeout(now: int) returns (stop: bool)
      modifies this
      ensures (State(), stop) == Timeout(old(State()), now)
    {
      if !runFlag {
        return true;
      }
      var elapsedSeconds := Elapsed(timer, now);
      if elapsedSeconds >= 45 {
        timer := Restarted(now);
        Connect(now);
      } else if elapsedSeconds >= 30 {
        timer := Restarted(now);
        sent := sent + [keepAlivePacket];
      } else if loginFlag {
        SendQueued();
      }
      stop := false;
    }

    /** `mainLoop`, over the events it meets: handle each in turn until one
        ends the loop. Gives how many events were handled and whether the
        loop ended. */
    method MainLoop(events: seq<Event>) returns (handled: nat, ended: bool)
      requires AllDecodable(events)
      modifies this
      ensures (State(), handled, ended) == RunLoop(StartLoop(old(State())), events)
    {
      loginFlag := false;
      msgCache := map[];
      ghost var start := State();
      var i := 0;
      while i < |events|
        invariant 0 <= i <= |events|
        invariant AllDecodable(events[i..])
        invariant RunLoop(start, events) ==
          (RunLoop(State(), events[i..]).0, RunLoop(State(), events[i..]).1 + i, RunLoop(State(), events[i..]).2)
      {
        ghost var before := State();
        assert events[i..][0] == events[i] && events[i..][1..] == events[i + 1..];
        var stop;
        match events[i] {
          case Datagram(bytes, now) =>
            assert Decodable(events[i..][0].bytes);
            stop := Receive(bytes, now);
          case ReceiveTimeout(now) =>
            stop := OnTimeout(now);
          case SocketError =>
            Disconnect();
            stop := false;
        }
        assert (State(), stop) == Step(before, events[i]);
        i := i + 1;
        if stop {
          return i, true;
        }
      }
      assert events[i..] == [];
      return i, false;
    }

    /** `run`: connect, then run the loop. */
    method Run(now: int, events: seq<Event>) returns (handled: nat, ended: bool)
      requires AllDecodable(events)
      modifies this
      ensures (State(), handled, ended) == RunLoop(StartLoop(Session.Connect(old(State()), now)), events)
    {
      Connect(now);
      handled, ended := MainLoop(events);
    }
  }
}
