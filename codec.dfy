/** Frame encoding and decoding of the BattlEye RCon protocol, as the client
    does it (src/backends/rcon.cpp:75-197, 446-536).

    An outbound frame is the magic `'B','E'`, the four checksum octets least
    significant first, and the payload; the payload is `0xFF`, the packet code
    and a code-specific body. An inbound frame is read at fixed offsets: the
    type at 7, a sequence or status octet at 8, and from 9 on the body. */
module Codec {
  import opened Bytes
  import opened Checksum
  import opened Wrappers

  /** What the client puts into its outgoing packet record before sending
      it: a login (code 0), a command (code 1) or the acknowledgement of a
      server message (code 2). */
  datatype OutboundPacket =
    | Login(password: string)
    | Command(sequenceNum: int, cmd: string)
    | ServerAck(echo: Byte)

  /** The packet code written after the `0xFF` marker. */
  function PacketCode(p: OutboundPacket): Byte
  {
    match p
    case Login(_) => 0x00
    case Command(_, _) => 0x01
    case ServerAck(_) => 0x02
  }

  /** The sequence octet of a command packet: 1 and 2 go on the wire as
      they are, anything else as 0. */
  function SequenceByte(n: int): Byte
  {
    if n == 2 then 2 else if n == 1 then 1 else 0
  }

  /** The checksummed part of a packet. The password and the command text
      are held as C strings, so only what precedes a NUL goes out. */
  function Payload(p: OutboundPacket): seq<Byte>
  {
    [0xFF, PacketCode(p)] +
      match p
      case Login(password) => TextBytes(CString(password))
      case Command(n, cmd) => [SequenceByte(n)] + TextBytes(CString(cmd))
      case ServerAck(echo) => [echo]
  }

  /** The two octets every frame starts with, `'B'` and `'E'`. */
  const Magic: seq<Byte> := [0x42, 0x45]

  /** The frame that carries `payload`. */
  function Frame(payload: seq<Byte>): seq<Byte>
  {
    Magic + LeBytes(Crc32(payload)) + payload
  }

  /** The fixed keep-alive frame built once per login update: a code-1
      packet with sequence 0 and a single NUL as its text (which no command
      built from a C string can carry). */
  function KeepAliveFrame(): seq<Byte>
  {
    Frame([0xFF, 0x01, 0x00, 0x00])
  }

  /** The receiving side of `Frame`: check the magic and the checksum and
      give back the payload. This is the check the server makes on what the
      client sends; the client itself never checks the magic or the checksum
      of a datagram it receives (src/backends/rcon.cpp:446 reads offset 7
      straight away). */
  function ParseFrame(frame: seq<Byte>): Option<seq<Byte>>
  {
    if |frame| >= 6 && frame[..2] == Magic && LeValue(frame[2..6]) == Crc32(frame[6..])
    then Some(frame[6..])
    else None
  }

  /** Every frame the client builds passes the receiving check and yields
      its payload. */
  lemma FrameAccepted(payload: seq<Byte>)
    ensures ParseFrame(Frame(payload)) == Some(payload)
  {
    var crc := Crc32(payload);
    var frame := Frame(payload);
    assert frame[..2] == Magic;
    assert frame[2..6] == LeBytes(crc);
    assert frame[6..] == payload;
    LeValueOfLeBytes(crc);
  }

  /** Only the frame of a payload passes the receiving check with that
      payload. */
  lemma FrameOnlyAccepted(frame: seq<Byte>, payload: seq<Byte>)
    requires ParseFrame(frame) == Some(payload)
    ensures frame == Frame(payload)
  {
    assert frame[6..] == payload;
    LeBytesOfLeValue(frame[2..6]);
    assert frame == frame[..2] + frame[2..6] + frame[6..];
  }

  /** A frame is accepted exactly when it is the frame of its payload: it
      carries the magic and the checksum of its payload. */
  lemma FrameParse(frame: seq<Byte>, payload: seq<Byte>)
    ensures ParseFrame(frame) == Some(payload) <==> frame == Frame(payload)
  {
    if frame == Frame(payload) {
      FrameAccepted(payload);
    }
    if ParseFrame(frame) == Some(payload) {
      FrameOnlyAccepted(frame, payload);
    }
  }

  /** Every packet's payload starts with the marker and its code. */
  lemma PayloadHeader(p: OutboundPacket)
    ensures |Payload(p)| >= 2 && Payload(p)[0] == 0xFF && Payload(p)[1] == PacketCode(p)
  {
  }

  /** The packet a receiver reads out of a payload. */
  function DecodePayload(payload: seq<Byte>): Option<OutboundPacket>
  {
    if |payload| < 2 || payload[0] != 0xFF then None
    else if payload[1] == 0x00 then Some(Login(BytesText(payload[2..])))
    else if payload[1] == 0x01 && |payload| >= 3 then Some(Command(payload[2], BytesText(payload[3..])))
    else if payload[1] == 0x02 && |payload| == 3 then Some(ServerAck(payload[2]))
    else None
  }

  /** A packet whose texts are 8-bit characters without NUL. */
  predicate ByteTextPacket(p: OutboundPacket)
  {
    match p
    case Login(password) => IsByteText(password) && NoNul(password)
    case Command(_, cmd) => IsByteText(cmd) && NoNul(cmd)
    case ServerAck(_) => true
  }

  /** What a packet looks like on the wire: the sequence number of a command
      reduced to its octet. */
  function OnWire(p: OutboundPacket): OutboundPacket
  {
    match p
    case Command(n, cmd) => Command(SequenceByte(n), cmd)
    case _ => p
  }

  /** Decoding a payload recovers the packet: the login text, the command's
      sequence octet and text, the echoed octet. */
  lemma PayloadRoundTrip(p: OutboundPacket)
    requires ByteTextPacket(p)
    ensures DecodePayload(Payload(p)) == Some(OnWire(p))
  {
    var pl := Payload(p);
    match p
    case Login(password) =>
      CStringOfNoNul(password);
      assert pl[2..] == TextBytes(password);
      TextBytesRoundTrip(password);
    case Command(n, cmd) =>
      CStringOfNoNul(cmd);
      assert pl[3..] == TextBytes(cmd);
      TextBytesRoundTrip(cmd);
    case ServerAck(echo) =>
  }

  /** The body of a type-1 frame: a whole message, or one fragment of a
      multi-part message. */
  datatype ReplyBody =
    | Whole(text: string)
    | Part(total: Byte, index: Byte, text: string)

  /** An inbound frame as the receive loop reads it. */
  datatype InboundFrame =
    | LoginReply(success: bool)
    | CommandReply(sequence: Byte, body: ReplyBody)
    | ServerMessage(sequence: Byte, text: string)
    | OtherType(kind: Byte)

  /** The receive loop reads octets 7 and 8 of every datagram, and octets 10
      and 11 of a multi-part one, without checking the datagram's length;
      only datagrams long enough for that are given a meaning here. */
  predicate Decodable(buf: seq<Byte>)
  {
    |buf| >= 9 && (buf[7] == 0x01 && |buf| > 9 && buf[9] == 0x00 ==> |buf| >= 12)
  }

  /** True when a type-1 datagram is a fragment of a multi-part message:
      octet 9 is zero and is part of the datagram (a datagram of exactly 9
      octets reads the terminating NUL at 9 and is a whole, empty message). */
  predicate IsFragment(buf: seq<Byte>)
    requires |buf| >= 9
  {
    |buf| > 9 && buf[9] == 0x00
  }

  /** The inbound frame a datagram stands for. */
  function Decode(buf: seq<Byte>): InboundFrame
    requires Decodable(buf)
  {
    if buf[7] == 0x00 then LoginReply(buf[8] == 0x01)
    else if buf[7] == 0x01 then
      CommandReply(buf[8],
        if IsFragment(buf) then Part(buf[10], buf[11], BytesText(buf[12..]))
        else Whole(BytesText(buf[9..])))
    else if buf[7] == 0x02 then ServerMessage(buf[8], BytesText(buf[9..]))
    else OtherType(buf[7])
  }

  /** The payload a server sends for an inbound frame. */
  function InboundPayload(f: InboundFrame): seq<Byte>
  {
    match f
    case LoginReply(success) => [0xFF, 0x00, if success then 0x01 else 0x00]
    case CommandReply(sequence, Whole(text)) => [0xFF, 0x01, sequence] + TextBytes(text)
    case CommandReply(sequence, Part(total, index, text)) =>
      [0xFF, 0x01, sequence, 0x00, total, index] + TextBytes(text)
    case ServerMessage(sequence, text) => [0xFF, 0x02, sequence] + TextBytes(text)
    case OtherType(kind) => [0xFF, kind, 0x00]
  }

  /** An inbound frame a server can send so that it reads back as itself:
      8-bit texts, a whole message that does not start with NUL (or it would
      read as a fragment), and a type other than 0, 1 and 2 for `OtherType`. */
  predicate WellFormedInbound(f: InboundFrame)
  {
    match f
    case LoginReply(_) => true
    case CommandReply(_, Whole(text)) => IsByteText(text) && (text == [] || text[0] != '\0')
    case CommandReply(_, Part(_, _, text)) => IsByteText(text)
    case ServerMessage(_, text) => IsByteText(text)
    case OtherType(kind) => kind > 0x02
  }

  /** The payload of a frame starts at offset 6. */
  lemma FramePayload(payload: seq<Byte>)
    ensures |Frame(payload)| == 6 + |payload| && Frame(payload)[6..] == payload
  {
  }

  /** A datagram whose octets from 6 on are the payload of a well-formed
      inbound frame decodes to that frame, whatever its first six octets. */
  lemma {:induction false} DecodeInboundPayload(buf: seq<Byte>, f: InboundFrame)
    requires |buf| >= 6 && buf[6..] == InboundPayload(f)
    requires WellFormedInbound(f)
    ensures Decodable(buf) && Decode(buf) == f
  {
    var pl := InboundPayload(f);
    assert forall i :: 6 <= i < |buf| ==> buf[i] == pl[i - 6];
    match f
    case LoginReply(_) =>
    case CommandReply(sequence, Whole(text)) =>
      assert buf[9..] == pl[3..] == TextBytes(text);
      TextBytesRoundTrip(text);
      if |buf| > 9 {
        assert buf[9] == ByteOf(text[0]);
      }
    case CommandReply(sequence, Part(total, index, text)) =>
      assert buf[12..] == pl[6..] == TextBytes(text);
      TextBytesRoundTrip(text);
    case ServerMessage(sequence, text) =>
      assert buf[9..] == pl[3..] == TextBytes(text);
      TextBytesRoundTrip(text);
    case OtherType(kind) =>
  }

  /** Decoding the frame of a well-formed inbound message recovers it. */
  lemma InboundRoundTrip(f: InboundFrame)
    requires WellFormedInbound(f)
    ensures Decodable(Frame(InboundPayload(f)))
    ensures Decode(Frame(InboundPayload(f))) == f
  {
    FramePayload(InboundPayload(f));
    DecodeInboundPayload(Frame(InboundPayload(f)), f);
  }

  /** The text of a datagram from offset `pos` to its end, copied octet by
      octet (`extractData`); empty when `pos` is past the end. */
  method ExtractData(buf: seq<Byte>, pos: nat) returns (result: string)
    ensures pos <= |buf| ==> result == BytesText(buf[pos..])
    ensures pos <= |buf| ==> TextBytes(result) == buf[pos..]
    ensures pos > |buf| ==> result == []
  {
    result := [];
    var i := pos;
    while i < |buf|
      invariant pos <= |buf| ==> pos <= i <= |buf|
      invariant pos <= |buf| ==> result == BytesText(buf[pos..i])
      invariant pos > |buf| ==> result == []
    {
      assert buf[pos..i + 1] == buf[pos..i] + [buf[i]];
      BytesTextAppend(buf[pos..i], [buf[i]]);
      result := result + [buf[i] as char];
      i := i + 1;
    }
    if pos <= |buf| {
      assert buf[pos..i] == buf[pos..];
      BytesTextRoundTrip(buf[pos..]);
    }
  }
}
