/** The session of client/mysql/Server.go: a `Server` holding its configuration,
    its PacketIO and whether registration succeeded; the connection phase, the
    commands it sends (each restarting the sequence counter at 0), and one step
    of the binlog dump loop. Each operation is specified by a function on the
    transport's state (`Link`); the methods are proved to follow them. */
module Session {
  import opened Wire
  import opened Protocol
  import opened Packet
  import opened Handshake
  import opened Commands

  /** The fields of Config the session reads; `port`, `serverId` and `position`
      are Go `int`s. */
  datatype Config = Config(
    host: seq<byte>,
    port: int,
    user: seq<byte>,
    pass: seq<byte>,
    serverId: int,
    logFile: seq<byte>,
    position: int)

  /** What an exchange answers, and the transport's state after it. */
  datatype Exchange<T> = Exchange(answer: T, link: Link)

  /** How register and writeDumpCommand take the reply: OK, an ERR_Packet decoded
      by HandleError, or a reply the source cannot look at (a failed read or an
      empty reply makes `res[0]` panic, as does a reply HandleError cannot slice). */
  datatype Ack = Acknowledged | Refused(report: ErrPacket) | Unreadable

  /** How one turn of the dump loop takes a packet. */
  datatype Inbound =
    | Skip                     // a failed read or an empty packet
    | Event(body: seq<byte>)   // an OK-marked packet: the event handed to the binlog parser
    | Reported(report: ErrPacket) // any other packet, decoded by HandleError
    | Undecodable              // a packet HandleError cannot slice (the source panics)

  /** The statement invalidChecksum sends. */
  const ChecksumStatement: seq<byte> := Ascii("SET @master_binlog_checksum='NONE'")

  /** The bytes of an ASCII string, as Go's `copy` of a string into a byte slice. */
  function Ascii(s: string): (b: seq<byte>)
    requires forall i :: 0 <= i < |s| ==> s[i] as int < 256
    ensures |b| == |s|
  {
    seq(|s|, i requires 0 <= i < |s| => s[i] as int)
  }

  // ---------------------------------------------------------------- replies

  /** The reply check of register and writeDumpCommand. */
  function Acknowledge(reply: Result<seq<byte>, ReadError>): (a: Ack)
    ensures a == Acknowledged <==> reply.Ok? && |reply.value| > 0 && reply.value[0] == OkHeader
    ensures a.Refused? <==> reply.Ok? && |reply.value| >= 9 && reply.value[0] != OkHeader
    ensures a.Refused? ==> Some(a.report) == HandleError(reply.value)
  {
    match reply
    case Err(_) => Unreadable
    case Ok(res) =>
      if |res| == 0 then Unreadable
      else if res[0] == OkHeader then Acknowledged
      else
        match HandleError(res)
        case None => Unreadable
        case Some(e) => Refused(e)
  }

  /** The classification in the dump loop. */
  function Classify(read: Result<seq<byte>, ReadError>): (x: Inbound)
    ensures x == Skip <==> read.Err? || |read.value| == 0
    ensures x.Event? <==> read.Ok? && |read.value| > 0 && read.value[0] == OkHeader
    ensures x.Event? ==> read.value == [OkHeader] + x.body
    ensures x.Reported? <==> read.Ok? && |read.value| >= 9 && read.value[0] != OkHeader
    ensures x.Reported? ==> Some(x.report) == HandleError(read.value)
  {
    match read
    case Err(_) => Skip
    case Ok(data) =>
      if |data| == 0 then Skip
      else if data[0] == OkHeader then Event(data[1..])
      else
        match HandleError(data)
        case None => Undecodable
        case Some(e) => Reported(e)
  }

  // ---------------------------------------------------------------- the session on a link

  /** handshake once connected: read and parse the greeting, answer with the
      scrambled password, read the reply. */
  function HandshakeOn(sha1: seq<byte> -> Digest, user: seq<byte>, pass: seq<byte>, l: Link)
    : (r: Exchange<Outcome<HandshakeError>>)
    ensures r.link.sent != l.sent ==>
      ReadOn(l).result.Ok? && ParseGreeting(ReadOn(l).result.value).Ok?
  {
    var greeting := ReadOn(l);
    match greeting.result
    case Err(e) => Exchange(Fail(ReadFailed(e)), greeting.link)
    case Ok(data) =>
      match ParseGreeting(data)
      case Err(e) => Exchange(Fail(e), greeting.link)
      case Ok(g) =>
        if |g.salt| < 20 then Exchange(Fail(ShortSalt), greeting.link)
        else
          var w := WriteOn(greeting.link, AuthPayload(user, Scramble(sha1, g.salt[..20], pass)));
          if w.result.Fail? then Exchange(Fail(AuthWriteFailed(w.result.error)), w.link)
          else
            var reply := ReadOn(w.link);
            Exchange(AuthReply(reply.result), reply.link)
  }

  /** What every command does first: restart the counter at 0, then writePacket. */
  function SendCommand(l: Link, payload: seq<byte>): (r: Delivered)
    ensures r.link.input == l.input && l.sent <= r.link.sent
  {
    WriteOn(l.(sequence := 0), payload)
  }

  function QueryOn(l: Link, q: seq<byte>): Delivered
  {
    SendCommand(l, QueryPayload(q))
  }

  /** invalidChecksum: the query, then one reply read and dropped. */
  function InvalidChecksumOn(l: Link): Link
  {
    ReadOn(QueryOn(l, ChecksumStatement).link).link
  }

  /** register: the COM_REGISTER_SLAVE request (its write error ignored), then the reply. */
  function RegisterOn(l: Link, cfg: Config, hostname: seq<byte>): (r: Exchange<Ack>)
    ensures l.sent <= r.link.sent
  {
    var d := SendCommand(l, RegisterPayload(cfg.serverId, hostname, cfg.user, cfg.pass, cfg.port));
    var reply := ReadOn(d.link);
    Exchange(Acknowledge(reply.result), reply.link)
  }

  /** writeDumpCommand: the COM_BINLOG_DUMP request (its write error ignored), then the reply. */
  function DumpCommandOn(l: Link, cfg: Config): (r: Exchange<Ack>)
    ensures l.sent <= r.link.sent
  {
    var d := SendCommand(l, BinlogDumpPayload(cfg.position, cfg.serverId, cfg.logFile));
    var reply := ReadOn(d.link);
    Exchange(Acknowledge(reply.result), reply.link)
  }

  /** One turn of the dump loop: one packet read and classified. */
  function ReceiveOn(l: Link): (r: Exchange<Inbound>)
    ensures r.link.sent == l.sent && r.link.faults == l.faults
  {
    var read := ReadOn(l);
    Exchange(Classify(read.result), read.link)
  }

  // ---------------------------------------------------------------- the server

  class Server {
    const cfg: Config
    var io: PacketIO?
    var registerSucc: bool

    constructor (cfg: Config)
      ensures this.cfg == cfg && io == null && !registerSucc
    {
      this.cfg := cfg;
      io := null;
      registerSucc := false;
    }

    /** handshake after the connection is made: `input` is what the server will
        send and `faults` how the socket takes writes. */
    method Handshake(sha1: seq<byte> -> Digest, input: seq<byte>, faults: seq<WriteOutcome>)
      returns (r: Outcome<HandshakeError>)
      modifies this`io
      ensures io != null && fresh(io)
      ensures Exchange(r, io.State()) == HandshakeOn(sha1, cfg.user, cfg.pass, Link(0, input, [], faults))
    {
      var pio := new PacketIO(input, faults);
      io := pio;
      var data := pio.ReadPacket();
      if data.Err? {
        return Fail(ReadFailed(data.error));
      }
      var greeting := ParseGreeting(data.value);
      if greeting.Err? {
        return Fail(greeting.error);
      }
      var salt := greeting.value.salt;
      if |salt| < 20 {
        return Fail(ShortSalt);
      }
      var auth := CalPassword(sha1, salt[..20], cfg.pass);
      var buf := BuildAuthResponse(cfg.user, auth);
      assert buf[4..] == AuthPayload(cfg.user, auth);
      var w := pio.WritePacket(buf);
      if w.Fail? {
        return Fail(AuthWriteFailed(w.error));
      }
      var pk := pio.ReadPacket();
      r := AuthReply(pk);
    }

    /** query: sends COM_QUERY and returns writePacket's error. */
    method Query(q: seq<byte>) returns (r: Outcome<WriteError>)
      requires io != null
      modifies io
      ensures Delivered(r, io.State()) == QueryOn(old(io.State()), q)
    {
      io.sequence := 0;
      var data := BuildQuery(q);
      assert data[4..] == QueryPayload(q);
      r := io.WritePacket(data);
    }

    /** writeCommand: sends a one-byte command; the write error is dropped. */
    method WriteCommand(command: byte)
      requires io != null
      modifies io
      ensures io.State() == SendCommand(old(io.State()), CommandPayload(command)).link
    {
      io.sequence := 0;
      var data := BuildCommand(command);
      assert data[4..] == CommandPayload(command);
      var _ := io.WritePacket(data);
    }

    /** Quit: COM_QUIT. Closing the connection is not part of this model. */
    method Quit()
      requires io != null
      modifies io
      ensures io.State() == SendCommand(old(io.State()), CommandPayload(ComQuit)).link
    {
      WriteCommand(ComQuit);
    }

    /** invalidChecksum: turns binlog checksums off, reading one reply it does not look at. */
    method InvalidChecksum()
      requires io != null
      modifies io
      ensures io.State() == InvalidChecksumOn(old(io.State()))
    {
      var _ := Query(ChecksumStatement);
      var _ := io.ReadPacket();
    }

    /** register, with the reply (not the request) handed to HandleError. */
    method Register(hostname: seq<byte>) returns (a: Ack)
      requires io != null
      modifies io, this`registerSucc
      ensures Exchange(a, io.State()) == RegisterOn(old(io.State()), cfg, hostname)
      ensures registerSucc == (old(registerSucc) || a == Acknowledged)
    {
      ghost var payload := RegisterPayload(cfg.serverId, hostname, cfg.user, cfg.pass, cfg.port);
      ghost var sent := SendCommand(io.State(), payload).link;
      io.sequence := 0;
      var data := BuildRegister(cfg.serverId, hostname, cfg.user, cfg.pass, cfg.port);
      assert data[4..] == payload;
      var _ := io.WritePacket(data);
      assert io.State() == sent;
      var res := io.ReadPacket();
      assert Received(res, io.State()) == ReadOn(sent);
      a := Acknowledge(res);
      if a == Acknowledged {
        registerSucc := true;
      }
    }

    method WriteDumpCommand() returns (a: Ack)
      requires io != null
      modifies io
      ensures Exchange(a, io.State()) == DumpCommandOn(old(io.State()), cfg)
    {
      io.sequence := 0;
      var data := BuildBinlogDump(cfg.position, cfg.serverId, cfg.logFile);
      assert data[4..] == BinlogDumpPayload(cfg.position, cfg.serverId, cfg.logFile);
      var _ := io.WritePacket(data);
      var res := io.ReadPacket();
      a := Acknowledge(res);
    }

    /** One turn of the dump loop. */
    method ReceiveEvent() returns (x: Inbound)
      requires io != null
      modifies io
      ensures Exchange(x, io.State()) == ReceiveOn(old(io.State()))
    {
      var data := io.ReadPacket();
      x := Classify(data);
    }
  }

  // ---------------------------------------------------------------- properties of the session

  /** Against a server that sends a well-formed greeting and then `reply`, with a
      socket that takes every write: the client answers with exactly one frame,
      sequence id 1, holding the response with the scramble of the greeting's
      salt; it reads the reply as frame 2 and ends with the reply's verdict. */
  lemma HandshakeWithServer(sha1: seq<byte> -> Digest, user: seq<byte>, pass: seq<byte>,
                            h: ServerHello, reply: seq<byte>, rest: seq<byte>)
    requires WellFormed(h) && |EncodeGreeting(h, true)| < MaxPayloadLength
    requires 2 <= |reply| < MaxPayloadLength
    requires 32 + |user| + 2 + 20 < MaxPayloadLength
    ensures var input := Framed(EncodeGreeting(h, true), 0) + Framed(reply, 2) + rest;
      HandshakeOn(sha1, user, pass, Link(0, input, [], []))
        == Exchange(AuthReply(Ok(reply)),
                    Link(3, rest, Framed(AuthPayload(user, Scramble(sha1, h.salt, pass)), 1), []))
  {
    var greeting := EncodeGreeting(h, true);
    var input := Framed(greeting, 0) + Framed(reply, 2) + rest;
    assert input == Framed(greeting, 0) + (Framed(reply, 2) + rest);
    WriteThenRead(greeting, 0, Framed(reply, 2) + rest);
    GreetingRoundTrip(h);
    assert h.salt[..20] == h.salt;
    var payload := AuthPayload(user, Scramble(sha1, h.salt, pass));
    ReliableEmit(FramesOf(payload, 1));
    WriteThenRead(reply, 2, rest);
  }

  /** With a socket that takes every write, a command goes out as its frames from
      sequence id 0, whatever the counter was, and leaves the counter at the
      number of frames. */
  lemma ReliableSendCommand(l: Link, payload: seq<byte>)
    requires l.faults == []
    ensures SendCommand(l, payload)
      == Delivered(Pass, l.(sequence := |FramesOf(payload, 0)|, sent := l.sent + Framed(payload, 0)))
  {
    ReliableEmit(FramesOf(payload, 0));
  }

  /** What a command adds to the socket. */
  function SentBy(l: Link, payload: seq<byte>): (b: seq<byte>)
  {
    var d := SendCommand(l, payload);
    d.link.sent[|l.sent|..]
  }

  /** With a socket that takes every write, a server reading from sequence id 0
      gets the command back whole, for every length the single split frames
      correctly, and is left expecting the next sequence id. */
  lemma CommandReachesServer(l: Link, p: seq<byte>)
    requires l.faults == []
    requires |p| < 2 * MaxPayloadLength && |p| != 1 && |p| != MaxPayloadLength + 1
    ensures ReadMessage(SentBy(l, p), 0) == ReadStep(Ok(p), |FramesOf(p, 0)|, [])
  {
    var frames := Framed(p, 0);
    ReliableSendCommand(l, p);
    assert (l.sent + frames)[|l.sent|..] == frames;
    assert SentBy(l, p) == frames + [];
    WriteThenRead(p, 0, []);
    AdvanceNoWrap(0, |FramesOf(p, 0)|);
  }

  /** A server reading the register request gets the server id and port as their
      low 32 and 16 bits, the host name, user and password, and zero rank and
      master id, when each field is shorter than 256 bytes. */
  lemma RegisterReachesServer(l: Link, cfg: Config, hostname: seq<byte>)
    requires l.faults == []
    requires |hostname| < 256 && |cfg.user| < 256 && |cfg.pass| < 256
    ensures var p := RegisterPayload(cfg.serverId, hostname, cfg.user, cfg.pass, cfg.port);
      && ReadMessage(SentBy(l, p), 0).result == Ok(p)
      && ParseRegister(p)
           == Some(Registration(Uint32(cfg.serverId), hostname, cfg.user, cfg.pass, Uint16(cfg.port), 0, 0))
  {
    var p := RegisterPayload(cfg.serverId, hostname, cfg.user, cfg.pass, cfg.port);
    CommandReachesServer(l, p);
    RegisterRoundTrip(cfg.serverId, hostname, cfg.user, cfg.pass, cfg.port);
  }

  /** A server reading the dump request gets the binlog position and server id as
      their low 32 bits, zero flags and the file name, for every length the single
      split frames correctly. */
  lemma DumpRequestReachesServer(l: Link, cfg: Config)
    requires l.faults == []
    requires 11 + |cfg.logFile| < 2 * MaxPayloadLength && 11 + |cfg.logFile| != MaxPayloadLength + 1
    ensures var p := BinlogDumpPayload(cfg.position, cfg.serverId, cfg.logFile);
      && ReadMessage(SentBy(l, p), 0).result == Ok(p)
      && ParseBinlogDump(p) == Some(DumpRequest(Uint32(cfg.position), 0, Uint32(cfg.serverId), cfg.logFile))
  {
    var p := BinlogDumpPayload(cfg.position, cfg.serverId, cfg.logFile);
    CommandReachesServer(l, p);
    BinlogDumpRoundTrip(cfg.position, cfg.serverId, cfg.logFile);
  }

  /** A query is read back whole by a server for every length the single split
      handles; a long one travels in two frames. */
  lemma QueryReachesServer(l: Link, q: seq<byte>)
    requires l.faults == []
    requires 0 < |q| && |q| + 1 < 2 * MaxPayloadLength && |q| != MaxPayloadLength
    ensures var p := QueryPayload(q);
      && ReadMessage(SentBy(l, p), 0) == ReadStep(Ok(p), |FramesOf(p, 0)|, [])
      && ParseQuery(p) == Some(q)
  {
    var p := QueryPayload(q);
    CommandReachesServer(l, p);
    QueryRoundTrip(q);
  }

  /** The header writePacket stamps on a one-byte command is the literal
      `{0x01, 0x00, 0x00, 0x00}` writeCommand starts its buffer with. */
  lemma CommandFrameMatchesLiteral(c: byte)
    ensures Framed(CommandPayload(c), 0) == [1, 0, 0, 0, c]
  {
    FlattenOne(Header(1, 0) + [c]);
  }

  /** An ERR_Packet from the server is reported with the server's own fields,
      by register and writeDumpCommand and in the dump loop. */
  lemma ServerErrorReported(e: ErrPacket)
    requires e.code < Pow16 && |e.state| == 5
    ensures Acknowledge(Ok(EncodeErr(e))) == Refused(e)
    ensures Classify(Ok(EncodeErr(e))) == Reported(e)
  {
    HandleErrorRoundTrip(e);
  }

  /** An OK-marked packet in the dump loop hands exactly the bytes after the
      marker to the binlog parser. */
  lemma EventForwarded(body: seq<byte>)
    ensures Classify(Ok([OkHeader] + body)) == Event(body)
  {
    assert ([OkHeader] + body)[1..] == body;
  }

  /** An EOF_Packet in the dump loop is not told apart: a long one is decoded as
      if it were an ERR_Packet, a short one cannot be decoded at all. */
  lemma EofNotRecognised(rest: seq<byte>)
    ensures |rest| >= 8 ==> Classify(Ok([EofHeader] + rest)).Reported?
    ensures |rest| < 8 ==> Classify(Ok([EofHeader] + rest)) == Undecodable
  {
  }

  /** register's reply handling as the source writes it: the ERR_Packet decode is
      applied to the request buffer it sent, not to the reply. */
  function AcknowledgeAsWritten(request: seq<byte>, reply: Result<seq<byte>, ReadError>): (a: Ack)
    ensures a == Acknowledged <==> reply.Ok? && |reply.value| > 0 && reply.value[0] == OkHeader
    ensures a.Refused? ==> |request| >= 9 && a.report.state == request[4..9]
  {
    match reply
    case Err(_) => Unreadable
    case Ok(res) =>
      if |res| == 0 then Unreadable
      else if res[0] == OkHeader then Acknowledged
      else
        match HandleError(request)
        case None => Unreadable
        case Some(e) => Refused(e)
  }

  /** The request buffer register hands to HandleError, after writePacket, still
      holds COM_REGISTER_SLAVE at byte 4: so a server's refusal whose SQL state does
      not start with that byte is misreported as written, and reported correctly
      once the reply is decoded. */
  lemma RegisterRefusalMisreported(cfg: Config, hostname: seq<byte>, s: byte, firstSent: bool, e: ErrPacket)
    requires e.code < Pow16 && |e.state| == 5 && e.state[0] != ComRegisterSlave
    ensures var request := Stamped(Zeros(4) + RegisterPayload(cfg.serverId, hostname, cfg.user, cfg.pass, cfg.port),
                                   s, firstSent);
      && AcknowledgeAsWritten(request, Ok(EncodeErr(e))) != Refused(e)
      && Acknowledge(Ok(EncodeErr(e))) == Refused(e)
  {
    var buf := Zeros(4) + RegisterPayload(cfg.serverId, hostname, cfg.user, cfg.pass, cfg.port);
    var request := Stamped(buf, s, firstSent);
    StampedBuffer(buf, s, firstSent);
    assert request[4] == buf[4] == ComRegisterSlave;
    HandleErrorRoundTrip(e);
  }
}
