/** The command payloads client/mysql/Server.go sends once connected
    (COM_QUERY, COM_REGISTER_SLAVE, COM_BINLOG_DUMP and one-byte commands such as
    COM_QUIT), the buffers it builds for them, and a server's decoding of each. */
module Commands {
  import opened Wire
  import opened Protocol

  // ---------------------------------------------------------------- layouts

  /** COM_QUERY: the command byte followed by the statement text. */
  function QueryPayload(q: seq<byte>): (p: seq<byte>)
    ensures |p| == 1 + |q|
  {
    [ComQuery] + q
  }

  /** A command that is only its command byte (writeCommand). */
  function CommandPayload(c: byte): (p: seq<byte>)
    ensures |p| == 1
  {
    [c]
  }

  /** A field preceded by its length, `uint8(len(v))`: the length is truncated to a byte. */
  function LengthPrefixed(v: seq<byte>): (b: seq<byte>)
    ensures |b| == 1 + |v|
  {
    [|v| % 256] + v
  }

  /** The host name, user and password of COM_REGISTER_SLAVE, each length-prefixed. */
  function RegisterFields(host: seq<byte>, user: seq<byte>, pass: seq<byte>): (b: seq<byte>)
    ensures |b| == 1 + |host| + 1 + |user| + 1 + |pass|
  {
    LengthPrefixed(host) + LengthPrefixed(user) + LengthPrefixed(pass)
  }

  /** The port (truncated to 16 bits), a zero replication rank and a zero master id. */
  function RegisterTail(port: int): (b: seq<byte>)
    ensures |b| == 10
  {
    LE16(Uint16(port)) + LE32(0) + LE32(0)
  }

  /** COM_REGISTER_SLAVE: the command byte, the server id truncated to 32 bits, the
      length-prefixed fields and the tail. */
  function RegisterPayload(serverId: int, host: seq<byte>, user: seq<byte>, pass: seq<byte>, port: int): (p: seq<byte>)
    ensures |p| == 1 + 4 + 1 + |host| + 1 + |user| + 1 + |pass| + 2 + 4 + 4
  {
    [ComRegisterSlave] + LE32(Uint32(serverId)) + RegisterFields(host, user, pass) + RegisterTail(port)
  }

  /** COM_BINLOG_DUMP: binlog position, zero flags, server id, then the binlog file
      name running to the end of the payload. */
  function BinlogDumpPayload(position: int, serverId: int, file: seq<byte>): (p: seq<byte>)
    ensures |p| == 1 + 4 + 2 + 4 + |file|
  {
    [ComBinlogDump] + LE32(Uint32(position)) + LE16(0) + LE32(Uint32(serverId)) + file
  }

  // ---------------------------------------------------------------- a server's decoding

  datatype Registration = Registration(
    serverId: nat, host: seq<byte>, user: seq<byte>, pass: seq<byte>, port: nat, rank: nat, masterId: nat)

  datatype DumpRequest = DumpRequest(position: nat, flags: nat, serverId: nat, file: seq<byte>)

  /** A length-prefixed field and what follows it. */
  datatype Field = Field(value: seq<byte>, rest: seq<byte>)

  function TakeField(s: seq<byte>): (r: Option<Field>)
    ensures r.Some? ==> |r.value.rest| < |s|
  {
    if |s| == 0 || |s| - 1 < s[0] then None
    else Some(Field(s[1..1 + s[0]], s[1 + s[0]..]))
  }

  function ParseQuery(p: seq<byte>): Option<seq<byte>>
  {
    if |p| == 0 || p[0] != ComQuery then None else Some(p[1..])
  }

  function ParseRegister(p: seq<byte>): Option<Registration>
  {
    if |p| < 5 || p[0] != ComRegisterSlave then None
    else
      match ParseRegisterFields(p[5..])
      case None => None
      case Some(r) => Some(r.(serverId := ReadLE32(p[1..5])))
  }

  /** The length-prefixed fields and the tail, after the server id. */
  function ParseRegisterFields(s: seq<byte>): Option<Registration>
  {
    match TakeField(s)
    case None => None
    case Some(host) =>
      match TakeField(host.rest)
      case None => None
      case Some(user) =>
        match TakeField(user.rest)
        case None => None
        case Some(pass) =>
          var t := pass.rest;
          if |t| < 10 then None
          else Some(Registration(0, host.value, user.value, pass.value,
                                 ReadLE16(t[..2]), ReadLE32(t[2..6]), ReadLE32(t[6..10])))
  }

  function ParseBinlogDump(p: seq<byte>): Option<DumpRequest>
  {
    if |p| < 11 || p[0] != ComBinlogDump then None
    else Some(DumpRequest(ReadLE32(p[1..5]), ReadLE16(p[5..7]), ReadLE32(p[7..11]), p[11..]))
  }

  /** A field whose length fits its one-byte prefix is read back whole. */
  lemma TakeFieldRoundTrip(v: seq<byte>, rest: seq<byte>)
    requires |v| < 256
    ensures TakeField(LengthPrefixed(v) + rest) == Some(Field(v, rest))
  {
    var s := LengthPrefixed(v) + rest;
    assert s[1..1 + |v|] == v;
    assert s[1 + |v|..] == rest;
  }

  lemma QueryRoundTrip(q: seq<byte>)
    ensures ParseQuery(QueryPayload(q)) == Some(q)
  {
    assert QueryPayload(q)[1..] == q;
  }

  /** The three fields are read back one after the other, leaving the tail. */
  lemma RegisterFieldsRoundTrip(host: seq<byte>, user: seq<byte>, pass: seq<byte>, tail: seq<byte>)
    requires |host| < 256 && |user| < 256 && |pass| < 256
    ensures var f := RegisterFields(host, user, pass) + tail;
      && TakeField(f) == Some(Field(host, LengthPrefixed(user) + LengthPrefixed(pass) + tail))
      && TakeField(LengthPrefixed(user) + LengthPrefixed(pass) + tail) == Some(Field(user, LengthPrefixed(pass) + tail))
      && TakeField(LengthPrefixed(pass) + tail) == Some(Field(pass, tail))
  {
    var afterUser := LengthPrefixed(pass) + tail;
    var afterHost := LengthPrefixed(user) + afterUser;
    assert RegisterFields(host, user, pass) + tail == LengthPrefixed(host) + afterHost;
    assert LengthPrefixed(user) + LengthPrefixed(pass) + tail == afterHost;
    TakeFieldRoundTrip(host, afterHost);
    TakeFieldRoundTrip(user, afterUser);
    TakeFieldRoundTrip(pass, tail);
  }

  /** The registration carries the server id and port as their low 32 and 16 bits,
      and the host name, user and password whole as long as each is shorter than
      256 bytes; rank and master id are zero. */
  lemma RegisterRoundTrip(serverId: int, host: seq<byte>, user: seq<byte>, pass: seq<byte>, port: int)
    requires |host| < 256 && |user| < 256 && |pass| < 256
    ensures ParseRegister(RegisterPayload(serverId, host, user, pass, port))
      == Some(Registration(Uint32(serverId), host, user, pass, Uint16(port), 0, 0))
  {
    var body := RegisterFields(host, user, pass) + RegisterTail(port);
    var p := RegisterPayload(serverId, host, user, pass, port);
    assert p == [ComRegisterSlave] + LE32(Uint32(serverId)) + body;
    assert p[1..5] == LE32(Uint32(serverId));
    assert p[5..] == body;
    RegisterBodyRoundTrip(host, user, pass, port);
    LE32RoundTrip(Uint32(serverId));
  }

  /** After the server id: the three fields and the tail read back. */
  lemma RegisterBodyRoundTrip(host: seq<byte>, user: seq<byte>, pass: seq<byte>, port: int)
    requires |host| < 256 && |user| < 256 && |pass| < 256
    ensures ParseRegisterFields(RegisterFields(host, user, pass) + RegisterTail(port))
      == Some(Registration(0, host, user, pass, Uint16(port), 0, 0))
  {
    RegisterFieldsRoundTrip(host, user, pass, RegisterTail(port));
    RegisterTailRoundTrip(port);
  }

  lemma RegisterTailRoundTrip(port: int)
    ensures var t := RegisterTail(port);
      ReadLE16(t[..2]) == Uint16(port) && ReadLE32(t[2..6]) == 0 && ReadLE32(t[6..10]) == 0
  {
    var t := RegisterTail(port);
    assert t[..2] == LE16(Uint16(port));
    LE16RoundTrip(Uint16(port));
  }

  /** A host name of 256 bytes or more gets its length modulo 256 as prefix, so a
      server cannot read the host name back. */
  lemma LongHostMisframed(serverId: int, host: seq<byte>, user: seq<byte>, pass: seq<byte>, port: int)
    requires |host| >= 256
    ensures RegisterPayload(serverId, host, user, pass, port)[5] == |host| % 256
    ensures var r := ParseRegister(RegisterPayload(serverId, host, user, pass, port));
      r.None? || r.value.host != host
  {
  }

  /** The dump request carries the position and server id as their low 32 bits,
      zero flags, and the file name whole. */
  lemma BinlogDumpRoundTrip(position: int, serverId: int, file: seq<byte>)
    ensures ParseBinlogDump(BinlogDumpPayload(position, serverId, file))
      == Some(DumpRequest(Uint32(position), 0, Uint32(serverId), file))
  {
    var p := BinlogDumpPayload(position, serverId, file);
    assert p[1..5] == LE32(Uint32(position));
    assert p[5..7] == LE16(0);
    assert p[7..11] == LE32(Uint32(serverId));
    assert p[11..] == file;
    LE32RoundTrip(Uint32(position));
    LE32RoundTrip(Uint32(serverId));
    LE16RoundTrip(0);
  }

  // ---------------------------------------------------------------- the buffers

  /** query's buffer: `make([]byte, len(q) + 1 + 4)`, byte 4 the command, the text copied after it. */
  method BuildQuery(q: seq<byte>) returns (data: array<byte>)
    ensures fresh(data)
    ensures data[..] == Zeros(4) + QueryPayload(q)
  {
    var length := |q| + 1;
    data := new byte[length + 4](_ => 0);
    assert Filled(data[..], Zeros(4));
    var pos := Put(data, 4, [ComQuery], Zeros(4));
    pos := Put(data, 5, q, Zeros(4) + [ComQuery]);
  }

  /** writeCommand's buffer: the literal `{0x01, 0x00, 0x00, 0x00, command}`, whose
      first four bytes writePacket overwrites with the real header. */
  method BuildCommand(c: byte) returns (data: array<byte>)
    ensures fresh(data)
    ensures data[..] == [1, 0, 0, 0] + CommandPayload(c)
  {
    data := new byte[5];
    data[0], data[1], data[2], data[3], data[4] := 1, 0, 0, 0, c;
  }

  /** register's buffer, filled through the `pos` cursor. */
  method BuildRegister(serverId: int, host: seq<byte>, user: seq<byte>, pass: seq<byte>, port: int)
    returns (data: array<byte>)
    ensures fresh(data)
    ensures data.Length == 4 + 1 + 4 + 1 + |host| + 1 + |user| + 1 + |pass| + 2 + 4 + 4
    ensures data[..] == Zeros(4) + RegisterPayload(serverId, host, user, pass, port)
  {
    data := new byte[4 + 1 + 4 + 1 + |host| + 1 + |user| + 1 + |pass| + 2 + 4 + 4](_ => 0);
    ghost var prefix: seq<byte> := Zeros(4);
    assert Filled(data[..], prefix);
    var pos := Put(data, 4, [ComRegisterSlave] + LE32(Uint32(serverId)), prefix);
    prefix := prefix + ([ComRegisterSlave] + LE32(Uint32(serverId)));
    pos := PutField(data, pos, host, prefix);
    prefix := prefix + LengthPrefixed(host);
    pos := PutField(data, pos, user, prefix);
    prefix := prefix + LengthPrefixed(user);
    pos := PutField(data, pos, pass, prefix);
    prefix := prefix + LengthPrefixed(pass);
    pos := Put(data, pos, RegisterTail(port), prefix);
    prefix := prefix + RegisterTail(port);
    RegisterLayout(serverId, host, user, pass, port);
  }

  /** The pieces BuildRegister writes, in order, make up the payload after the
      room for the header. */
  lemma RegisterLayout(serverId: int, host: seq<byte>, user: seq<byte>, pass: seq<byte>, port: int)
    ensures Zeros(4) + ([ComRegisterSlave] + LE32(Uint32(serverId))) + LengthPrefixed(host)
        + LengthPrefixed(user) + LengthPrefixed(pass) + RegisterTail(port)
      == Zeros(4) + RegisterPayload(serverId, host, user, pass, port)
  {
  }

  /** `data[pos] = uint8(len(v))` followed by `copy(data[pos+1:], v)`. */
  method PutField(data: array<byte>, pos: nat, v: seq<byte>, ghost prefix: seq<byte>) returns (next: nat)
    requires pos == |prefix| && pos + 1 + |v| <= data.Length
    requires Filled(data[..], prefix)
    modifies data
    ensures next == pos + 1 + |v|
    ensures Filled(data[..], prefix + LengthPrefixed(v))
  {
    next := Put(data, pos, [|v| % 256], prefix);
    next := Put(data, next, v, prefix + [|v| % 256]);
    assert prefix + [|v| % 256] + v == prefix + LengthPrefixed(v);
  }

  /** writeDumpCommand's buffer, filled through the `pos` cursor. */
  method BuildBinlogDump(position: int, serverId: int, file: seq<byte>) returns (data: array<byte>)
    ensures fresh(data)
    ensures data.Length == 15 + |file|
    ensures data[..] == Zeros(4) + BinlogDumpPayload(position, serverId, file)
  {
    data := new byte[4 + 1 + 4 + 2 + 4 + |file|](_ => 0);
    ghost var prefix: seq<byte> := Zeros(4);
    assert Filled(data[..], prefix);
    var pos := Put(data, 4, [ComBinlogDump], prefix);
    prefix := prefix + [ComBinlogDump];
    pos := Put(data, pos, LE32(Uint32(position)), prefix);
    prefix := prefix + LE32(Uint32(position));
    pos := Put(data, pos, LE16(0), prefix);
    prefix := prefix + LE16(0);
    pos := Put(data, pos, LE32(Uint32(serverId)), prefix);
    prefix := prefix + LE32(Uint32(serverId));
    pos := Put(data, pos, file, prefix);
    prefix := prefix + file;
    assert prefix == Zeros(4) + BinlogDumpPayload(position, serverId, file);
  }
}
