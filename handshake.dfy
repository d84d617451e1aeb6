/** The connection phase of client/mysql/Server.go: the mysql_native_password
    scramble, the Protocol::HandshakeV10 greeting the server sends first, and the
    Protocol::HandshakeResponse41 the client answers with. SHA-1 is a parameter
    `sha1` mapping any byte string to a 20-byte digest. */
module Handshake {
  import opened Wire
  import opened Protocol
  import opened Packet

  type Digest = s: seq<byte> | |s| == 20 witness seq(20, _ => 0)

  // ---------------------------------------------------------------- the scramble

  /** mysql_native_password: SHA1(salt ++ SHA1(SHA1(password))) XOR SHA1(password). */
  function Scramble(sha1: seq<byte> -> Digest, salt: seq<byte>, password: seq<byte>): (r: seq<byte>)
    ensures |r| == 20
  {
    XorBytes(sha1(salt + sha1(sha1(password))), sha1(password))
  }

  /** calPassword: hashes the password twice, hashes the salt with the double
      hash, and XORs the stage-one hash into that digest in place. An empty
      password is hashed like any other. */
  method CalPassword(sha1: seq<byte> -> Digest, scramble: seq<byte>, password: seq<byte>) returns (r: seq<byte>)
    ensures r == Scramble(sha1, scramble, password)
  {
    var stage1 := sha1(password);
    var hash := sha1(stage1);
    var mixed := sha1(scramble + hash);
    var out := new byte[20](i requires 0 <= i < 20 => mixed[i]);
    for i := 0 to 20
      invariant forall k :: 0 <= k < i ==> out[k] == Xor(mixed[k], stage1[k])
      invariant forall k :: i <= k < 20 ==> out[k] == mixed[k]
    {
      out[i] := Xor(out[i], stage1[i]);
    }
    r := out[..];
    assert r == XorBytes(mixed, stage1);
  }

  /** XOR-ing the scramble with SHA1(password) again gives back the salted hash. */
  lemma ScrambleUnmask(sha1: seq<byte> -> Digest, salt: seq<byte>, password: seq<byte>)
    ensures XorBytes(Scramble(sha1, salt, password), sha1(password)) == sha1(salt + sha1(sha1(password)))
  {
    XorBytesCancel(sha1(salt + sha1(sha1(password))), sha1(password));
  }

  /** The server's check succeeds: knowing only `stored` = SHA1(SHA1(password)) and
      the salt, it recovers SHA1(password) from the scramble, whose hash is `stored`. */
  lemma ScrambleVerifies(sha1: seq<byte> -> Digest, salt: seq<byte>, password: seq<byte>)
    ensures var stored := sha1(sha1(password));
      var candidate := XorBytes(Scramble(sha1, salt, password), sha1(salt + stored));
      candidate == sha1(password) && sha1(candidate) == stored
  {
    XorBytesCancel(sha1(salt + sha1(sha1(password))), sha1(password));
  }

  // ---------------------------------------------------------------- the greeting

  /** What the client keeps from the greeting. */
  datatype Greeting = Greeting(
    protocolVersion: byte,
    connectionId: nat,
    salt: seq<byte>,
    capability: nat,
    status: nat,
    pluginName: seq<byte>)

  datatype HandshakeError =
    | ReadFailed(cause: ReadError)        // readPacket failed on the greeting
    | EmptyGreeting                       // the greeting has no first byte to look at
    | ErrorGreeting                       // the greeting is an ERR_Packet
    | VersionTooLow(version: byte)        // protocol version below 10
    | TruncatedGreeting                   // a field lies past the end of the greeting
    | ShortSalt                           // the greeting carries only 8 salt bytes
    | AuthWriteFailed(failure: WriteError) // writePacket of the response failed
    | AuthReadFailed(cause: ReadError)    // readPacket of the reply failed
    | NoAuthReply                         // the reply has no first byte to look at
    | AuthRejected(report: Option<ErrPacket>) // the reply is an ERR_Packet

  /** The greeting parse of handshake. The version string runs to the first NUL
      after byte 0; if there is none, the fields start at byte 1. */
  function ParseGreeting(data: seq<byte>): (r: Result<Greeting, HandshakeError>)
    ensures |data| == 0 ==> r == Err(EmptyGreeting)
    ensures |data| > 0 && data[0] == ErrHeader ==> r == Err(ErrorGreeting)
    ensures |data| > 0 && data[0] != ErrHeader && data[0] < MinProtocolVersion ==> r == Err(VersionTooLow(data[0]))
    ensures r.Ok? ==>
      && r.value.protocolVersion == data[0]
      && MinProtocolVersion <= r.value.protocolVersion != ErrHeader
      && r.value.connectionId < Pow32
      && (|r.value.salt| == 8 || |r.value.salt| == 20)
      && r.value.capability < Pow32
      && r.value.status < Pow16
      && 0 !in r.value.pluginName
  {
    if |data| == 0 then Err(EmptyGreeting)
    else if data[0] == ErrHeader then Err(ErrorGreeting)
    else if data[0] < MinProtocolVersion then Err(VersionTooLow(data[0]))
    else ParseFields(data, 1 + IndexOf(data[1..], 0) + 1)
  }

  /** From `pos` on: the connection id, 8 salt bytes, a filler byte and the low
      capability half; then, only when bytes remain, the extension. */
  function ParseFields(data: seq<byte>, pos: nat): (r: Result<Greeting, HandshakeError>)
    requires 0 < |data|
    ensures r.Ok? ==>
      && r.value.protocolVersion == data[0]
      && r.value.connectionId < Pow32
      && (|r.value.salt| == 8 || |r.value.salt| == 20)
      && r.value.capability < Pow32
      && r.value.status < Pow16
      && 0 !in r.value.pluginName
  {
    if |data| < pos + 15 then Err(TruncatedGreeting)
    else
      var connectionId := ReadLE32(data[pos..pos + 4]);
      var salt := data[pos + 4..pos + 12];
      var lower := ReadLE16(data[pos + 13..pos + 15]);
      var g := Greeting(data[0], connectionId, salt, lower, 0, []);
      if |data| <= pos + 15 then Ok(g) else ParseExtension(data, pos + 15, g)
  }

  /** From `p` on: charset (skipped), status, the high capability half, 11
      skipped bytes, 12 more salt bytes, 1 skipped byte, and the plugin name up
      to a NUL or the end. */
  function ParseExtension(data: seq<byte>, p: nat, g: Greeting): (r: Result<Greeting, HandshakeError>)
    requires |g.salt| == 8 && g.capability < Pow16
    ensures r.Ok? ==>
      && r.value.protocolVersion == g.protocolVersion
      && r.value.connectionId == g.connectionId
      && |r.value.salt| == 20
      && r.value.capability < Pow32
      && r.value.status < Pow16
      && 0 !in r.value.pluginName
  {
    if |data| < p + 29 then Err(TruncatedGreeting)
    else
      var status := ReadLE16(data[p + 1..p + 3]);
      var upper := ReadLE16(data[p + 3..p + 5]);
      var rest := data[p + 29..];
      var end := IndexOf(rest, 0);
      var pluginName := if end != -1 then rest[..end] else rest;
      Ok(g.(salt := g.salt + data[p + 16..p + 28], capability := upper * Pow16 + g.capability,
            status := status, pluginName := pluginName))
  }

  /** The fields a server puts in its greeting. */
  datatype ServerHello = ServerHello(
    version: byte,
    serverVersion: seq<byte>,
    connectionId: nat,
    salt: seq<byte>,
    charset: byte,
    capability: nat,
    status: nat,
    pluginName: seq<byte>)

  ghost predicate WellFormed(h: ServerHello)
  {
    && MinProtocolVersion <= h.version != ErrHeader
    && 0 !in h.serverVersion
    && h.connectionId < Pow32
    && |h.salt| == 20
    && h.capability < Pow32
    && h.status < Pow16
    && 0 !in h.pluginName
  }

  /** The protocol version byte and the NUL-terminated server version string. */
  function GreetingPrefix(h: ServerHello): (b: seq<byte>)
    ensures |b| == |h.serverVersion| + 2
  {
    [h.version] + h.serverVersion + [0]
  }

  /** Connection id, the first 8 salt bytes, a filler byte and the low capability half. */
  function GreetingFixed(h: ServerHello): (b: seq<byte>)
    requires |h.salt| == 20
    ensures |b| == 15
  {
    LE32(h.connectionId) + h.salt[..8] + [0] + LE16(h.capability % Pow16)
  }

  /** Charset, status, the high capability half, the auth-data length, 10 reserved
      bytes, and the other 12 salt bytes with their NUL. */
  function GreetingExtension(h: ServerHello): (b: seq<byte>)
    requires |h.salt| == 20
    ensures |b| == 29
  {
    [h.charset] + LE16(h.status) + LE16(h.capability / Pow16) + [21] + Zeros(10) + h.salt[8..] + [0]
  }

  /** A HandshakeV10 greeting as a server lays it out: without the `extended`
      part it ends after the low capability half. */
  function EncodeGreeting(h: ServerHello, extended: bool): (data: seq<byte>)
    requires |h.salt| == 20
  {
    GreetingPrefix(h) + GreetingFixed(h)
      + if extended then GreetingExtension(h) + h.pluginName + [0] else []
  }

  /** The parse finds the fixed fields right after the version string. */
  lemma FixedFields(h: ServerHello, data: seq<byte>, pos: nat)
    requires WellFormed(h) && pos + 15 <= |data| && data[pos..pos + 15] == GreetingFixed(h)
    ensures ReadLE32(data[pos..pos + 4]) == h.connectionId
    ensures data[pos + 4..pos + 12] == h.salt[..8]
    ensures ReadLE16(data[pos + 13..pos + 15]) == h.capability % Pow16
  {
    var f := GreetingFixed(h);
    SliceOfSlice(data, pos, pos + 15, 0, 4);
    SliceOfSlice(data, pos, pos + 15, 4, 12);
    SliceOfSlice(data, pos, pos + 15, 13, 15);
    assert f[..4] == LE32(h.connectionId);
    assert f[13..15] == LE16(h.capability % Pow16);
    LE32RoundTrip(h.connectionId);
    LE16RoundTrip(h.capability % Pow16);
  }

  /** The parse finds the extension fields at their offsets. */
  lemma ExtensionFields(h: ServerHello, data: seq<byte>, p: nat)
    requires WellFormed(h) && p + 29 <= |data| && data[p..p + 29] == GreetingExtension(h)
    ensures ReadLE16(data[p + 1..p + 3]) == h.status
    ensures ReadLE16(data[p + 3..p + 5]) == h.capability / Pow16
    ensures data[p + 16..p + 28] == h.salt[8..]
  {
    var x := GreetingExtension(h);
    SliceOfSlice(data, p, p + 29, 1, 3);
    SliceOfSlice(data, p, p + 29, 3, 5);
    SliceOfSlice(data, p, p + 29, 16, 28);
    assert x[1..3] == LE16(h.status);
    assert x[3..5] == LE16(h.capability / Pow16);
    LE16RoundTrip(h.status);
    LE16RoundTrip(h.capability / Pow16);
  }

  /** The version string ends at its NUL, so the fields start right after it. */
  lemma PrefixEnds(h: ServerHello, rest: seq<byte>)
    requires WellFormed(h)
    ensures var data := GreetingPrefix(h) + rest;
      1 + IndexOf(data[1..], 0) + 1 == |GreetingPrefix(h)| && data[0] == h.version
  {
    var data := GreetingPrefix(h) + rest;
    assert data[1..] == h.serverVersion + [0] + rest;
    IndexOfTerminated(h.serverVersion, 0, rest);
  }

  /** The full greeting parses back to the server's fields, the salt's two parts
      joined and the capability's two halves combined. */
  lemma GreetingRoundTrip(h: ServerHello)
    requires WellFormed(h)
    ensures ParseGreeting(EncodeGreeting(h, true))
      == Ok(Greeting(h.version, h.connectionId, h.salt, h.capability, h.status, h.pluginName))
  {
    var data := EncodeGreeting(h, true);
    var pos := |GreetingPrefix(h)|;
    var tail := GreetingExtension(h) + h.pluginName + [0];
    assert data == GreetingPrefix(h) + (GreetingFixed(h) + tail);
    PrefixEnds(h, GreetingFixed(h) + tail);
    assert data[pos..pos + 15] == GreetingFixed(h);
    FixedParse(h, data, pos);
    assert data[pos + 15..] == tail;
    ExtensionParse(h, data, pos + 15);
  }

  /** The fixed fields parse, and the extension follows them. */
  lemma FixedParse(h: ServerHello, data: seq<byte>, pos: nat)
    requires WellFormed(h) && pos + 15 <= |data|
    requires data[0] == h.version && data[pos..pos + 15] == GreetingFixed(h)
    ensures ParseFields(data, pos)
      == var g := Greeting(h.version, h.connectionId, h.salt[..8], h.capability % Pow16, 0, []);
         if |data| == pos + 15 then Ok(g) else ParseExtension(data, pos + 15, g)
  {
    FixedFields(h, data, pos);
  }

  /** The extension parses back to the status, the high capability half, the rest
      of the salt and the plugin name. */
  lemma ExtensionParse(h: ServerHello, data: seq<byte>, p: nat)
    requires WellFormed(h) && p + 29 <= |data|
    requires data[p..] == GreetingExtension(h) + h.pluginName + [0]
    ensures ParseExtension(data, p, Greeting(h.version, h.connectionId, h.salt[..8], h.capability % Pow16, 0, []))
      == Ok(Greeting(h.version, h.connectionId, h.salt, h.capability, h.status, h.pluginName))
  {
    assert data[p..p + 29] == data[p..][..29] == GreetingExtension(h);
    ExtensionFields(h, data, p);
    var rest := data[p + 29..];
    assert rest == data[p..][29..] == h.pluginName + [0] + [];
    IndexOfTerminated(h.pluginName, 0, []);
    assert rest[..|h.pluginName|] == h.pluginName;
    assert h.salt[..8] + h.salt[8..] == h.salt;
    assert h.capability / Pow16 * Pow16 + h.capability % Pow16 == h.capability;
  }

  /** A greeting whose plugin name is not NUL-terminated parses the same: the
      name runs to the end of the packet. */
  lemma UnterminatedPluginName(h: ServerHello)
    requires WellFormed(h)
    ensures var full := EncodeGreeting(h, true);
      ParseGreeting(full[..|full| - 1])
        == Ok(Greeting(h.version, h.connectionId, h.salt, h.capability, h.status, h.pluginName))
  {
    var full := EncodeGreeting(h, true);
    var tail := GreetingExtension(h) + h.pluginName;
    var data := GreetingPrefix(h) + (GreetingFixed(h) + tail);
    assert full == data + [0];
    assert full[..|full| - 1] == data;
    var pos := |GreetingPrefix(h)|;
    PrefixEnds(h, GreetingFixed(h) + tail);
    assert data[pos..pos + 15] == GreetingFixed(h);
    FixedParse(h, data, pos);
    assert data[pos + 15..] == tail;
    UnterminatedExtensionParse(h, data, pos + 15);
  }

  /** The extension of a greeting whose plugin name runs to the end parses back. */
  lemma UnterminatedExtensionParse(h: ServerHello, data: seq<byte>, p: nat)
    requires WellFormed(h) && p + 29 <= |data|
    requires data[p..] == GreetingExtension(h) + h.pluginName
    ensures ParseExtension(data, p, Greeting(h.version, h.connectionId, h.salt[..8], h.capability % Pow16, 0, []))
      == Ok(Greeting(h.version, h.connectionId, h.salt, h.capability, h.status, h.pluginName))
  {
    assert data[p..p + 29] == data[p..][..29] == GreetingExtension(h);
    ExtensionFields(h, data, p);
    var rest := data[p + 29..];
    assert rest == data[p..][29..] == h.pluginName;
    assert IndexOf(rest, 0) == -1;
    assert h.salt[..8] + h.salt[8..] == h.salt;
    assert h.capability / Pow16 * Pow16 + h.capability % Pow16 == h.capability;
  }

  /** A greeting that ends after the low capability half parses with only the
      first 8 salt bytes, the low capability half, status 0 and no plugin name. */
  lemma ShortGreetingRoundTrip(h: ServerHello)
    requires WellFormed(h)
    ensures ParseGreeting(EncodeGreeting(h, false))
      == Ok(Greeting(h.version, h.connectionId, h.salt[..8], h.capability % Pow16, 0, []))
  {
    var data := EncodeGreeting(h, false);
    var pos := |GreetingPrefix(h)|;
    assert data == GreetingPrefix(h) + GreetingFixed(h);
    PrefixEnds(h, GreetingFixed(h));
    assert data[pos..pos + 15] == GreetingFixed(h);
    FixedParse(h, data, pos);
  }

  /** Cut anywhere inside the extended part, a greeting is refused. */
  lemma CutGreetingRefused(h: ServerHello, k: nat)
    requires WellFormed(h)
    requires |EncodeGreeting(h, false)| < k < |EncodeGreeting(h, false)| + 29
    ensures ParseGreeting(EncodeGreeting(h, true)[..k]) == Err(TruncatedGreeting)
  {
    var rest := (GreetingFixed(h) + GreetingExtension(h) + h.pluginName + [0])[..k - |GreetingPrefix(h)|];
    assert EncodeGreeting(h, true)[..k] == GreetingPrefix(h) + rest;
    PrefixEnds(h, rest);
  }

  // ---------------------------------------------------------------- the response

  /** The fixed 32-byte head of HandshakeResponse41: capability flags, a zero
      max-packet-size, the utf8 charset and 23 zero bytes. */
  function AuthHead(): (b: seq<byte>)
    ensures |b| == 32
  {
    LE32(ClientCapabilities) + Zeros(4) + [CharsetUtf8] + Zeros(23)
  }

  /** The HandshakeResponse41 payload: the fixed head, the NUL-terminated user
      name, and the length-prefixed scramble. */
  function AuthPayload(user: seq<byte>, auth: seq<byte>): (p: seq<byte>)
    ensures |p| == 4 + 4 + 1 + 23 + |user| + 1 + 1 + |auth|
  {
    AuthHead() + user + [0] + [|auth| % 256] + auth
  }

  /** The response fields a server reads back. */
  datatype AuthResponse = AuthResponse(capability: nat, charset: byte, user: seq<byte>, auth: seq<byte>)

  /** A server's decoding of a HandshakeResponse41 payload. */
  function ParseAuthResponse(p: seq<byte>): Option<AuthResponse>
  {
    if |p| < 32 then None
    else
      match ParseAuthTail(p[32..])
      case None => None
      case Some(fields) => Some(AuthResponse(ReadLE32(p[..4]), p[8], fields.0, fields.1))
  }

  /** After the fixed head: the NUL-terminated user name, then the scramble behind its length byte. */
  function ParseAuthTail(rest: seq<byte>): Option<(seq<byte>, seq<byte>)>
  {
    var nul := IndexOf(rest, 0);
    if nul == -1 then None
    else
      var after := rest[nul + 1..];
      if |after| == 0 || |after| - 1 < after[0] then None
      else Some((rest[..nul], after[1..1 + after[0]]))
  }

  /** The layout carries the capability word 500357, the utf8 charset, the user
      name and the scramble, for any user name free of NUL and any scramble
      shorter than 256 bytes. */
  lemma AuthPayloadRoundTrip(user: seq<byte>, auth: seq<byte>)
    requires 0 !in user && |auth| < 256
    ensures ParseAuthResponse(AuthPayload(user, auth)) == Some(AuthResponse(ClientCapabilities, CharsetUtf8, user, auth))
  {
    var p := AuthPayload(user, auth);
    var tail := user + [0] + ([|auth|] + auth);
    assert p == AuthHead() + tail;
    assert p[32..] == tail && p[..4] == AuthHead()[..4] && p[8] == AuthHead()[8];
    AuthTailRoundTrip(user, auth);
    AuthHeadFields();
  }

  /** The user name and the scramble read back from what follows the head. */
  lemma AuthTailRoundTrip(user: seq<byte>, auth: seq<byte>)
    requires 0 !in user && |auth| < 256
    ensures ParseAuthTail(user + [0] + ([|auth|] + auth)) == Some((user, auth))
  {
    var after := [|auth|] + auth;
    var rest := user + [0] + after;
    IndexOfTerminated(user, 0, after);
    assert rest[..|user|] == user;
    assert rest[|user| + 1..] == after;
    assert after[1..1 + |auth|] == auth;
  }

  lemma AuthHeadFields()
    ensures ReadLE32(AuthHead()[..4]) == ClientCapabilities && AuthHead()[8] == CharsetUtf8
  {
    assert AuthHead()[..4] == LE32(ClientCapabilities);
    LE32RoundTrip(ClientCapabilities);
  }

  /** The response buffer of handshake: `make([]byte, length + 4)` filled through
      the `pos` cursor, the first four bytes left for writePacket's header. */
  method BuildAuthResponse(user: seq<byte>, auth: seq<byte>) returns (data: array<byte>)
    ensures fresh(data)
    ensures data.Length == 4 + 4 + 4 + 1 + 23 + |user| + 1 + 1 + |auth|
    ensures data[..] == Zeros(4) + AuthPayload(user, auth)
  {
    var length := 4 + 4 + 1 + 23;
    length := length + |user| + 1;
    length := length + 1 + |auth|;
    data := new byte[length + 4](_ => 0);
    assert Filled(data[..], Zeros(4));
    var pos := PutAuthHead(data);
    ghost var prefix: seq<byte> := Zeros(4) + AuthHead();
    if |user| > 0 {
      pos := Put(data, pos, user, prefix);
    }
    prefix := prefix + user;
    FilledSkip(data[..], prefix, 1);
    prefix := prefix + Zeros(1);
    pos := pos + 1;
    var authLength: byte := |auth| % 256;
    pos := Put(data, pos, [authLength], prefix);
    prefix := prefix + [authLength];
    pos := Put(data, pos, auth, prefix);
    prefix := prefix + auth;
    AuthLayout(user, auth);
  }

  /** The fixed head of the response written after the room for the header: the
      capability word, four zero bytes, the charset and 23 zero bytes. */
  method PutAuthHead(data: array<byte>) returns (pos: nat)
    requires data.Length >= 36 && Filled(data[..], Zeros(4))
    modifies data
    ensures pos == 36 && Filled(data[..], Zeros(4) + AuthHead())
  {
    ghost var prefix: seq<byte> := Zeros(4);
    pos := Put(data, 4, LE32(ClientCapabilities), prefix);
    prefix := prefix + LE32(ClientCapabilities);
    FilledSkip(data[..], prefix, 4);
    prefix := prefix + Zeros(4);
    pos := Put(data, 12, [CharsetUtf8], prefix);
    prefix := prefix + [CharsetUtf8];
    FilledSkip(data[..], prefix, 23);
    prefix := prefix + Zeros(23);
    pos := 13 + 23;
    assert prefix == Zeros(4) + AuthHead();
  }

  /** The pieces BuildAuthResponse writes, in order, make up the payload after
      the room for the header. */
  lemma AuthLayout(user: seq<byte>, auth: seq<byte>)
    ensures Zeros(4) + AuthHead() + user + Zeros(1) + [|auth| % 256] + auth
      == Zeros(4) + AuthPayload(user, auth)
  {
    assert Zeros(1) == [0];
  }

  // ---------------------------------------------------------------- the reply

  /** The end of handshake: OK and any first byte other than ERR succeed; an ERR
      reply is decoded (HandleError) and fails the handshake. */
  function AuthReply(reply: Result<seq<byte>, ReadError>): (r: Outcome<HandshakeError>)
  {
    match reply
    case Err(e) => Fail(AuthReadFailed(e))
    case Ok(pk) =>
      if |pk| == 0 then Fail(NoAuthReply)
      else if pk[0] == OkHeader then Pass
      else if pk[0] == ErrHeader then Fail(AuthRejected(HandleError(pk)))
      else Pass
  }

  /** A reply is accepted exactly when it has a first byte and that byte is not ERR. */
  lemma AuthAcceptedIff(pk: seq<byte>)
    ensures AuthReply(Ok(pk)).Pass? <==> |pk| > 0 && pk[0] != ErrHeader
  {
  }

  /** A server's ERR_Packet fails the handshake with the server's own fields. */
  lemma AuthRejectedReport(e: ErrPacket)
    requires e.code < Pow16 && |e.state| == 5
    ensures AuthReply(Ok(EncodeErr(e))) == Fail(AuthRejected(Some(e)))
  {
    HandleErrorRoundTrip(e);
  }
}
