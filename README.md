# MySQL replication client: packet transport and session

This project models the core of a small Go client that connects to a MySQL
server as a replica. The client logs in with `mysql_native_password`,
registers as a replica (COM_REGISTER_SLAVE), turns binlog checksums off and
asks for the binlog stream (COM_BINLOG_DUMP). The model has two parts.

- **The packet transport** (`client/mysql/PacketIO.go`, module `Packet`).
  - A MySQL frame is a 3-byte little-endian length, a 1-byte sequence id,
    then the payload.
  - `readPacket` reads one logical message. A frame of 2^24-1 bytes is joined
    with the message that follows it. A frame of length 0 ends a message and
    its sequence id is not checked. A frame of length 1 is refused.
  - `writePacket` stamps headers into the caller's buffer and writes one or
    two frames. It splits only once.
  - `HandleError` decodes an ERR_Packet.
  - The `PacketIO` class keeps the sequence counter (a Go `uint8`, so it wraps
    at 256), the reader's unread input, the bytes the writer has taken so
    far, and a script of how the writer answers each `Write` call: it takes
    everything, fails, or takes only a prefix.
  - Each method is proved against a function on that state: `ReadMessage`
    for reads, `EmitFrames` over `FramesOf` for writes, `Stamped` for what the
    write leaves in the caller's buffer.
- **The session** (`client/mysql/Server.go`, modules `Handshake`, `Commands`
  and `Session`).
  - The handshake parses the HandshakeV10 greeting, computes the scrambled
    password and builds the HandshakeResponse41. It then reads the server's
    verdict.
  - The command payloads are COM_QUERY, the one-byte commands, COM_REGISTER_SLAVE
    and COM_BINLOG_DUMP. The handshake response and the register and dump
    buffers are filled through a `pos` cursor into a zeroed array, as the source
    fills them; the query buffer is zeroed and then copied into, and
    `writeCommand` sends a five-byte literal.
  - The replies are checked by `register` and `writeDumpCommand`. The dump
    loop classifies each packet it reads.
  - Class `Server` holds the configuration, the `PacketIO` and `registerSucc`.
    Each method is proved against a function on the transport state
    (`HandshakeOn`, `QueryOn`, `RegisterOn`, …).

The proved properties fall into five groups:

- Round trips:
  - framing: write then read, for every length that the single split frames
    correctly;
  - little-endian fields;
  - the greeting, the auth response, the register and dump requests, and the
    ERR_Packet;
  - the password scramble: the server's check succeeds.
- Exact error behaviour of the reader: empty frame, reserved length 1, wrong
  sequence id, input that ends inside a header or inside a payload.
- Frame counting: the counter advances once per frame, and a message of `n`
  bytes takes `n / (2^24-1) + 1` frames.
- Failure ordering of the writer: the trailing frame is written only after
  the first one went out whole.
- The replies that are accepted.

Three things the source calls become parameters of the model:

- SHA-1 is the parameter `sha1`.
- The host name from `os.Hostname` is a parameter of `Register`.
- The socket is the `PacketIO` state: the input the server will send, and
  the writer's fault script.

A Go panic (indexing an empty reply, slicing a short salt or a short ERR
packet) is modelled as an error value: `Unreadable`, `Undecodable`,
`ShortSalt`, `EmptyGreeting`, `TruncatedGreeting`, `NoAuthReply` (an empty
auth reply) and `AuthRejected(None)` (an ERR auth reply too short to decode).

## Model

| member | source | states |
|---|---|---|
| Wire.Uint16 | client/mysql/Server.go:276 | `uint16(port)` keeps the low 16 bits, so the result is below 2^16 |
| Wire.Uint32 | client/mysql/Server.go:258 | `uint32(id)` keeps the low 32 bits, so the result is below 2^32 |
| Wire.LE16 | client/mysql/Server.go:233 | `binary.LittleEndian.PutUint16` writes two bytes; `LE16RoundTrip` states they read back |
| Wire.LE32 | client/mysql/Server.go:229 | `binary.LittleEndian.PutUint32` writes four bytes; `LE32RoundTrip` states they read back |
| Wire.ReadLE16 | client/mysql/Server.go:149 | `binary.LittleEndian.Uint16` yields a value below 2^16 |
| Wire.ReadLE32 | client/mysql/Server.go:144 | `binary.LittleEndian.Uint32` yields a value below 2^32 |
| Wire.LE16RoundTrip | client/mysql/Server.go:276 | a 16-bit value written little-endian reads back unchanged |
| Wire.LE32RoundTrip | client/mysql/Server.go:258 | a 32-bit value written little-endian reads back unchanged |
| Wire.Xor | client/mysql/Server.go:47 | `^` on two bytes, with no contract of its own; `XorCancel` states that XOR-ing twice with the same byte gives the original back |
| Wire.XorBytes | client/mysql/Server.go:46-48 | the loop's result: as long as its inputs, each byte the XOR of the bytes at the same index |
| Wire.XorBytesCancel | client/mysql/Server.go:46-49 | XOR-ing with the same bytes twice restores the original, from either side |
| Wire.IndexOf | client/mysql/Server.go:143 | `bytes.IndexByte`: -1 exactly when the byte is absent; otherwise the index holds the byte and no earlier index does |
| Wire.IndexOfTerminated | client/mysql/Server.go:143 | a NUL after a NUL-free string is found right after it |
| Wire.Put | client/mysql/Server.go:194-200 | copying into the zeroed buffer at the cursor writes exactly those bytes and moves the cursor past them; the rest stays zero |
| Protocol.CapabilitiesAreNamedFlags | client/mysql/Server.go:177 | the capability word 500357 is exactly nine named client flags: PROTOCOL_41 and SECURE_CONNECTION are set, SSL and PLUGIN_AUTH are not |
| Packet.Next | client/mysql/PacketIO.go:39 | `p.seq++` on a uint8, with no contract of its own; it wraps 255 to 0, and `AdvanceNext` states how increments compose |
| Packet.Advance | client/mysql/PacketIO.go:73 | the counter after `k` increments modulo 256, with no contract of its own; `AdvanceNoWrap` and `AdvanceNext` state its laws |
| Packet.Header | client/mysql/PacketIO.go:79-82 | a header is four bytes ending in the sequence id; `HeaderLength` states the length it carries |
| Packet.AdvanceNext | client/mysql/PacketIO.go:39 | one increment then `k` more is `k + 1` increments of the wrapping counter |
| Packet.HeaderLength | client/mysql/PacketIO.go:79-82 | a stamped header reads back as its length modulo 2^24 |
| Packet.FrameLength | client/mysql/PacketIO.go:24 | the decoded length never exceeds 2^24-1 |
| Packet.WriteOnce | client/mysql/PacketIO.go:84-91 | one `Write` call succeeds exactly when the writer takes the whole frame, and then it emitted exactly that frame |
| Packet.FramesOf | client/mysql/PacketIO.go:62-91 | writePacket emits one frame, or two when the payload reaches 2^24-1 bytes |
| Packet.Stamped | client/mysql/PacketIO.go:63-82 | the buffer after writePacket has the same length as before |
| Packet.ReadMessage | client/mysql/PacketIO.go:17-58 | the reference readPacket is proved to follow, with no contract of its own; its branches are stated by the `Read…` lemmas below and by `WriteThenRead` |
| Packet.EmitFrames | client/mysql/PacketIO.go:68-91 | the Write calls of writePacket, with no contract of its own; `EmitStopsAtFailure`, `ReliableEmit` and `SplitEmit` state its behaviour |
| Packet.ReadOn | client/mysql/PacketIO.go:17-58 | reading changes neither the bytes sent nor the writer's script, and never grows the input |
| Packet.WriteOn | client/mysql/PacketIO.go:60-92 | writing leaves the input alone and only appends to the bytes sent |
| Packet.FrameCountQuotient | client/mysql/PacketIO.go:47-56 | a message of `n` bytes spans `n / (2^24-1) + 1` frames |
| Packet.ReadCountsInput | client/mysql/PacketIO.go:17-58 | a read never returns more input than it was given |
| Packet.PacketIO.constructor | client/mysql/PacketIO.go:11-15 | a fresh PacketIO starts at sequence 0 with nothing sent |
| Packet.PacketIO.ReadFull | client/mysql/PacketIO.go:20-22 | `io.ReadFull`: the next `n` bytes when there are that many, otherwise an error and the input is used up |
| Packet.PacketIO.Write | client/mysql/PacketIO.go:84-87 | the writer takes the prefix its script allows, appends it to what was sent and reports failure as scripted |
| Packet.PacketIO.ReadPacket | client/mysql/PacketIO.go:17-58 | the result, counter and remaining input are exactly those of `ReadMessage` on the old input and counter |
| Packet.PacketIO.WritePacket | client/mysql/PacketIO.go:60-92 | the result, bytes sent, counter and writer script follow `EmitFrames` of `FramesOf`, and the caller's buffer becomes `Stamped` |
| Packet.PacketIO.WriteSplit | client/mysql/PacketIO.go:62-77 | the split branch: the full frame first, and the trailing frame only if the first went out whole |
| Packet.PacketIO.WriteTrailing | client/mysql/PacketIO.go:73-91 | after a whole first frame: the trailing header over the last four bytes already sent, then the trailing frame |
| Packet.PacketIO.WriteFrame | client/mysql/PacketIO.go:79-91 | one frame: the header is stamped at its offset, one `Write` call is made, and the counter advances only when it succeeds |
| Packet.StampHeader | client/mysql/PacketIO.go:79-82 | the four header stores overwrite exactly four bytes with the header |
| Packet.SplitEmit | client/mysql/PacketIO.go:62-91 | a split write fails at the first frame without touching the second, or writes the first whole and then the second |
| Packet.EmitOne | client/mysql/PacketIO.go:84-91 | a single-frame write is one `Write` call |
| Packet.ReadEmptyFrame | client/mysql/PacketIO.go:25-28 | a frame of length 0 is an empty message, whatever its sequence id, and the counter advances |
| Packet.ReadReservedLength | client/mysql/PacketIO.go:30-32 | a frame of length 1 is refused with the counter left unchanged |
| Packet.ReadWrongSequence | client/mysql/PacketIO.go:34-37 | a frame with the wrong sequence id is refused before its payload is read |
| Packet.ReadTruncatedHeader | client/mysql/PacketIO.go:19-22 | input that ends inside a header is refused, the counter stays and the input is used up |
| Packet.ReadTruncatedPayload | client/mysql/PacketIO.go:39-42 | a payload that runs past the end of the input is refused after the counter moved, and the input is used up |
| Packet.ReadSingleFrame | client/mysql/PacketIO.go:39-45 | a short frame with the expected id is the whole message, and the rest of the input is untouched |
| Packet.ReadFullFrame | client/mysql/PacketIO.go:47-56 | a full frame is joined with the message read after it, and errors after it propagate |
| Packet.ReadCountsFrames | client/mysql/PacketIO.go:17-58 | a successful read consumes its payload plus one header per frame, and the counter advances once per frame |
| Packet.ReadCountsFullFrame | client/mysql/PacketIO.go:47-56 | the recursive case of the frame count |
| Packet.ReadCountsOneFrame | client/mysql/PacketIO.go:24-45 | the single-frame case of the frame count |
| Packet.WriteThenRead | client/mysql/PacketIO.go:17-92 | a payload written and then read back with the same starting counter is returned whole, the counter advances by the frame count, and the following input is left |
| Packet.SplitThenRead | client/mysql/PacketIO.go:47-77 | the same round trip for two-frame payloads |
| Packet.OneByteFrameRejected | client/mysql/PacketIO.go:30-32 | payloads of 1 byte, or of 2^24 bytes, go out with a length-1 frame that the reader refuses |
| Packet.TwoFullFramesNeverEnd | client/mysql/PacketIO.go:62-77 | a payload of exactly 2·(2^24-1) bytes ends in a full frame, so the reader runs out of input |
| Packet.StampedBuffer | client/mysql/PacketIO.go:63-82 | what writePacket leaves in the caller's buffer: the first header, the trailing header only if the first frame went out, and every other byte unchanged |
| Packet.ReliableEmit | client/mysql/PacketIO.go:60-92 | with a writer that never fails, every frame goes out whole and in order |
| Packet.EmitStopsAtFailure | client/mysql/PacketIO.go:68-91 | a failed or short write stops the frames after it: what was sent is the frames before the failing one and a prefix of that one, and nothing later |
| Packet.EmitAfterFirstFails | client/mysql/PacketIO.go:68-91 | after a first frame written in full, a later failure still leaves the output within the frames up to and including the failing one |
| Packet.HandleError | client/mysql/PacketIO.go:94-103 | an ERR_Packet decodes exactly when it has at least 9 bytes, giving a 16-bit code, a 5-byte state and the message |
| Packet.HandleErrorRoundTrip | client/mysql/PacketIO.go:94-103 | an ERR_Packet laid out by a server decodes to its own fields |
| Packet.HandleErrorSkipsMarker | client/mysql/PacketIO.go:98 | the `#` marker byte is skipped whatever it holds |
| Handshake.Scramble | client/mysql/Server.go:32-51 | the scramble is 20 bytes long |
| Handshake.CalPassword | client/mysql/Server.go:32-51 | the loop computes `SHA1(salt ++ SHA1(SHA1(pw))) XOR SHA1(pw)` |
| Handshake.ScrambleUnmask | client/mysql/Server.go:46-49 | XOR with SHA1(password) recovers the salted hash |
| Handshake.ScrambleVerifies | client/mysql/Server.go:32-51 | a server that stores only SHA1(SHA1(password)) can verify the scramble |
| Handshake.ParseGreeting | client/mysql/Server.go:130-172 | an empty greeting, an ERR greeting and a protocol version below 10 are refused as such; a parsed greeting has an 8- or 20-byte salt |
| Handshake.ParseFields | client/mysql/Server.go:143-151 | the connection id, 8 salt bytes and the low capability half at their offsets |
| Handshake.ParseExtension | client/mysql/Server.go:155-172 | the status, the high capability half and the rest of the salt at their offsets |
| Handshake.FixedFields | client/mysql/Server.go:143-149 | the fixed fields that a server lays out are read at the offsets the parse uses |
| Handshake.ExtensionFields | client/mysql/Server.go:155-172 | the extension fields that a server lays out are read at the offsets the parse uses |
| Handshake.PrefixEnds | client/mysql/Server.go:143 | the version string ends at its NUL, so the fields start right after it |
| Handshake.GreetingRoundTrip | client/mysql/Server.go:130-172 | a full greeting parses back to the server's version, connection id, 20-byte salt, capabilities and status |
| Handshake.FixedParse | client/mysql/Server.go:143-151 | the fixed part parses and hands on to the extension |
| Handshake.ExtensionParse | client/mysql/Server.go:155-172 | the extension parses back to the server's fields |
| Handshake.UnterminatedPluginName | client/mysql/Server.go:167-171 | a greeting whose plugin name lacks its NUL still parses, with the name running to the end of the packet |
| Handshake.UnterminatedExtensionParse | client/mysql/Server.go:155-171 | an extension whose plugin name is not terminated parses back to the server's fields and the whole name |
| Handshake.ShortGreetingRoundTrip | client/mysql/Server.go:143-155 | a greeting ending after the low capability half parses with an 8-byte salt |
| Handshake.CutGreetingRefused | client/mysql/Server.go:155-172 | a greeting cut inside its extended part is refused |
| Handshake.AuthHead | client/mysql/Server.go:184-193 | the fixed head is 32 bytes; `AuthHeadFields` states its capability word and charset |
| Handshake.AuthPayload | client/mysql/Server.go:176-200 | the response length is the fixed head plus the user, NUL, length byte and scramble |
| Handshake.AuthPayloadRoundTrip | client/mysql/Server.go:176-200 | a server reading the response gets capabilities 500357, charset utf8, the user and the scramble |
| Handshake.AuthHeadFields | client/mysql/Server.go:186-192 | the fixed head carries the capability word and the charset |
| Handshake.BuildAuthResponse | client/mysql/Server.go:176-200 | the buffer is four bytes of header room followed by the response payload |
| Handshake.PutAuthHead | client/mysql/Server.go:184-193 | the fixed head is written after the header room, and the cursor ends at 36 |
| Handshake.AuthReply | client/mysql/Server.go:207-220 | the reply check, with no contract of its own; `AuthAcceptedIff` and `AuthRejectedReport` state it |
| Handshake.AuthAcceptedIff | client/mysql/Server.go:207-220 | a reply is accepted exactly when it has a first byte and that byte is not ERR |
| Handshake.AuthRejectedReport | client/mysql/Server.go:215-217 | an ERR reply fails the handshake with the server's own fields |
| Commands.QueryPayload | client/mysql/Server.go:310-313 | COM_QUERY is one byte longer than the text; `QueryRoundTrip` states the text reads back |
| Commands.CommandPayload | client/mysql/Server.go:299-305 | a one-byte command is one byte long; `CommandFrameMatchesLiteral` states the frame it makes |
| Commands.LengthPrefixed | client/mysql/Server.go:261-274 | a prefixed field is one byte longer than the field; `TakeFieldRoundTrip` states it reads back below 256 bytes |
| Commands.RegisterTail | client/mysql/Server.go:276-283 | the tail is 10 bytes; `RegisterTailRoundTrip` states its fields read back |
| Commands.RegisterPayload | client/mysql/Server.go:254-283 | the register request is exactly as long as the buffer the source allocates |
| Commands.BinlogDumpPayload | client/mysql/Server.go:225-239 | the dump request is exactly as long as the buffer the source allocates |
| Commands.TakeFieldRoundTrip | client/mysql/Server.go:261-274 | a field shorter than 256 bytes reads back whole behind its length byte |
| Commands.QueryRoundTrip | client/mysql/Server.go:310-313 | the query text reads back from COM_QUERY |
| Commands.RegisterFields | client/mysql/Server.go:261-274 | host name, user and password, each behind its uint8 length byte: the layout is exactly as long as the three prefixed fields |
| Commands.RegisterFieldsRoundTrip | client/mysql/Server.go:261-274 | host, user and password read back one after the other, leaving the tail |
| Commands.RegisterRoundTrip | client/mysql/Server.go:252-283 | the request carries the low 32 bits of the server id, the three fields, the low 16 bits of the port, and zero rank and master id |
| Commands.RegisterTailRoundTrip | client/mysql/Server.go:276-283 | the port, rank and master id read back |
| Commands.LongHostMisframed | client/mysql/Server.go:261 | a host name of 256 bytes or more gets its length modulo 256 as length byte, and a server cannot read the host name back |
| Commands.BinlogDumpRoundTrip | client/mysql/Server.go:225-239 | the request carries the low 32 bits of the position and server id, zero flags and the file name |
| Commands.BuildQuery | client/mysql/Server.go:310-313 | the buffer is header room followed by COM_QUERY and the text |
| Commands.BuildCommand | client/mysql/Server.go:299-305 | the buffer is the literal header followed by the command byte |
| Commands.BuildRegister | client/mysql/Server.go:254-283 | the buffer filled through the cursor is header room followed by the register payload |
| Commands.PutField | client/mysql/Server.go:261-274 | the length byte and the field are written at the cursor |
| Commands.BuildBinlogDump | client/mysql/Server.go:225-239 | the buffer filled through the cursor is header room followed by the dump payload |
| Session.Acknowledge | client/mysql/Server.go:243-248 | OK exactly when the reply's first byte is OK; refused with the reply's own ERR fields exactly when it is long enough to decode |
| Session.Classify | client/mysql/Server.go:81-102 | failed reads and empty packets are skipped; OK-marked packets are events whose body is the rest; other decodable packets are reported |
| Session.HandshakeOn | client/mysql/Server.go:115-221 | the client writes only after it has read and parsed a greeting |
| Session.SendCommand | client/mysql/Server.go:297-306 | a command leaves the input alone and only appends to the bytes sent |
| Session.QueryOn | client/mysql/Server.go:308-315 | query on the transport state, with no contract of its own; `QueryReachesServer` states what a server reads |
| Session.InvalidChecksumOn | client/mysql/Server.go:106-113 | invalidChecksum on the transport state: the query `SET @master_binlog_checksum='NONE'`, then one read; no contract of its own |
| Session.RegisterOn | client/mysql/Server.go:251-295 | register only appends to the bytes sent; the reply check decodes the reply, not the request as line 293 does (see Findings) |
| Session.DumpCommandOn | client/mysql/Server.go:223-249 | writeDumpCommand only appends to the bytes sent |
| Session.ReceiveOn | client/mysql/Server.go:85 | one turn of the dump loop sends nothing |
| Session.Server.constructor | client/mysql/Server.go:53-59 | a new Server has its configuration, no PacketIO and `registerSucc` false |
| Session.Server.Handshake | client/mysql/Server.go:115-221 | the result and the new PacketIO's state are those of `HandshakeOn` from a fresh link |
| Session.Server.Query | client/mysql/Server.go:308-315 | the result and the new state are those of `QueryOn` |
| Session.Server.WriteCommand | client/mysql/Server.go:297-306 | the new state is a command send from counter 0 |
| Session.Server.Quit | client/mysql/Server.go:317-324 | the new state is a COM_QUIT send |
| Session.Server.InvalidChecksum | client/mysql/Server.go:106-113 | the new state is the checksum query followed by one read |
| Session.Server.Register | client/mysql/Server.go:251-295 | the verdict and the new state are those of `RegisterOn`; `registerSucc` becomes true exactly on OK; an ERR reply is decoded from the reply, not from the request as line 293 does (see Findings) |
| Session.Server.WriteDumpCommand | client/mysql/Server.go:223-249 | the verdict and the new state are those of `DumpCommandOn` |
| Session.Server.ReceiveEvent | client/mysql/Server.go:81-102 | the classification and the new state are those of `ReceiveOn` |
| Session.HandshakeWithServer | client/mysql/Server.go:115-221 | against a well-formed greeting and a reliable socket, the client sends exactly one frame with sequence id 1 holding the scramble of the greeting's salt, and ends with the reply's verdict |
| Session.ReliableSendCommand | client/mysql/Server.go:297-306 | on a reliable socket a command goes out as its frames from id 0, whatever the counter was |
| Session.CommandReachesServer | client/mysql/Server.go:297-306 | a server reading from id 0 gets the command back whole and then expects the next id |
| Session.RegisterReachesServer | client/mysql/Server.go:252-285 | a server decodes the register request to the configured fields |
| Session.DumpRequestReachesServer | client/mysql/Server.go:224-241 | a server decodes the dump request to the configured position, server id and file, in one or two frames |
| Session.QueryReachesServer | client/mysql/Server.go:308-315 | a server reads the query text back, in two frames when it is long |
| Session.CommandFrameMatchesLiteral | client/mysql/Server.go:299-305 | the header that writePacket stamps on a one-byte command equals the literal the buffer starts with |
| Session.ServerErrorReported | client/mysql/Server.go:100-101 | an ERR_Packet is reported with the server's own fields by register (as corrected; see Findings), writeDumpCommand and the dump loop |
| Session.EventForwarded | client/mysql/Server.go:92-94 | the dump loop hands exactly the bytes after the OK marker to the binlog parser |
| Session.EofNotRecognised | client/mysql/Server.go:92-102 | an EOF_Packet in the dump loop is decoded as if it were an ERR_Packet, or cannot be decoded at all |
| Session.AcknowledgeAsWritten | client/mysql/Server.go:288-294 | the reply check as written: an error is decoded from the request buffer, so a report's state is the request's bytes 4-8 |
| Session.RegisterRefusalMisreported | client/mysql/Server.go:293 | a refusal whose SQL state does not start with 0x15 is misreported as written, and reported correctly once the reply is decoded |

## Left out

- Dialling, keep-alive, `bufio` and `Close` are not modelled. The socket is
  the input the server will send plus a script of how each `Write` call
  behaves.
- SHA-1 itself is not modelled; it is the function parameter `sha1`.
- `os.Hostname` is a parameter of `Register`, and its error is not modelled.
- The binlog event parser that the dump loop hands events to is not part of
  this model.
- `Run`, its `defer`, and `dump`'s endless loop are not modelled.
  `ReceiveEvent` models one turn of the loop. `dump`'s sequence of calls
  (handshake, invalidChecksum, register, writeDumpCommand, then the loop) and
  its panic on a handshake error are not modelled as a single method.
- A failing `Write` may take some bytes before its error (`Broken(accepted)`);
  the source ignores the count in that case, and so does the model.
- Printing is not modelled. `HandleError` returns the fields that the source
  prints, and `Acknowledge` returns the verdict that the source prints.
- Go panics are modelled as error values: `Unreadable`, `Undecodable`,
  `ShortSalt`, `EmptyGreeting`, `TruncatedGreeting`, `NoAuthReply` and
  `AuthRejected(None)`. The source crashes instead.
- Slice aliasing is not modelled:
  - The greeting's salt is a fresh sequence. The source's `append` can write
    into spare capacity of the read buffer.
  - `salt[:20]` on a shorter salt reads capacity in Go; the model gives
    `ShortSalt`.
- `client/mysql/Client.go`, `client/mysql/Config.go` and `main.go` are not
  part of this model.
- Packet.FramesOf: payloads of 2·(2^24-1) bytes or more are framed only once,
  as the source does. The round trip is stated only below that bound (see
  `Packet.TwoFullFramesNeverEnd`).
- Packet.WriteThenRead: excludes payloads of 1 and 2^24 bytes. Those go out as
  length-1 frames that the reader refuses (`Packet.OneByteFrameRejected`).
- Session.QueryReachesServer: excludes the empty query and queries of exactly
  2^24-1 bytes, whose payloads are 1 and 2^24 bytes.
- Session.RegisterReachesServer: stated only for host name, user and password
  shorter than 256 bytes, because `uint8(len(v))` truncates the length byte
  (`Commands.LongHostMisframed`).
- The code is followed where the protocol's usual description differs:
  - An empty password is hashed like any other. No empty scramble is sent.
  - Any first byte of the auth reply other than ERR counts as success.
  - In the dump loop, an EOF_Packet is handed to `HandleError`.

## Findings

| source | as written | input that shows it | evidently intended | confidence | as-written member | corrected member |
|---|---|---|---|---|---|---|
| client/mysql/Server.go:293 | `register` passes its request buffer `data`, not the reply `res`, to `HandleError` | a reply that is an ERR_Packet whose SQL state does not start with byte 0x15 (for example state `HY000`) is reported with the request's bytes instead of the server's error | `HandleError(res)`, as `writeDumpCommand` does | not executed | Session.AcknowledgeAsWritten | Session.Acknowledge |
