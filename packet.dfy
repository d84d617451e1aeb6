/** The packet transport of client/mysql/PacketIO.go: MySQL frames are a 3-byte
    little-endian payload length, a 1-byte sequence id and the payload. A frame of
    exactly MaxPayloadLength bytes continues in the next frame.

    The buffered reader is modelled as the byte stream the peer will send
    (`input`), the writer as the bytes it has accepted so far (`sent`) together
    with a script of how its next writes behave (`faults`). */
module Packet {
  import opened Wire

  /** 2^24 - 1: the largest length a frame header can carry. */
  const MaxPayloadLength: nat := 0xFF_FFFF

  /** The 8-bit sequence counter after one more frame (`p.seq++` on a uint8). */
  function Next(s: byte): byte
  {
    (s + 1) % 256
  }

  /** The sequence counter after `k` more frames. */
  function Advance(s: byte, k: nat): byte
  {
    (s + k) % 256
  }

  /** The counter does not wrap while it stays below 256. */
  lemma AdvanceNoWrap(s: byte, k: nat)
    requires s + k < 256
    ensures Advance(s, k) == s + k
  {
  }

  lemma AdvanceNext(s: byte, k: nat)
    ensures Advance(Next(s), k) == Advance(s, k + 1)
  {
    var t := (s + 1) / 256;
    assert Next(s) == s + 1 - 256 * t;
    assert (s + 1 - 256 * t + k) % 256 == (s + 1 + k) % 256;
  }

  /** The header writePacket stamps: `byte(length)`, `byte(length >> 8)`,
      `byte(length >> 16)` and the sequence id. */
  function Header(length: nat, s: byte): (h: seq<byte>)
    ensures |h| == 4 && h[3] == s
  {
    [length % 0x100, (length / 0x100) % 0x100, (length / 0x1_0000) % 0x100, s]
  }

  /** The length readPacket decodes: `h0 | h1 << 8 | h2 << 16`. */
  function FrameLength(h: seq<byte>): (n: nat)
    requires |h| >= 3
    ensures n <= MaxPayloadLength
  {
    h[0] as int + 0x100 * (h[1] as int) + 0x1_0000 * (h[2] as int)
  }

  /** A stamped header reads back as the length modulo 2^24: lengths of 2^24 or
      more are silently truncated. */
  lemma HeaderLength(n: nat, s: byte)
    ensures FrameLength(Header(n, s)) == n % 0x100_0000
  {
    var q1 := n / 0x100;
    var q2 := q1 / 0x100;
    var q3 := q2 / 0x100;
    assert n == q1 * 0x100 + n % 0x100;
    assert q1 == q2 * 0x100 + q1 % 0x100;
    assert q2 == q3 * 0x100 + q2 % 0x100;
    DivModPow16(n, q2, n % 0x100 + 0x100 * (q1 % 0x100));
    DivModPow24(n, q3, n % 0x100 + 0x100 * (q1 % 0x100) + 0x1_0000 * (q2 % 0x100));
  }

  // ---------------------------------------------------------------- reading

  datatype ReadError =
    | UnexpectedEof          // io.ReadFull ran out of input
    | InvalidPayload         // a frame declared length 1
    | InvalidSeq(got: byte)  // the frame's sequence id is not the expected one

  /** What a read returns, and the counter and unread input it leaves behind. */
  datatype ReadStep = ReadStep(result: Result<seq<byte>, ReadError>, sequence: byte, rest: seq<byte>)

  /** One logical message read from `input` with expected sequence id `s`: the
      reference that readPacket is proved to follow. A frame of length 0 ends the
      message without its sequence id being looked at; a frame of length 1 or with
      a wrong sequence id is refused before the counter moves; a frame of exactly
      MaxPayloadLength bytes is joined with the next logical message. */
  function ReadMessage(input: seq<byte>, s: byte): ReadStep
    decreases |input|
  {
    if |input| < 4 then ReadStep(Err(UnexpectedEof), s, [])
    else
      var length := FrameLength(input);
      var body := input[4..];
      if length == 0 then ReadStep(Ok([]), Next(s), body)
      else if length == 1 then ReadStep(Err(InvalidPayload), s, body)
      else if input[3] != s then ReadStep(Err(InvalidSeq(input[3])), s, body)
      else if |body| < length then ReadStep(Err(UnexpectedEof), Next(s), [])
      else if length < MaxPayloadLength then ReadStep(Ok(body[..length]), Next(s), body[length..])
      else
        var tail := ReadMessage(body[length..], Next(s));
        if tail.result.Err? then tail
        else ReadStep(Ok(body[..length] + tail.result.value), tail.sequence, tail.rest)
  }

  // ---------------------------------------------------------------- writing

  /** How the writer answers one `Write` call: it takes everything, fails with an
      error after taking the first `accepted` bytes, or takes only the first
      `accepted` bytes without an error. Once the script runs out, every write
      completes. */
  datatype WriteOutcome = Complete | Broken(accepted: nat) | Short(accepted: nat)

  datatype WriteError =
    | WriteFailed             // the writer returned an error
    | ShortWrite(written: nat) // the writer took fewer bytes than it was given

  /** The bytes the writer takes from `buf` on its next call. */
  function Accepted(buf: seq<byte>, faults: seq<WriteOutcome>): (took: seq<byte>)
    ensures took <= buf
  {
    if faults == [] then buf
    else match faults[0]
      case Complete => buf
      case Broken(k) => if k < |buf| then buf[..k] else buf
      case Short(k) => if k < |buf| then buf[..k] else buf
  }

  function Remaining(faults: seq<WriteOutcome>): seq<WriteOutcome>
  {
    if faults == [] then [] else faults[1..]
  }

  function Flatten(frames: seq<seq<byte>>): seq<byte>
  {
    if frames == [] then [] else frames[0] + Flatten(frames[1..])
  }

  /** The frames writePacket emits for payload `p` with counter `s`: a payload of
      MaxPayloadLength bytes or more is split once, into a full frame and a
      trailing frame holding all the rest. */
  function FramesOf(p: seq<byte>, s: byte): (frames: seq<seq<byte>>)
    ensures 1 <= |frames| <= 2
  {
    if |p| >= MaxPayloadLength then
      [Header(MaxPayloadLength, s) + p[..MaxPayloadLength],
       Header(|p| - MaxPayloadLength, Next(s)) + p[MaxPayloadLength..]]
    else [Header(|p|, s) + p]
  }

  /** All bytes of a payload as writePacket puts them on the wire. */
  function Framed(p: seq<byte>, s: byte): seq<byte>
  {
    Flatten(FramesOf(p, s))
  }

  /** What writing `frames` one `Write` call each produces: the error of the first
      call that fails or is short, the bytes the writer took, how many frames were
      written in full, and the writer's script afterwards. */
  datatype Emitted = Emitted(result: Outcome<WriteError>, out: seq<byte>, written: nat, faults: seq<WriteOutcome>)

  /** One `Write` call of a whole frame: it fails if the writer errs or takes only
      part of the frame, and counts one frame written otherwise. */
  function WriteOnce(frame: seq<byte>, faults: seq<WriteOutcome>): (w: Emitted)
    ensures w.result.Pass? <==> w.written == 1
    ensures w.result.Pass? ==> w.out == frame
    ensures w.faults == Remaining(faults)
  {
    var took := Accepted(frame, faults);
    var left := Remaining(faults);
    if faults != [] && faults[0].Broken? then Emitted(Fail(WriteFailed), took, 0, left)
    else if |took| != |frame| then Emitted(Fail(ShortWrite(|took|)), took, 0, left)
    else Emitted(Pass, frame, 1, left)
  }

  function EmitFrames(frames: seq<seq<byte>>, faults: seq<WriteOutcome>): Emitted
    decreases |frames|
  {
    if frames == [] then Emitted(Pass, [], 0, faults)
    else
      var w := WriteOnce(frames[0], faults);
      if w.result.Fail? then w
      else EmitAfter(frames[0], EmitFrames(frames[1..], w.faults))
  }

  /** `buf` with the four bytes at `offset` overwritten by the header `h`. */
  function Restamp(buf: seq<byte>, offset: nat, h: seq<byte>): (r: seq<byte>)
    requires |h| == 4 && offset + 4 <= |buf|
    ensures |r| == |buf|
  {
    buf[..offset] + h + buf[offset + 4..]
  }

  /** The caller's buffer after writePacket: the header is stamped over its first
      four bytes; after a split whose first frame went out, the trailing frame's
      header is stamped over the four bytes at offset MaxPayloadLength. */
  function Stamped(buf: seq<byte>, s: byte, firstSent: bool): (r: seq<byte>)
    requires |buf| >= 4
    ensures |r| == |buf|
  {
    var length := |buf| - 4;
    if length < MaxPayloadLength then Restamp(buf, 0, Header(length, s))
    else
      var once := Restamp(buf, 0, Header(MaxPayloadLength, s));
      if firstSent then Restamp(once, MaxPayloadLength, Header(length - MaxPayloadLength, Next(s)))
      else once
  }

  // ---------------------------------------------------------------- the transport as a value

  /** The state of a PacketIO: its counter, the reader's unread input, and the
      writer's accepted bytes and script. */
  datatype Link = Link(sequence: byte, input: seq<byte>, sent: seq<byte>, faults: seq<WriteOutcome>)

  datatype Received = Received(result: Result<seq<byte>, ReadError>, link: Link)

  datatype Delivered = Delivered(result: Outcome<WriteError>, link: Link)

  /** readPacket on a link: one message read, the counter and input moved on. */
  function ReadOn(l: Link): (r: Received)
    ensures r.link.sent == l.sent && r.link.faults == l.faults
    ensures |r.link.input| <= |l.input|
  {
    var st := ReadMessage(l.input, l.sequence);
    ReadCountsInput(l.input, l.sequence);
    Received(st.result, l.(sequence := st.sequence, input := st.rest))
  }

  /** writePacket of `payload` on a link: its frames handed to the writer. */
  function WriteOn(l: Link, payload: seq<byte>): (r: Delivered)
    ensures r.link.input == l.input
    ensures l.sent <= r.link.sent
  {
    var w := EmitFrames(FramesOf(payload, l.sequence), l.faults);
    Delivered(w.result, l.(sequence := Advance(l.sequence, w.written), sent := l.sent + w.out, faults := w.faults))
  }

  /** Division by MaxPayloadLength has exactly one quotient and remainder. */
  lemma DivModMax(n: int, q: int, r: int)
    requires 0 <= r < MaxPayloadLength && n == q * MaxPayloadLength + r
    ensures n / MaxPayloadLength == q
  {
  }

  /** The number of frames a message of `n` bytes takes on the wire: one per
      full frame it starts with, and the short frame that ends it. */
  function FrameCount(n: nat): (k: nat)
    ensures k >= 1
  {
    if n < MaxPayloadLength then 1 else 1 + FrameCount(n - MaxPayloadLength)
  }

  /** The frame count is the quotient by the maximal frame length, plus one. */
  lemma {:induction false} FrameCountQuotient(n: nat)
    ensures FrameCount(n) == n / MaxPayloadLength + 1
  {
    if n < MaxPayloadLength {
      DivModMax(n, 0, n);
    } else {
      FrameCountQuotient(n - MaxPayloadLength);
      var q := (n - MaxPayloadLength) / MaxPayloadLength;
      var r := (n - MaxPayloadLength) % MaxPayloadLength;
      assert n - MaxPayloadLength == q * MaxPayloadLength + r;
      DivModMax(n, q + 1, r);
    }
  }

  /** Reading never grows the input. */
  lemma {:induction false} ReadCountsInput(input: seq<byte>, s: byte)
    ensures |ReadMessage(input, s).rest| <= |input|
    decreases |input|
  {
    if |input| >= 4 {
      var length := FrameLength(input);
      var body := input[4..];
      if 2 <= length && input[3] == s && |body| >= length && length >= MaxPayloadLength {
        ReadCountsInput(body[length..], Next(s));
      }
    }
  }

  // ---------------------------------------------------------------- the transport

  class PacketIO {
    /** The sequence id expected of the next frame read, and stamped on the next frame written. */
    var sequence: byte
    /** The bytes the reader has still to deliver. */
    var input: seq<byte>
    /** The bytes the writer has taken so far. */
    var sent: seq<byte>
    /** How the writer's next calls behave. */
    var faults: seq<WriteOutcome>

    /** The whole state as a value. */
    function State(): Link
      reads this
    {
      Link(sequence, input, sent, faults)
    }

    constructor (input: seq<byte>, faults: seq<WriteOutcome>)
      ensures sequence == 0 && this.input == input && sent == [] && this.faults == faults
    {
      sequence := 0;
      this.input := input;
      sent := [];
      this.faults := faults;
    }

    /** `io.ReadFull(p.r, buf)` for a buffer of `n` bytes: on running out of input it
        consumes what is there and fails. */
    method ReadFull(n: nat) returns (r: Option<seq<byte>>)
      modifies this`input
      ensures n <= |old(input)| ==> r == Some(old(input)[..n]) && input == old(input)[n..]
      ensures n > |old(input)| ==> r == None && input == []
    {
      if n <= |input| {
        r := Some(input[..n]);
        input := input[n..];
      } else {
        r := None;
        input := [];
      }
    }

    /** `p.w.Write(buf)`: returns how many bytes were taken and whether it failed. */
    method Write(buf: seq<byte>) returns (n: nat, failed: bool)
      modifies this`sent, this`faults
      ensures failed == (old(faults) != [] && old(faults)[0].Broken?)
      ensures n == |Accepted(buf, old(faults))|
      ensures sent == old(sent) + Accepted(buf, old(faults))
      ensures faults == Remaining(old(faults))
    {
      var took := Accepted(buf, faults);
      failed := faults != [] && faults[0].Broken?;
      n := |took|;
      sent := sent + took;
      faults := Remaining(faults);
    }

    /** readPacket: reads one logical message, joining continuation frames. */
    method ReadPacket() returns (r: Result<seq<byte>, ReadError>)
      modifies this`sequence, this`input
      ensures ReadStep(r, sequence, input) == ReadMessage(old(input), old(sequence))
      decreases |input|
    {
      ghost var input0, s0 := input, sequence;
      var header := ReadFull(4);
      if header.None? {
        return Err(UnexpectedEof);
      }
      var h := header.value;
      var length := FrameLength(h);
      ghost var body := input0[4..];
      assert input == body && length == FrameLength(input0) && h[3] == input0[3];
      if length == 0 {
        sequence := Next(sequence);
        return Ok([]);
      }
      if length == 1 {
        return Err(InvalidPayload);
      }
      if sequence != h[3] {
        return Err(InvalidSeq(h[3]));
      }
      sequence := Next(sequence);
      var data := ReadFull(length);
      if data.None? {
        return Err(UnexpectedEof);
      }
      assert data.value == body[..length] && input == body[length..];
      if length < MaxPayloadLength {
        return Ok(data.value);
      }
      ghost var tail := ReadMessage(input, sequence);
      assert ReadMessage(input0, s0)
        == if tail.result.Err? then tail
           else ReadStep(Ok(body[..length] + tail.result.value), tail.sequence, tail.rest);
      var buf := ReadPacket();
      if buf.Err? {
        return Err(buf.error);
      }
      if |buf.value| == 0 {
        assert data.value + buf.value == data.value;
        return Ok(data.value);
      }
      return Ok(data.value + buf.value);
    }

    /** writePacket: `data[4..]` is the payload, `data[..4]` the room for its header.
        Stamps the header(s) into `data` in place and writes the frame(s); the
        counter moves on once for every frame the writer took in full. */
    method WritePacket(data: array<byte>) returns (r: Outcome<WriteError>)
      requires data.Length >= 4
      modifies this`sequence, this`sent, this`faults, data
      ensures var w := EmitFrames(FramesOf(old(data[4..]), old(sequence)), old(faults));
        && r == w.result
        && sent == old(sent) + w.out
        && faults == w.faults
        && sequence == Advance(old(sequence), w.written)
        && data[..] == Stamped(old(data[..]), old(sequence), w.written > 0)
    {
      var length := data.Length - 4;
      if length >= MaxPayloadLength {
        r := WriteSplit(data);
      } else {
        ghost var frame := Header(length, sequence) + data[4..];
        EmitOne(frame, faults);
        r := WriteFrame(data, 0, data.Length, length, frame);
      }
    }

    /** The split branch of writePacket: the full frame, then, if it went out
        whole, the trailing frame stamped and written from offset MaxPayloadLength. */
    method WriteSplit(data: array<byte>) returns (r: Outcome<WriteError>)
      requires data.Length >= 4 + MaxPayloadLength
      modifies this`sequence, this`sent, this`faults, data
      ensures var w := EmitFrames(FramesOf(old(data[4..]), old(sequence)), old(faults));
        && r == w.result
        && sent == old(sent) + w.out
        && faults == w.faults
        && sequence == Advance(old(sequence), w.written)
        && data[..] == Stamped(old(data[..]), old(sequence), w.written > 0)
    {
      ghost var s0, p, faults0, buf0, sent0 := sequence, data[4..], faults, data[..], sent;
      ghost var first := Header(MaxPayloadLength, s0) + p[..MaxPayloadLength];
      SplitEmit(p, s0, faults0);
      r := WriteFrame(data, 0, 4 + MaxPayloadLength, MaxPayloadLength, first);
      if r.Fail? {
        assert EmitFrames(FramesOf(p, s0), faults0) == WriteOnce(first, faults0);
        return;
      }
      r := WriteTrailing(data, buf0, s0, sent0, faults0);
    }

    /** The second half of the split branch: after the full frame went out whole,
        the trailing frame is stamped at offset MaxPayloadLength and written. */
    method WriteTrailing(data: array<byte>, ghost buf0: seq<byte>, ghost s0: byte,
                         ghost sent0: seq<byte>, ghost faults0: seq<WriteOutcome>)
      returns (r: Outcome<WriteError>)
      requires data.Length >= 4 + MaxPayloadLength && |buf0| == data.Length
      requires data[..] == Restamp(buf0, 0, Header(MaxPayloadLength, s0))
      requires var first := Header(MaxPayloadLength, s0) + buf0[4..][..MaxPayloadLength];
        && WriteOnce(first, faults0).result.Pass?
        && sent == sent0 + first && faults == Remaining(faults0) && sequence == Next(s0)
      modifies this`sequence, this`sent, this`faults, data
      ensures var w := EmitFrames(FramesOf(buf0[4..], s0), faults0);
        && r == w.result
        && sent == sent0 + w.out
        && faults == w.faults
        && sequence == Advance(s0, w.written)
        && data[..] == Stamped(buf0, s0, true)
    {
      ghost var p := buf0[4..];
      ghost var first := Header(MaxPayloadLength, s0) + p[..MaxPayloadLength];
      var length := data.Length - 4 - MaxPayloadLength;
      ghost var second := Header(length, Next(s0)) + p[MaxPayloadLength..];
      TrailingPayload(buf0, s0);
      assert data[MaxPayloadLength + 4..data.Length] == data[..][MaxPayloadLength + 4..];
      r := WriteFrame(data, MaxPayloadLength, data.Length, length, second);
      ghost var w2 := WriteOnce(second, Remaining(faults0));
      TrailingEmit(p, s0, faults0);
      AppendAssoc(sent0, first, w2.out);
      AdvanceNext(s0, w2.written);
    }

    /** One frame of writePacket: stamps `length` and the counter at `offset` (over
        the bytes just before the frame's payload), writes `data[offset..end]`, and
        moves the counter on only if the writer took all of it. */
    method WriteFrame(data: array<byte>, offset: nat, end: nat, length: nat, ghost frame: seq<byte>)
      returns (r: Outcome<WriteError>)
      requires offset + 4 <= end <= data.Length
      requires frame == Header(length, sequence) + data[offset + 4..end]
      modifies this`sequence, this`sent, this`faults, data
      ensures data[..] == Restamp(old(data[..]), offset, Header(length, old(sequence)))
      ensures var w := WriteOnce(frame, old(faults));
        && r == w.result
        && sent == old(sent) + w.out
        && faults == w.faults
        && sequence == Advance(old(sequence), w.written)
    {
      ghost var faults0 := faults;
      StampHeader(data, offset, length, sequence);
      assert data[offset..end] == frame;
      var n, failed := Write(data[offset..end]);
      if failed {
        return Fail(WriteFailed);
      } else if n != end - offset {
        return Fail(ShortWrite(n));
      }
      sequence := Next(sequence);
      return Pass;
    }
  }

  /** The split case of writePacket once the full frame went out whole: the rest
      is the trailing frame's single `Write`. */
  lemma TrailingEmit(p: seq<byte>, s: byte, faults: seq<WriteOutcome>)
    requires |p| >= MaxPayloadLength
    requires WriteOnce(Header(MaxPayloadLength, s) + p[..MaxPayloadLength], faults).result.Pass?
    ensures var w := EmitFrames(FramesOf(p, s), faults);
      var w2 := WriteOnce(Header(|p| - MaxPayloadLength, Next(s)) + p[MaxPayloadLength..], Remaining(faults));
      && w.result == w2.result
      && w.out == Header(MaxPayloadLength, s) + p[..MaxPayloadLength] + w2.out
      && w.faults == w2.faults
      && w.written == w2.written + 1
  {
    SplitEmit(p, s, faults);
  }

  /** Stamping the first header leaves the trailing payload in place. */
  lemma TrailingPayload(buf: seq<byte>, s: byte)
    requires |buf| >= 4 + MaxPayloadLength
    ensures Restamp(buf, 0, Header(MaxPayloadLength, s))[MaxPayloadLength + 4..] == buf[4..][MaxPayloadLength..]
  {
    SuffixOfSuffix(buf, 4, MaxPayloadLength);
  }

  /** The split case of writePacket: the trailing frame is written only after the
      full frame went out whole. */
  lemma SplitEmit(p: seq<byte>, s: byte, faults: seq<WriteOutcome>)
    requires |p| >= MaxPayloadLength
    ensures var first := Header(MaxPayloadLength, s) + p[..MaxPayloadLength];
      var second := Header(|p| - MaxPayloadLength, Next(s)) + p[MaxPayloadLength..];
      var w1 := WriteOnce(first, faults);
      var w2 := WriteOnce(second, w1.faults);
      EmitFrames(FramesOf(p, s), faults)
        == if w1.result.Fail? then w1 else EmitAfter(first, w2)
  {
    var first := Header(MaxPayloadLength, s) + p[..MaxPayloadLength];
    var second := Header(|p| - MaxPayloadLength, Next(s)) + p[MaxPayloadLength..];
    assert [first, second][1..] == [second];
    EmitOne(second, WriteOnce(first, faults).faults);
  }

  /** Writing a single frame is one `Write` call. */
  lemma EmitOne(frame: seq<byte>, faults: seq<WriteOutcome>)
    ensures EmitFrames([frame], faults) == WriteOnce(frame, faults)
  {
    assert [frame][1..] == [];
    assert frame + [] == frame;
  }

  /** The outcome of writing one frame in full followed by `more`. */
  function EmitAfter(frame: seq<byte>, more: Emitted): Emitted
  {
    Emitted(more.result, frame + more.out, more.written + 1, more.faults)
  }

  /** The four stores `data[off] = byte(length)` ... `data[off+3] = p.seq` of writePacket. */
  method StampHeader(data: array<byte>, offset: nat, length: nat, s: byte)
    requires offset + 4 <= data.Length
    modifies data
    ensures data[..] == old(data[..offset]) + Header(length, s) + old(data[offset + 4..])
  {
    data[offset] := length % 0x100;
    data[offset + 1] := (length / 0x100) % 0x100;
    data[offset + 2] := (length / 0x1_0000) % 0x100;
    data[offset + 3] := s;
  }

  // ---------------------------------------------------------------- properties of the framing

  /** A frame of length 0 ends a message whatever sequence id it carries. */
  lemma ReadEmptyFrame(s: byte, t: byte, rest: seq<byte>)
    ensures ReadMessage(Header(0, t) + rest, s) == ReadStep(Ok([]), Next(s), rest)
  {
    assert (Header(0, t) + rest)[4..] == rest;
  }

  /** A frame that declares length 1 is refused and the counter stays put. */
  lemma ReadReservedLength(s: byte, t: byte, rest: seq<byte>)
    ensures ReadMessage(Header(1, t) + rest, s) == ReadStep(Err(InvalidPayload), s, rest)
  {
    assert (Header(1, t) + rest)[4..] == rest;
  }

  /** A non-empty frame whose sequence id is not the expected one is refused
      before its payload is read, and the counter stays put. */
  lemma ReadWrongSequence(s: byte, length: nat, t: byte, rest: seq<byte>)
    requires 2 <= length <= MaxPayloadLength && t != s
    ensures ReadMessage(Header(length, t) + rest, s) == ReadStep(Err(InvalidSeq(t)), s, rest)
  {
    HeaderLength(length, t);
    assert (Header(length, t) + rest)[4..] == rest;
  }

  /** Input that ends inside a header is refused; the counter stays put and the
      partial header is consumed. */
  lemma ReadTruncatedHeader(input: seq<byte>, s: byte)
    requires |input| < 4
    ensures ReadMessage(input, s) == ReadStep(Err(UnexpectedEof), s, [])
  {
  }

  /** A frame with the expected sequence id whose payload runs past the end of the
      input is refused after the counter has moved, and the rest of the input is
      consumed. */
  lemma ReadTruncatedPayload(s: byte, length: nat, rest: seq<byte>)
    requires 2 <= length <= MaxPayloadLength && |rest| < length
    ensures ReadMessage(Header(length, s) + rest, s) == ReadStep(Err(UnexpectedEof), Next(s), [])
  {
    var input := Header(length, s) + rest;
    HeaderLength(length, s);
    DivModPow24(length, 0, length);
    assert FrameLength(input) == length;
    assert input[3] == s && input[4..] == rest;
    assert ReadMessage(input, s) == ReadStep(Err(UnexpectedEof), Next(s), []);
  }

  /** A frame shorter than MaxPayloadLength (and not of length 1) carrying the
      expected sequence id is a whole message. */
  lemma ReadSingleFrame(p: seq<byte>, s: byte, rest: seq<byte>)
    requires |p| < MaxPayloadLength && |p| != 1
    ensures ReadMessage(Header(|p|, s) + p + rest, s) == ReadStep(Ok(p), Next(s), rest)
  {
    var input := Header(|p|, s) + p + rest;
    HeaderLength(|p|, s);
    FrameFields(Header(|p|, s), p, rest);
    assert FrameLength(input) == |p|;
    if |p| == 0 {
      assert ReadMessage(input, s) == ReadStep(Ok([]), Next(s), input[4..]);
    } else {
      assert ReadMessage(input, s) == ReadStep(Ok(input[4..][..|p|]), Next(s), input[4..][|p|..]);
    }
  }

  /** A frame of exactly MaxPayloadLength bytes is joined with the message that
      follows it; if that message fails, the whole read fails with its error. */
  lemma ReadFullFrame(p: seq<byte>, s: byte, more: seq<byte>)
    requires |p| == MaxPayloadLength
    ensures var tail := ReadMessage(more, Next(s));
      ReadMessage(Header(MaxPayloadLength, s) + p + more, s)
        == if tail.result.Err? then tail
           else ReadStep(Ok(p + tail.result.value), tail.sequence, tail.rest)
  {
    HeaderLength(MaxPayloadLength, s);
    FrameFields(Header(MaxPayloadLength, s), p, more);
  }

  /** The header fields and the body of a frame followed by more input. */
  lemma FrameFields(h: seq<byte>, p: seq<byte>, rest: seq<byte>)
    requires |h| == 4
    ensures var input := h + p + rest;
      && FrameLength(input) == FrameLength(h) && input[3] == h[3]
      && input[4..][..|p|] == p && input[4..][|p|..] == rest
  {
    var input := h + p + rest;
    assert input[4..] == p + rest;
  }

  /** A successful read consumes a suffix of the input: the payload plus one
      header for each of its frames, every frame but the last being full, and the
      counter moves on once per frame. */
  lemma {:induction false} ReadCountsFrames(input: seq<byte>, s: byte)
    ensures var st := ReadMessage(input, s);
      st.result.Ok? ==>
        var frames := FrameCount(|st.result.value|);
        && |st.rest| <= |input|
        && st.rest == input[|input| - |st.rest|..]
        && |input| - |st.rest| == |st.result.value| + 4 * frames
        && st.sequence == Advance(s, frames)
    decreases |input|, 1
  {
    var st := ReadMessage(input, s);
    if |input| >= 4 && st.result.Ok? {
      var length := FrameLength(input);
      var body := input[4..];
      if length < MaxPayloadLength {
        ReadCountsOneFrame(input, s);
      } else {
        ReadOkShape(input, s);
        ReadCountsFullFrame(input, s);
      }
    }
  }

  /** The recursive case of ReadCountsFrames: a full frame in front of a message
      for which the counts hold already. */
  lemma {:induction false} ReadCountsFullFrame(input: seq<byte>, s: byte)
    requires |input| >= 4 + MaxPayloadLength && FrameLength(input) == MaxPayloadLength
    requires ReadMessage(input, s).result.Ok?
    ensures |ReadMessage(input, s).rest| <= |input|
    ensures ReadMessage(input, s).rest == input[|input| - |ReadMessage(input, s).rest|..]
    ensures |input| - |ReadMessage(input, s).rest|
      == |ReadMessage(input, s).result.value| + 4 * FrameCount(|ReadMessage(input, s).result.value|)
    ensures ReadMessage(input, s).sequence == Advance(s, FrameCount(|ReadMessage(input, s).result.value|))
    decreases |input|, 0
  {
    var st := ReadMessage(input, s);
    var body := input[4..];
    var more := input[4 + MaxPayloadLength..];
    assert body[MaxPayloadLength..] == more;
    var tail := ReadMessage(more, Next(s));
    assert st == ReadStep(Ok(body[..MaxPayloadLength] + tail.result.value), tail.sequence, tail.rest);
    ReadCountsFrames(more, Next(s));
    assert tail.result.Ok? && |tail.rest| <= |more|;
    assert st.rest == tail.rest;
    var t := |tail.result.value|;
    assert |st.result.value| == MaxPayloadLength + t;
    var k := FrameCount(t);
    assert FrameCount(|st.result.value|) == k + 1;
    assert st.sequence == Advance(Next(s), k);
    AdvanceNext(s, k);
    SuffixOfSuffix(input, 4 + MaxPayloadLength, |more| - |tail.rest|);
  }

  /** A read that succeeds on a non-empty frame found the expected sequence id
      and the whole frame. */
  lemma ReadOkShape(input: seq<byte>, s: byte)
    requires |input| >= 4 && ReadMessage(input, s).result.Ok?
    ensures FrameLength(input) == 0 || (2 <= FrameLength(input) && input[3] == s && |input| >= 4 + FrameLength(input))
  {
  }

  /** The non-recursive cases of ReadCountsFrames: a message of one frame. */
  lemma ReadCountsOneFrame(input: seq<byte>, s: byte)
    requires |input| >= 4 && FrameLength(input) < MaxPayloadLength && ReadMessage(input, s).result.Ok?
    ensures var st := ReadMessage(input, s);
      && FrameCount(|st.result.value|) == 1
      && |st.rest| <= |input|
      && st.rest == input[|input| - |st.rest|..]
      && |input| - |st.rest| == |st.result.value| + 4
      && st.sequence == Advance(s, 1)
  {
    var st := ReadMessage(input, s);
    var length := FrameLength(input);
    var body := input[4..];
    if length == 0 {
      assert st == ReadStep(Ok([]), Next(s), body);
    } else {
      assert st == ReadStep(Ok(body[..length]), Next(s), body[length..]);
      assert body[length..] == input[4 + length..];
    }
  }

  /** Writing a payload and reading it back gives the payload, leaves whatever
      followed it unread, and moves both counters by the same number of frames:
      for every length writePacket frames correctly. */
  lemma WriteThenRead(p: seq<byte>, s: byte, rest: seq<byte>)
    requires |p| < 2 * MaxPayloadLength && |p| != 1 && |p| != MaxPayloadLength + 1
    ensures ReadMessage(Framed(p, s) + rest, s) == ReadStep(Ok(p), Advance(s, |FramesOf(p, s)|), rest)
  {
    if |p| < MaxPayloadLength {
      assert FramesOf(p, s) == [Header(|p|, s) + p];
      FlattenOne(Header(|p|, s) + p);
      ReadSingleFrame(p, s, rest);
    } else {
      assert |FramesOf(p, s)| == 2;
      SplitThenRead(p, s, rest);
    }
  }

  /** The split case of WriteThenRead: a full frame, then a trailing frame that
      ends the message. */
  lemma SplitThenRead(p: seq<byte>, s: byte, rest: seq<byte>)
    requires MaxPayloadLength <= |p| < 2 * MaxPayloadLength && |p| != MaxPayloadLength + 1
    ensures ReadMessage(Framed(p, s) + rest, s) == ReadStep(Ok(p), Advance(s, 2), rest)
  {
    var first := Header(MaxPayloadLength, s) + p[..MaxPayloadLength];
    var second := Header(|p| - MaxPayloadLength, Next(s)) + p[MaxPayloadLength..];
    var more := second + rest;
    assert FramesOf(p, s) == [first, second];
    FlattenTwo(first, second);
    AppendAssoc(first, second, rest);
    ReadSingleFrame(p[MaxPayloadLength..], Next(s), rest);
    assert ReadMessage(more, Next(s)) == ReadStep(Ok(p[MaxPayloadLength..]), Next(Next(s)), rest);
    ReadFullFrame(p[..MaxPayloadLength], s, more);
    assert p[..MaxPayloadLength] + p[MaxPayloadLength..] == p;
    AdvanceNext(s, 1);
    assert Next(Next(s)) == Advance(Next(s), 1);
  }

  /** Payloads of one byte, or of one byte past MaxPayloadLength, go out with a
      frame of length 1, which the reading side refuses. */
  lemma OneByteFrameRejected(p: seq<byte>, s: byte, rest: seq<byte>)
    requires |p| == 1 || |p| == MaxPayloadLength + 1
    ensures ReadMessage(Framed(p, s) + rest, s).result == Err(InvalidPayload)
  {
    if |p| == 1 {
      FlattenOne(Header(1, s) + p);
      assert Framed(p, s) + rest == Header(1, s) + (p + rest);
      ReadReservedLength(s, s, p + rest);
    } else {
      TrailingByteRejected(p, s, rest);
    }
  }

  /** The split case of OneByteFrameRejected: the trailing frame has length 1. */
  lemma TrailingByteRejected(p: seq<byte>, s: byte, rest: seq<byte>)
    requires |p| == MaxPayloadLength + 1
    ensures ReadMessage(Framed(p, s) + rest, s).result == Err(InvalidPayload)
  {
    var first := Header(MaxPayloadLength, s) + p[..MaxPayloadLength];
    var second := Header(1, Next(s)) + p[MaxPayloadLength..];
    var more := second + rest;
    assert FramesOf(p, s) == [first, second];
    FlattenTwo(first, second);
    assert Framed(p, s) + rest == Header(MaxPayloadLength, s) + p[..MaxPayloadLength] + more;
    ReadReservedLength(Next(s), Next(s), p[MaxPayloadLength..] + rest);
    assert more == Header(1, Next(s)) + (p[MaxPayloadLength..] + rest);
    assert ReadMessage(more, Next(s)).result == Err(InvalidPayload);
    ReadFullFrame(p[..MaxPayloadLength], s, more);
  }

  /** writePacket splits only once: a payload of exactly twice MaxPayloadLength
      ends in a full frame with no frame after it, so the reading side waits for
      a continuation that never comes. */
  lemma TwoFullFramesNeverEnd(p: seq<byte>, s: byte)
    requires |p| == 2 * MaxPayloadLength
    ensures ReadMessage(Framed(p, s), s) == ReadStep(Err(UnexpectedEof), Advance(s, 2), [])
  {
    var first := Header(MaxPayloadLength, s) + p[..MaxPayloadLength];
    var second := Header(MaxPayloadLength, Next(s)) + p[MaxPayloadLength..];
    FlattenTwo(first, second);
    assert Framed(p, s) == Header(MaxPayloadLength, s) + p[..MaxPayloadLength] + second;
    ReadFullFrame(p[..MaxPayloadLength], s, second);
    assert second == Header(MaxPayloadLength, Next(s)) + p[MaxPayloadLength..] + [];
    ReadFullFrame(p[MaxPayloadLength..], Next(s), []);
    AdvanceNext(s, 1);
  }

  lemma FlattenOne(frame: seq<byte>)
    ensures Flatten([frame]) == frame
  {
    assert [frame][1..] == [];
    assert frame + [] == frame;
  }

  lemma FlattenTwo(first: seq<byte>, second: seq<byte>)
    ensures Flatten([first, second]) == first + second
  {
    assert [first, second][1..] == [second];
    FlattenOne(second);
  }

  /** What writePacket leaves in the caller's buffer: the header over its first
      four bytes and, after a split whose first frame went out, the trailing
      header over the last four bytes of the first frame's payload, which were
      already sent; every other byte is left as it was. */
  lemma StampedBuffer(buf: seq<byte>, s: byte, firstSent: bool)
    requires |buf| >= 4
    ensures var r := Stamped(buf, s, firstSent);
      var length := |buf| - 4;
      && r[..4] == Header(if length < MaxPayloadLength then length else MaxPayloadLength, s)
      && (length < MaxPayloadLength || !firstSent ==> r[4..] == buf[4..])
      && (length >= MaxPayloadLength && firstSent ==>
            && r[4..MaxPayloadLength] == buf[4..MaxPayloadLength]
            && r[MaxPayloadLength..MaxPayloadLength + 4] == Header(length - MaxPayloadLength, Next(s))
            && r[MaxPayloadLength + 4..] == buf[MaxPayloadLength + 4..])
  {
    var length := |buf| - 4;
    if length >= MaxPayloadLength {
      var once := Restamp(buf, 0, Header(MaxPayloadLength, s));
      assert once[4..] == buf[4..];
      if firstSent {
        var r := Restamp(once, MaxPayloadLength, Header(length - MaxPayloadLength, Next(s)));
        assert r[..4] == once[..4];
        assert r[4..MaxPayloadLength] == once[4..MaxPayloadLength];
      }
    }
  }

  /** With a writer that never fails, every frame goes out whole, in order. */
  lemma {:induction false} ReliableEmit(frames: seq<seq<byte>>)
    ensures EmitFrames(frames, []) == Emitted(Pass, Flatten(frames), |frames|, [])
    decreases |frames|
  {
    if frames != [] {
      ReliableEmit(frames[1..]);
    }
  }

  /** Writing stops at the first failed or short `Write`: the frames before it
      went out whole, the writer took a prefix of the failing frame and nothing
      after it, and the write succeeds exactly when every frame went out. */
  lemma {:induction false} EmitStopsAtFailure(frames: seq<seq<byte>>, faults: seq<WriteOutcome>)
    ensures var w := EmitFrames(frames, faults);
      && w.written <= |frames|
      && (w.result.Pass? <==> w.written == |frames|)
      && Flatten(frames[..w.written]) <= w.out <= Flatten(frames)
      && (w.result.Fail? ==> w.written < |frames| && w.out <= Flatten(frames[..w.written + 1]))
    decreases |frames|, 1
  {
    if frames != [] {
      if WriteOnce(frames[0], faults).result.Pass? {
        EmitAfterFirst(frames, faults);
        EmitAfterFirstFails(frames, faults);
      } else {
        assert frames[..0] == [];
        assert Flatten(frames) == frames[0] + Flatten(frames[1..]);
        assert frames[..1] == [frames[0]];
        FlattenOne(frames[0]);
      }
    }
  }

  /** The step of EmitStopsAtFailure when the first frame went out whole. */
  lemma {:induction false} EmitAfterFirst(frames: seq<seq<byte>>, faults: seq<WriteOutcome>)
    requires frames != [] && WriteOnce(frames[0], faults).result.Pass?
    ensures var w := EmitFrames(frames, faults);
      && w.written <= |frames|
      && (w.result.Pass? <==> w.written == |frames|)
      && Flatten(frames[..w.written]) <= w.out <= Flatten(frames)
    decreases |frames|, 0
  {
    var w1 := WriteOnce(frames[0], faults);
    var more := EmitFrames(frames[1..], w1.faults);
    var w := EmitFrames(frames, faults);
    assert w == EmitAfter(frames[0], more);
    assert w.out == frames[0] + more.out && w.written == more.written + 1;
    EmitStopsAtFailure(frames[1..], w1.faults);
    assert frames[..more.written + 1] == [frames[0]] + frames[1..][..more.written];
    assert Flatten(frames[..more.written + 1]) == frames[0] + Flatten(frames[1..][..more.written]);
    assert Flatten(frames) == frames[0] + Flatten(frames[1..]);
    PrefixExtend(frames[0], Flatten(frames[1..][..more.written]), more.out);
    PrefixExtend(frames[0], more.out, Flatten(frames[1..]));
  }

  /** The step of EmitStopsAtFailure when the first frame went out whole and a
      later one fails: nothing after the failing frame is taken. */
  lemma {:induction false} EmitAfterFirstFails(frames: seq<seq<byte>>, faults: seq<WriteOutcome>)
    requires frames != [] && WriteOnce(frames[0], faults).result.Pass?
    ensures var w := EmitFrames(frames, faults);
      w.result.Fail? ==> w.written < |frames| && w.out <= Flatten(frames[..w.written + 1])
    decreases |frames|, 0
  {
    var w1 := WriteOnce(frames[0], faults);
    var more := EmitFrames(frames[1..], w1.faults);
    var w := EmitFrames(frames, faults);
    assert w == EmitAfter(frames[0], more);
    assert w.result == more.result && w.out == frames[0] + more.out && w.written == more.written + 1;
    if more.result.Fail? {
      EmitStopsAtFailure(frames[1..], w1.faults);
      assert frames[..more.written + 2] == [frames[0]] + frames[1..][..more.written + 1];
      assert Flatten(frames[..more.written + 2]) == frames[0] + Flatten(frames[1..][..more.written + 1]);
      PrefixExtend(frames[0], more.out, Flatten(frames[1..][..more.written + 1]));
    }
  }

  /** Putting the same bytes in front keeps a prefix a prefix. */
  lemma PrefixExtend(a: seq<byte>, b: seq<byte>, c: seq<byte>)
    requires b <= c
    ensures a + b <= a + c
  {
    assert (a + c)[..|a + b|] == a + b;
  }

  // ---------------------------------------------------------------- ERR_Packet

  /** The fields of an ERR_Packet. */
  datatype ErrPacket = ErrPacket(code: nat, state: seq<byte>, message: seq<byte>)

  /** HandleError: the error code is the LE16 at bytes 1-2, byte 3 (the '#' marker)
      is skipped, the SQL state is bytes 4-8 and the message the rest. Shorter
      input has no such decoding (the source indexes past its end). */
  function HandleError(data: seq<byte>): (e: Option<ErrPacket>)
    ensures e.Some? <==> |data| >= 9
    ensures e.Some? ==> e.value.code < Pow16 && |e.value.state| == 5 && |e.value.message| == |data| - 9
  {
    if |data| < 9 then None
    else Some(ErrPacket(ReadLE16(data[1..3]), data[4..9], data[9..]))
  }

  /** An ERR_Packet as a server lays it out. */
  function EncodeErr(e: ErrPacket): seq<byte>
  {
    [0xff] + LE16(e.code) + ['#' as int] + e.state + e.message
  }

  /** An ERR_Packet laid out by a server decodes to the fields it was built from. */
  lemma HandleErrorRoundTrip(e: ErrPacket)
    requires e.code < Pow16 && |e.state| == 5
    ensures HandleError(EncodeErr(e)) == Some(e)
  {
    var data := EncodeErr(e);
    assert data[1..3] == LE16(e.code);
    LE16RoundTrip(e.code);
    assert data[4..9] == e.state;
    assert data[9..] == e.message;
  }

  /** The byte after the error code (the '#' marker) is skipped, whatever it holds. */
  lemma HandleErrorSkipsMarker(data: seq<byte>, m: byte)
    requires |data| >= 9
    ensures HandleError(data[..3] + [m] + data[4..]) == HandleError(data)
  {
    var d := data[..3] + [m] + data[4..];
    assert d[1..3] == data[1..3];
    assert d[4..9] == data[4..9];
    assert d[9..] == data[9..];
  }
}
