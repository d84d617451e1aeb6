/** Byte-level vocabulary shared by the packet transport and the session encoders:
    bytes, little-endian fields as Go's encoding/binary lays them out, XOR,
    bytes.IndexByte, and a cursor that fills a zeroed buffer front to back. */
module Wire {

  /** An unsigned 8-bit value (Go's `byte` / `uint8`). */
  type byte = x: int | 0 <= x < 256

  datatype Option<+T> = None | Some(value: T)

  datatype Result<+T, +E> = Ok(value: T) | Err(error: E)

  /** The success-or-error of an operation that returns only a Go `error`. */
  datatype Outcome<+E> = Pass | Fail(error: E)

  const Pow16: nat := 0x1_0000
  const Pow32: nat := 0x1_0000_0000

  /** Go's conversion `uint16(v)` of an `int`: the low 16 bits (two's complement). */
  function Uint16(v: int): (r: nat)
    ensures r < Pow16
  {
    v % Pow16
  }

  /** Go's conversion `uint32(v)` of an `int`: the low 32 bits (two's complement). */
  function Uint32(v: int): (r: nat)
    ensures r < Pow32
  {
    v % Pow32
  }

  /** `binary.LittleEndian.PutUint16`: the low byte first. */
  function LE16(v: nat): (b: seq<byte>)
    ensures |b| == 2
  {
    [v % 0x100, (v / 0x100) % 0x100]
  }

  /** `binary.LittleEndian.PutUint32`: the low byte first. */
  function LE32(v: nat): (b: seq<byte>)
    ensures |b| == 4
  {
    [v % 0x100, (v / 0x100) % 0x100, (v / 0x1_0000) % 0x100, (v / 0x100_0000) % 0x100]
  }

  /** `binary.LittleEndian.Uint16` of the first two bytes. */
  function ReadLE16(b: seq<byte>): (v: nat)
    requires |b| >= 2
    ensures v < Pow16
  {
    b[0] as int + 0x100 * (b[1] as int)
  }

  /** `binary.LittleEndian.Uint32` of the first four bytes. */
  function ReadLE32(b: seq<byte>): (v: nat)
    requires |b| >= 4
    ensures v < Pow32
  {
    b[0] as int + 0x100 * (b[1] as int) + 0x1_0000 * (b[2] as int) + 0x100_0000 * (b[3] as int)
  }

  lemma LE16RoundTrip(v: nat)
    requires v < Pow16
    ensures ReadLE16(LE16(v)) == v
  {
    var q := v / 0x100;
    assert v == v % 0x100 + 0x100 * q;
    assert q < 0x100;
  }

  lemma LE32RoundTrip(v: nat)
    requires v < Pow32
    ensures ReadLE32(LE32(v)) == v
  {
    var q1 := v / 0x100;
    var q2 := q1 / 0x100;
    var q3 := q2 / 0x100;
    assert v == v % 0x100 + 0x100 * q1;
    assert q1 == q1 % 0x100 + 0x100 * q2;
    assert q2 == q2 % 0x100 + 0x100 * q3;
    assert q3 < 0x100;
    assert v / 0x1_0000 == q2;
    assert v / 0x100_0000 == q3;
  }

  /** Division by 2^16 has exactly one quotient and remainder. */
  lemma DivModPow16(n: int, q: int, r: int)
    requires 0 <= r < 0x1_0000 && n == q * 0x1_0000 + r
    ensures n / 0x1_0000 == q && n % 0x1_0000 == r
  {
  }

  /** Division by 2^24 has exactly one quotient and remainder. */
  lemma DivModPow24(n: int, q: int, r: int)
    requires 0 <= r < 0x100_0000 && n == q * 0x100_0000 + r
    ensures n / 0x100_0000 == q && n % 0x100_0000 == r
  {
  }

  /** Bitwise exclusive or of two naturals, one bit at a time from the least significant. */
  function BitXor(a: nat, b: nat): nat
    decreases a + b
  {
    if a == 0 then b
    else if b == 0 then a
    else (if a % 2 == b % 2 then 0 else 1) + 2 * BitXor(a / 2, b / 2)
  }

  function Pow2(k: nat): (p: nat)
    ensures p >= 1
  {
    if k == 0 then 1 else 2 * Pow2(k - 1)
  }

  /** XOR never sets a bit above the operands' width. */
  lemma {:induction false} BitXorBound(a: nat, b: nat, k: nat)
    requires a < Pow2(k) && b < Pow2(k)
    ensures BitXor(a, b) < Pow2(k)
    decreases a + b
  {
    if a != 0 && b != 0 {
      BitXorBound(a / 2, b / 2, k - 1);
    }
  }

  lemma {:induction false} BitXorSelf(a: nat)
    ensures BitXor(a, a) == 0
  {
    if a != 0 {
      BitXorSelf(a / 2);
    }
  }

  lemma {:induction false} BitXorSymmetric(a: nat, b: nat)
    ensures BitXor(a, b) == BitXor(b, a)
    decreases a + b
  {
    if a != 0 && b != 0 {
      BitXorSymmetric(a / 2, b / 2);
    }
  }

  /** XOR-ing twice with the same value gives the original back. */
  lemma {:induction false} BitXorCancel(a: nat, b: nat)
    ensures BitXor(BitXor(a, b), b) == a
    decreases a + b
  {
    var c := BitXor(a, b);
    if a == 0 {
      BitXorSelf(b);
    } else if b != 0 {
      BitXorCancel(a / 2, b / 2);
      var r := BitXor(a / 2, b / 2);
      var cbit := if a % 2 == b % 2 then 0 else 1;
      assert c == cbit + 2 * r;
      LowBit(r, cbit);
      if c == 0 {
        assert BitXor(0, b / 2) == b / 2;
      } else {
        assert BitXor(c, b) == (if cbit == b % 2 then 0 else 1) + 2 * BitXor(r, b / 2);
      }
    }
  }

  /** A number is its lowest bit plus twice the rest. */
  lemma LowBit(x: nat, bit: nat)
    requires bit < 2
    ensures (bit + 2 * x) % 2 == bit && (bit + 2 * x) / 2 == x
  {
  }

  /** Bitwise exclusive or of two bytes (Go's `^` on `byte`). */
  function Xor(a: byte, b: byte): (r: byte)
  {
    assert Pow2(8) == 256;
    BitXorBound(a, b, 8);
    BitXor(a, b)
  }

  /** XOR-ing twice with the same byte gives the original back, from either side. */
  lemma XorCancel(a: byte, b: byte)
    ensures Xor(Xor(a, b), b) == a
    ensures Xor(Xor(a, b), a) == b
  {
    BitXorCancel(a, b);
    BitXorSymmetric(a, b);
    BitXorCancel(b, a);
  }

  /** Bytewise XOR of two equally long byte strings. */
  function XorBytes(a: seq<byte>, b: seq<byte>): (r: seq<byte>)
    requires |a| == |b|
    ensures |r| == |a|
    ensures forall i :: 0 <= i < |a| ==> r[i] == Xor(a[i], b[i])
  {
    seq(|a|, i requires 0 <= i < |a| => Xor(a[i], b[i]))
  }

  /** XOR-ing with `b` twice returns `a`; XOR-ing the result with `a` returns `b`. */
  lemma XorBytesCancel(a: seq<byte>, b: seq<byte>)
    requires |a| == |b|
    ensures XorBytes(XorBytes(a, b), b) == a
    ensures XorBytes(XorBytes(a, b), a) == b
  {
    forall i | 0 <= i < |a|
      ensures XorBytes(XorBytes(a, b), b)[i] == a[i] && XorBytes(XorBytes(a, b), a)[i] == b[i]
    {
      XorCancel(a[i], b[i]);
    }
  }

  /** `bytes.IndexByte`: the index of the first `x` in `s`, or -1 when there is none. */
  function IndexOf(s: seq<byte>, x: byte): (i: int)
    ensures -1 <= i < |s|
    ensures i == -1 ==> forall j :: 0 <= j < |s| ==> s[j] != x
    ensures 0 <= i ==> s[i] == x && forall j :: 0 <= j < i ==> s[j] != x
    decreases |s|
  {
    if |s| == 0 then -1
    else if s[0] == x then 0
    else
      var k := IndexOf(s[1..], x);
      if k == -1 then -1
      else
        k + 1
  }

  /** A terminator placed after a string free of it is found right after that string. */
  lemma IndexOfTerminated(a: seq<byte>, x: byte, b: seq<byte>)
    requires x !in a
    ensures IndexOf(a + [x] + b, x) == |a|
  {
    var s := a + [x] + b;
    assert s[|a|] == x;
    assert s[..|a|] == a;
  }

  /** A slice of a slice is a slice of the original. */
  lemma SliceOfSlice(s: seq<byte>, i: nat, j: nat, k: nat, l: nat)
    requires i <= j <= |s| && k <= l <= j - i
    ensures s[i..j][k..l] == s[i + k..i + l]
  {
    assert forall m :: 0 <= m < l - k ==> s[i..j][k..l][m] == s[i + k + m];
  }

  /** A suffix of a suffix is a suffix of the original. */
  lemma SuffixOfSuffix(s: seq<byte>, i: nat, k: nat)
    requires i + k <= |s|
    ensures s[i..][k..] == s[i + k..]
  {
    assert forall m :: 0 <= m < |s| - i - k ==> s[i..][k..][m] == s[i + k + m];
  }

  /** Appending is associative. */
  lemma AppendAssoc(a: seq<byte>, b: seq<byte>, c: seq<byte>)
    ensures a + b + c == a + (b + c)
  {
  }

  /** `n` zero bytes: what Go's `make([]byte, n)` holds. */
  function Zeros(n: nat): (z: seq<byte>)
    ensures |z| == n
    ensures forall i :: 0 <= i < n ==> z[i] == 0
  {
    seq(n, _ => 0)
  }

  /** A buffer made with `make` whose front has been written with `prefix`: the rest is still zero. */
  ghost predicate Filled(buf: seq<byte>, prefix: seq<byte>)
  {
    |prefix| <= |buf| && buf == prefix + Zeros(|buf| - |prefix|)
  }

  /** Advancing the cursor over `k` bytes without writing them leaves zeros behind it. */
  lemma FilledSkip(buf: seq<byte>, prefix: seq<byte>, k: nat)
    requires Filled(buf, prefix) && |prefix| + k <= |buf|
    ensures Filled(buf, prefix + Zeros(k))
  {
    var m := |buf| - |prefix|;
    assert Zeros(m) == Zeros(k) + Zeros(m - k);
  }

  /** Writes `x` at the cursor `pos` of a zeroed buffer and advances the cursor past it,
      as Go's `copy(data[pos:], x)`, `data[pos] = b` and `binary.LittleEndian.PutUint*`
      do in the encoders. */
  method Put(data: array<byte>, pos: nat, x: seq<byte>, ghost prefix: seq<byte>) returns (next: nat)
    requires pos == |prefix| && pos + |x| <= data.Length
    requires Filled(data[..], prefix)
    modifies data
    ensures next == pos + |x|
    ensures Filled(data[..], prefix + x)
  {
    var i := 0;
    while i < |x|
      invariant 0 <= i <= |x|
      invariant data[..] == prefix + x[..i] + Zeros(data.Length - pos - i)
    {
      data[pos + i] := x[i];
      i := i + 1;
      assert x[..i] == x[..i - 1] + [x[i - 1]];
    }
    assert x[..i] == x;
    next := pos + |x|;
  }
}
