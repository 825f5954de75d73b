/** The Apache Thrift Binary Protocol below structs: type codes, numbers, strings. */
module Binary {
  import opened Words

  // Type codes of section "Struct".
  const STOP: Byte := 0
  const T_BOOL: Byte := 2
  const T_BYTE: Byte := 3
  const T_DOUBLE: Byte := 4
  const T_I16: Byte := 6
  const T_I32: Byte := 8
  const T_I64: Byte := 10
  const T_STRING: Byte := 11
  const T_STRUCT: Byte := 12
  const T_MAP: Byte := 13
  const T_SET: Byte := 14
  const T_LIST: Byte := 15

  const MAX_SIZE: int := 0x8000_0000

  function Pow256(k: nat): nat {
    if k == 0 then 1 else 256 * Pow256(k - 1)
  }

  /** The `k` low bytes of `n`, most significant first. */
  function BigEndian(n: nat, k: nat): (r: Bytes)
    ensures |r| == k
    decreases k
  {
    if k == 0 then [] else BigEndian(n / 256, k - 1) + [n % 256]
  }

  // Negative numbers are sent in two's complement.

  function I16Bytes(n: int): (r: Bytes)
    ensures |r| == 2
  {
    BigEndian(n % 0x1_0000, 2)
  }

  function I32Bytes(n: int): (r: Bytes)
    ensures |r| == 4
  {
    BigEndian(n % TWO32, 4)
  }

  function I64Bytes(n: int): (r: Bytes)
    ensures |r| == 8
  {
    BigEndian(n % TWO64, 8)
  }

  function Str(s: Bytes): (r: Bytes)
    ensures |r| == 4 + |s|
  {
    I32Bytes(|s|) + s
  }

  /** `e` stands at position `p` of the stream `b`. */
  predicate At(b: Bytes, p: nat, e: Bytes) {
    p + |e| <= |b| && forall i :: 0 <= i < |e| ==> b[p + i] == e[i]
  }

  /** A type byte. */
  lemma AtByte(b: Bytes, p: nat, x: Byte, e: Bytes)
    requires At(b, p, [x] + e)
    ensures p < |b| && b[p] == x && At(b, p + 1, e)
  {
    AtSplit(b, p, [x], e);
    assert [x][0] == x;
  }

  lemma AtSplit(b: Bytes, p: nat, d: Bytes, e: Bytes)
    requires At(b, p, d + e)
    ensures At(b, p, d) && At(b, p + |d|, e)
  {
    assert forall i :: 0 <= i < |d| ==> d[i] == (d + e)[i];
    assert forall i :: 0 <= i < |e| ==> e[i] == (d + e)[|d| + i];
  }

  lemma AtSplit3(b: Bytes, p: nat, c: Bytes, d: Bytes, e: Bytes)
    requires At(b, p, c + (d + e))
    ensures At(b, p, c) && At(b, p + |c|, d) && At(b, p + |c| + |d|, e)
  {
    AtSplit(b, p, c, d + e);
    AtSplit(b, p + |c|, d, e);
  }

  // Reading at a position; `None` is a transport or protocol exception.

  /** The big-endian number in the `k` bytes at `p`. */
  function ReadUnsigned(b: Bytes, p: nat, k: nat): nat
    requires p + k <= |b|
  {
    if k == 0 then 0 else 256 * ReadUnsigned(b, p, k - 1) + b[p + k - 1]
  }

  lemma {:induction false} ReadUnsignedBound(b: Bytes, p: nat, k: nat)
    requires p + k <= |b|
    ensures ReadUnsigned(b, p, k) < Pow256(k)
  {
    if k > 0 { ReadUnsignedBound(b, p, k - 1); }
  }

  lemma {:induction false} BigEndianRoundTrip(b: Bytes, p: nat, n: nat, k: nat)
    requires n < Pow256(k) && At(b, p, BigEndian(n, k))
    ensures ReadUnsigned(b, p, k) == n
    decreases k
  {
    if k > 0 {
      AtSplit(b, p, BigEndian(n / 256, k - 1), [n % 256]);
      BigEndianRoundTrip(b, p, n / 256, k - 1);
      assert [n % 256][0] == n % 256;
    }
  }

  function Signed(n: nat, half: nat): int {
    if n < half then n else n - 2 * half
  }

  function ReadI16(b: Bytes, p: nat): (r: Option<int>)
    ensures r.Some? ==> p + 2 <= |b|
  {
    if p + 2 > |b| then None else Some(Signed(ReadUnsigned(b, p, 2), 0x8000))
  }

  function ReadI32(b: Bytes, p: nat): (r: Option<I32>)
    ensures r.Some? ==> p + 4 <= |b|
  {
    if p + 4 > |b| then None
    else
      ReadUnsignedBound(b, p, 4); Powers();
      Some(Signed(ReadUnsigned(b, p, 4), MAX_SIZE))
  }

  function ReadI64(b: Bytes, p: nat): (r: Option<I64>)
    ensures r.Some? ==> p + 8 <= |b|
  {
    if p + 8 > |b| then None
    else
      ReadUnsignedBound(b, p, 8); Powers();
      Some(Signed(ReadUnsigned(b, p, 8), TWO63))
  }

  /** A size; negative ones are a protocol exception. */
  function ReadSize(b: Bytes, p: nat): (r: Option<nat>)
    ensures r.Some? ==> p + 4 <= |b| && r.value < MAX_SIZE
  {
    match ReadI32(b, p)
    case None => None
    case Some(n) => if n < 0 then None else Some(n)
  }

  /** The position after a string. */
  function StringEnd(b: Bytes, p: nat): (r: Option<nat>)
    ensures r.Some? ==> p + 4 <= r.value <= |b| && r.value - p - 4 < MAX_SIZE
  {
    match ReadSize(b, p)
    case None => None
    case Some(n) => if p + 4 + n <= |b| then Some(p + 4 + n) else None
  }

  lemma Powers()
    ensures Pow256(2) == 0x1_0000 && Pow256(4) == TWO32 && Pow256(8) == TWO64
  {
    assert Pow256(1) == 256 && Pow256(2) == 0x1_0000 && Pow256(3) == 0x100_0000;
    assert Pow256(4) == TWO32 && Pow256(5) == 0x100_0000_0000 && Pow256(6) == 0x1_0000_0000_0000;
    assert Pow256(7) == 0x100_0000_0000_0000;
  }

  lemma SignedAgain32(n: I32)
    ensures Signed(n % TWO32, MAX_SIZE) == n
  {
  }

  lemma SignedAgain64(n: I64)
    ensures Signed(n % TWO64, TWO63) == n
  {
  }

  lemma I16RoundTrip(b: Bytes, p: nat, n: int)
    requires -0x8000 <= n < 0x8000 && At(b, p, I16Bytes(n))
    ensures ReadI16(b, p) == Some(n)
  {
    Powers();
    BigEndianRoundTrip(b, p, n % 0x1_0000, 2);
  }

  lemma I32RoundTrip(b: Bytes, p: nat, n: I32)
    requires At(b, p, I32Bytes(n))
    ensures ReadI32(b, p) == Some(n)
  {
    Powers();
    SignedAgain32(n);
    BigEndianRoundTrip(b, p, n % TWO32, 4);
  }

  lemma I64RoundTrip(b: Bytes, p: nat, n: I64)
    requires At(b, p, I64Bytes(n))
    ensures ReadI64(b, p) == Some(n)
  {
    Powers();
    SignedAgain64(n);
    BigEndianRoundTrip(b, p, n % TWO64, 8);
  }

  lemma StringRoundTrip(b: Bytes, p: nat, s: Bytes)
    requires |s| < MAX_SIZE && At(b, p, Str(s))
    ensures StringEnd(b, p) == Some(p + 4 + |s|) && b[p + 4..p + 4 + |s|] == s
  {
    AtSplit(b, p, I32Bytes(|s|), s);
    I32RoundTrip(b, p, |s|);
  }
}
