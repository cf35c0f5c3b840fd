/** Octets, the source's fixed-width integers, and big-endian data.

    Bit operations of the source on disjoint bit fields are written as
    arithmetic: `x << 4` is `x * 16`, `x & 0x07` is `x % 8`, `x | y` of
    disjoint fields is `x + y`. */
module Octets {

  const TWO_TO_22 := 0x40_0000
  const TWO_TO_32 := 0x1_0000_0000
  const TWO_TO_63 := 0x8000_0000_0000_0000
  const TWO_TO_64 := 0x1_0000_0000_0000_0000

  type byte = x: int | 0 <= x < 0x100
  type uint8 = byte
  type uint16 = x: int | 0 <= x < 0x1_0000
  type uint32 = x: int | 0 <= x < 0x1_0000_0000
  type uint64 = x: int | 0 <= x < 0x1_0000_0000_0000_0000
  type int64 = x: int | -0x8000_0000_0000_0000 <= x < 0x8000_0000_0000_0000

  type bytes = seq<byte>

  datatype Option<+T> = None | Some(value: T)

  /** Wire-format errors; each constructor stands for one group of error
      messages of the source. */
  datatype Error =
    | TruncatedHeader | TruncatedTagNumber | TruncatedLength
    | ExpectedApplicationTag | ExpectedContextTag | ExpectedOpening | ExpectedClosing
    | TruncatedData | BadDataLength | EmptyString | BadCharset | BadBitString
    | UnsupportedTag | NestedTooDeep | MalformedError | UnexpectedTag
    | WrongValueCount | WrongValueKind
    | EmptyAPDU | SegmentedAPDU | TruncatedAPDU | UnsupportedAPDU
    | TruncatedNPDU | NetworkLayerMessage | TruncatedAddress | NoAPDU
    | TruncatedBVLC | UnsupportedBVLCType | UnsupportedBVLCFunction | BVLCLengthMismatch

  datatype Result<+T> = Ok(value: T) | Err(error: Error) {
    predicate IsFailure() { Err? }
    function PropagateFailure<U>(): Result<U> requires Err? { Err(error) }
    function Extract(): T requires Ok? { value }
  }

  /** Big-endian pairs and quadruples, as encoding/binary reads and writes them. */
  function PutU16(v: uint16): bytes { [v / 0x100, v % 0x100] }

  function GetU16(d: bytes): uint16 requires |d| >= 2 { d[0] as int * 0x100 + d[1] as int }

  function PutU32(v: uint32): (d: bytes)
    ensures |d| == 4
  {
    [v / 0x100_0000, v / 0x1_0000 % 0x100, v / 0x100 % 0x100, v % 0x100]
  }

  function GetU32(d: bytes): uint32 requires |d| >= 4 {
    d[0] as int * 0x100_0000 + d[1] as int * 0x1_0000 + d[2] as int * 0x100 + d[3] as int
  }

  lemma U16RoundTrip(v: uint16, tail: bytes)
    ensures GetU16(PutU16(v) + tail) == v
  {
  }

  lemma U32RoundTrip(v: uint32, tail: bytes)
    ensures GetU32(PutU32(v) + tail) == v
  {
    var d := PutU32(v) + tail;
    assert d[0] == v / 0x100_0000 && d[1] == v / 0x1_0000 % 0x100;
    assert d[2] == v / 0x100 % 0x100 && d[3] == v % 0x100;
    Digits(v);
  }

  lemma Digits(v: uint32)
    ensures v / 0x100_0000 * 0x100_0000 + v / 0x1_0000 % 0x100 * 0x1_0000
          + v / 0x100 % 0x100 * 0x100 + v % 0x100 == v
  {
    var a := v / 0x100;
    var b := a / 0x100;
    assert v / 0x1_0000 == b;
    assert v / 0x100_0000 == b / 0x100;
  }

  function Pow256(n: nat): (p: nat) ensures p >= 1 { if n == 0 then 1 else 256 * Pow256(n - 1) }

  /** The low n octets of v, most significant first. */
  function BigEndian(v: nat, n: nat): (d: bytes)
    ensures |d| == n
  {
    if n == 0 then [] else BigEndian(v / 256, n - 1) + [v % 256]
  }

  /** The number a big-endian octet string denotes. */
  function Unsigned(d: bytes): nat {
    if d == [] then 0 else Unsigned(d[..|d| - 1]) * 256 + d[|d| - 1]
  }

  /** The number a big-endian two's-complement octet string denotes. */
  function Signed(d: bytes): int {
    if d == [] then 0
    else if |d| == 1 then (if d[0] < 128 then d[0] else d[0] - 256)
    else Signed(d[..|d| - 1]) * 256 + d[|d| - 1]
  }

  lemma {:induction false} UnsignedBigEndian(v: nat, n: nat)
    requires v < Pow256(n)
    ensures Unsigned(BigEndian(v, n)) == v
  {
    if n > 0 {
      UnsignedBigEndian(v / 256, n - 1);
      assert BigEndian(v, n)[..n - 1] == BigEndian(v / 256, n - 1);
    }
  }

  lemma {:induction false} BigEndianUnsigned(d: bytes)
    ensures Unsigned(d) < Pow256(|d|)
    ensures BigEndian(Unsigned(d), |d|) == d
  {
    if d != [] {
      BigEndianUnsigned(d[..|d| - 1]);
      assert Unsigned(d) / 256 == Unsigned(d[..|d| - 1]);
    }
  }

  /** Splits off the first octet, where the definition splits off the last. */
  lemma {:induction false} UnsignedHead(d: bytes)
    requires |d| > 0
    ensures Unsigned(d) == d[0] * Pow256(|d| - 1) + Unsigned(d[1..])
  {
    if |d| == 1 {
      assert d[..0] == [];
    } else {
      var init := d[..|d| - 1];
      UnsignedHead(init);
      assert init[1..] == d[1..][..|d| - 2];
      assert d[0] * Pow256(|d| - 2) * 256 == d[0] * Pow256(|d| - 1);
    }
  }

  /** A two's-complement string is the unsigned one less 256^n when its sign bit is set. */
  lemma {:induction false} SignedUnsigned(d: bytes)
    requires |d| > 0
    ensures Signed(d) == Unsigned(d) - (if d[0] < 128 then 0 else Pow256(|d|))
  {
    if |d| > 1 {
      SignedUnsigned(d[..|d| - 1]);
    } else {
      assert d[..0] == [];
      assert Pow256(1) == 256;
    }
  }

  /** The values an n-octet two's-complement string can denote. */
  lemma SignedRange(d: bytes)
    requires |d| > 0
    ensures var p: int := Pow256(|d|); -p <= 2 * Signed(d) < p
  {
    SignedUnsigned(d);
    UnsignedHead(d);
    BigEndianUnsigned(d);
    BigEndianUnsigned(d[1..]);
    HeadBound(d[0], Pow256(|d| - 1));
  }

  lemma HeadBound(b: byte, p: nat)
    ensures b < 128 ==> b * p <= 127 * p
    ensures b >= 128 ==> b * p >= 128 * p
    ensures b * p <= 255 * p
  {
  }

  lemma PowValues()
    ensures Pow256(1) == 0x100 && Pow256(2) == 0x1_0000 && Pow256(3) == 0x100_0000
    ensures Pow256(4) == TWO_TO_32 && Pow256(8) == TWO_TO_64
  {
    assert Pow256(1) == 256 * Pow256(0);
    assert Pow256(2) == 256 * Pow256(1);
    assert Pow256(3) == 256 * Pow256(2);
    assert Pow256(4) == 256 * Pow256(3);
    assert Pow256(5) == 256 * Pow256(4);
    assert Pow256(6) == 256 * Pow256(5);
    assert Pow256(7) == 256 * Pow256(6);
    assert Pow256(8) == 256 * Pow256(7);
  }

  lemma {:induction false} PowMonotone(m: nat, n: nat)
    requires m <= n
    ensures Pow256(m) <= Pow256(n)
    decreases n
  {
    if m < n { PowMonotone(m, n - 1); }
  }

  // ----- cutting concatenations apart

  lemma Cut(a: bytes, b: bytes)
    ensures |a + b| == |a| + |b| && (a + b)[|a|..] == b
  {
  }

  lemma Cut3(a: bytes, b: bytes, c: bytes)
    ensures a + b + c == a + (b + c) && (a + b + c)[|a|..] == b + c && (b + c)[|b|..] == c
  {
  }

  lemma Cut4(a: bytes, b: bytes, c: bytes, d: bytes)
    ensures a + b + c + d == a + (b + (c + d))
    ensures (a + b + c + d)[|a|..] == b + (c + d) && (b + (c + d))[|b|..] == c + d && (c + d)[|c|..] == d
  {
    Cut3(a, b, c + d);
    Cut3(b, c, d);
  }

  lemma Cut5(a: bytes, b: bytes, c: bytes, d: bytes, e: bytes)
    ensures a + b + c + d + e == a + (b + (c + (d + e)))
    ensures (a + b + c + d + e)[|a|..] == b + (c + (d + e)) && (b + (c + (d + e)))[|b|..] == c + (d + e)
    ensures (c + (d + e))[|c|..] == d + e && (d + e)[|d|..] == e
  {
    Cut4(a, b, c, d + e);
    Cut4(b, c, d, e);
  }
}
