/** The integer codecs of tag.go and value.go: minimal big-endian encodings
    (ASHRAE 135 clauses 20.2.4 and 20.2.5) and their wrapping decoders. */
module Integers {
  import opened Octets

  /** Drops leading zero octets, keeping at least one octet. */
  function StripZeros(d: bytes): (r: bytes)
    ensures |d| > 0 ==> 0 < |r| <= |d|
    ensures |r| > 1 ==> r[0] != 0
    ensures Unsigned(r) == Unsigned(d)
  {
    if |d| > 1 && d[0] == 0 then
      UnsignedHead(d);
      StripZeros(d[1..])
    else d
  }

  /** Whether the first octet only repeats the sign of the second. */
  predicate RedundantSign(d: bytes) {
    |d| > 1 && ((d[0] == 0 && d[1] < 128) || (d[0] == 255 && d[1] >= 128))
  }

  lemma RedundantSignDropped(d: bytes)
    requires RedundantSign(d)
    ensures Signed(d[1..]) == Signed(d)
  {
    SignedUnsigned(d);
    SignedUnsigned(d[1..]);
    UnsignedHead(d);
  }

  function StripSign(d: bytes): (r: bytes)
    ensures |d| > 0 ==> 0 < |r| <= |d|
    ensures !RedundantSign(r)
    ensures Signed(r) == Signed(d)
  {
    if RedundantSign(d) then
      RedundantSignDropped(d);
      StripSign(d[1..])
    else d
  }

  /** int64 to uint64 conversion, and back with wrap-around. */
  function ToUint64(v: int64): uint64 { v as int % TWO_TO_64 }

  function WrapInt64(x: int): int64 { (x + TWO_TO_63) % TWO_TO_64 - TWO_TO_63 }

  function MinUnsigned(v: uint64): bytes { StripZeros(BigEndian(v, 8)) }

  function MinSigned(v: int64): bytes { StripSign(BigEndian(ToUint64(v), 8)) }

  /** decodeUnsignedData and decodeSignedData keep the low 64 bits. */
  function UnsignedData(d: bytes): uint64 { Unsigned(d) % TWO_TO_64 }

  function SignedData(d: bytes): int64 { WrapInt64(Signed(d)) }

  /** Encoding is exact: it denotes v, in 1 to 8 octets. */
  lemma MinUnsignedExact(v: uint64)
    ensures 0 < |MinUnsigned(v)| <= 8
    ensures UnsignedData(MinUnsigned(v)) == v
  {
    hide BigEndian, Unsigned;
    PowValues();
    UnsignedBigEndian(v, 8);
  }

  /** ... and shortest: no shorter non-empty string denotes v. */
  lemma MinUnsignedShortest(v: uint64, d: bytes)
    requires |d| > 0 && Unsigned(d) == v
    ensures |MinUnsigned(v)| <= |d|
  {
    PowValues();
    UnsignedBigEndian(v, 8);
    var r := MinUnsigned(v);
    if |r| > |d| {
      UnsignedHead(r);
      BigEndianUnsigned(d);
      PowMonotone(|d|, |r| - 1);
      HeadAtLeast(r[0], 1, Pow256(|r| - 1));
    }
  }

  lemma HeadAtLeast(b: nat, c: nat, p: nat)
    requires b >= c
    ensures b * p >= c * p
  {
  }

  lemma MinSignedExact(v: int64)
    ensures 0 < |MinSigned(v)| <= 8
    ensures Signed(MinSigned(v)) == v
    ensures SignedData(MinSigned(v)) == v
  {
    var u := ToUint64(v);
    var d := BigEndian(u, 8);
    SignBit(u);
    assert Signed(d) == u - (if d[0] < 128 then 0 else TWO_TO_64) by {
      PowValues();
      UnsignedBigEndian(u, 8);
      SignedUnsigned(d);
    }
  }

  lemma SignBit(u: uint64)
    ensures BigEndian(u, 8)[0] < 128 <==> u < TWO_TO_63
  {
    var d := BigEndian(u, 8);
    var p := Pow256(7);
    PowValues();
    assert Pow256(8) == 256 * p;
    assert u == d[0] * p + Unsigned(d[1..]) && Unsigned(d[1..]) < p by {
      UnsignedBigEndian(u, 8);
      UnsignedHead(d);
      BigEndianUnsigned(d[1..]);
    }
    HeadBound(d[0], p);
  }

  lemma MinSignedShortest(v: int64, d: bytes)
    requires |d| > 0 && Signed(d) == v
    ensures |MinSigned(v)| <= |d|
  {
    var r := MinSigned(v);
    MinSignedExact(v);
    if |r| > |d| {
      OutOfShorterRange(r);
      SignedRange(d);
      PowMonotone(|d|, |r| - 1);
    }
  }

  /** Without a redundant sign octet, the number needs all its octets. */
  lemma OutOfShorterRange(r: bytes)
    requires |r| > 1 && !RedundantSign(r)
    ensures var p: int := Pow256(|r| - 1); 2 * Signed(r) < -p || p <= 2 * Signed(r)
  {
    var s := r[1..];
    var q := Pow256(|r| - 2);
    assert Pow256(|r| - 1) == 256 * q && Pow256(|r|) == 65536 * q;
    assert Signed(r) == Unsigned(r) - (if r[0] < 128 then 0 else Pow256(|r|)) by {
      SignedUnsigned(r);
    }
    assert Unsigned(r) == r[0] * Pow256(|r| - 1) + Unsigned(s) && Unsigned(s) < Pow256(|s|) by {
      UnsignedHead(r);
      BigEndianUnsigned(s);
    }
    assert Unsigned(s) == s[0] * q + Unsigned(s[1..]) && Unsigned(s[1..]) < q by {
      UnsignedHead(s);
      BigEndianUnsigned(s[1..]);
    }
    HeadsOutOfRange(r[0], s[0], q, Unsigned(s[1..]), Unsigned(s));
  }

  lemma HeadsOutOfRange(a: byte, b: byte, q: nat, low: nat, rest: nat)
    requires rest == b * q + low && rest < 256 * q
    requires a == 0 ==> b >= 128
    requires a == 255 ==> b < 128
    requires low < q
    ensures a < 128 ==> 256 * q <= 2 * (a * (256 * q) + rest)
    ensures a >= 128 ==> 2 * (a * (256 * q) + rest - 65536 * q) < -256 * q
  {
    if a == 0 {
      HeadAtLeast(b, 128, q);
    } else if a < 128 {
      HeadAtLeast(a, 1, 256 * q);
    } else if a == 255 {
      HeadAtLeast(127, b, q);
    } else {
      HeadAtLeast(254, a, 256 * q);
    }
  }

  /** minUnsignedBytes (tag.go): an index loop over an eight-octet array. */
  method MinUnsignedBytes(v: uint64) returns (r: bytes)
    ensures r == MinUnsigned(v)
  {
    var tmp := PutUint64(v);
    var i := 0;
    while i < 7 && tmp[i] == 0
      invariant 0 <= i <= 7
      invariant StripZeros(tmp[i..]) == StripZeros(tmp[..])
    {
      assert tmp[i..][1..] == tmp[i + 1..];
      i := i + 1;
    }
    r := tmp[i..];
    assert tmp[..] == BigEndian(v, 8);
  }

  /** minSignedBytes (tag.go). */
  method MinSignedBytes(v: int64) returns (r: bytes)
    ensures r == MinSigned(v)
  {
    var tmp := PutUint64(ToUint64(v));
    var i := 0;
    while i < 7
      invariant 0 <= i <= 7
      invariant StripSign(tmp[i..]) == StripSign(tmp[..])
    {
      var b, next := tmp[i], tmp[i + 1];
      assert tmp[i..][1..] == tmp[i + 1..];
      if (b == 0 && next < 128) || (b == 255 && next >= 128) {
        i := i + 1;
        continue;
      }
      break;
    }
    r := tmp[i..];
    assert tmp[..] == BigEndian(ToUint64(v), 8);
  }

  /** binary.BigEndian.PutUint64 into a fresh array. */
  method PutUint64(v: uint64) returns (tmp: array<byte>)
    ensures fresh(tmp) && tmp.Length == 8 && tmp[..] == BigEndian(v, 8)
  {
    tmp := new byte[8];
    var rest: nat := v;
    var i := 8;
    while i > 0
      invariant 0 <= i <= 8
      invariant BigEndian(rest, i) + tmp[i..] == BigEndian(v, 8)
    {
      i := i - 1;
      assert BigEndian(rest, i + 1) == BigEndian(rest / 256, i) + [rest % 256];
      ghost var done := tmp[i + 1..];
      tmp[i] := rest % 256;
      assert tmp[i..] == [tmp[i]] + done;
      rest := rest / 256;
    }
  }

  /** decodeUnsignedData (value.go): v<<8 | b in uint64 arithmetic. */
  method DecodeUnsignedData(data: bytes) returns (v: uint64)
    ensures v == UnsignedData(data)
  {
    v := 0;
    for i := 0 to |data|
      invariant v == UnsignedData(data[..i])
    {
      assert data[..i + 1][..i] == data[..i];
      ShiftIn(Unsigned(data[..i]), data[i]);
      v := (v as int * 256 + data[i] as int) % TWO_TO_64;
    }
    assert data[..|data|] == data;
  }

  /** Reducing before or after shifting in an octet makes no difference. */
  lemma ShiftIn(x: int, b: byte)
    ensures (x % TWO_TO_64 * 256 + b) % TWO_TO_64 == (x * 256 + b) % TWO_TO_64
  {
    var q := x / TWO_TO_64;
    assert x * 256 + b == (x % TWO_TO_64 * 256 + b) + q * 256 * TWO_TO_64;
  }

  lemma ShiftInSigned(x: int, b: byte)
    ensures WrapInt64(WrapInt64(x) * 256 + b) == WrapInt64(x * 256 + b)
  {
    var q := (x + TWO_TO_63) / TWO_TO_64;
    assert WrapInt64(x) == x - q * TWO_TO_64;
    assert x * 256 + b + TWO_TO_63 == (WrapInt64(x) * 256 + b + TWO_TO_63) + q * 256 * TWO_TO_64;
  }

  /** decodeSignedData (value.go). */
  method DecodeSignedData(data: bytes) returns (v: int64)
    ensures v == SignedData(data)
  {
    if |data| == 0 { return 0; }
    v := if data[0] < 128 then data[0] as int else data[0] as int - 256;
    for i := 1 to |data|
      invariant v == SignedData(data[..i])
    {
      assert data[..i + 1][..i] == data[..i];
      ShiftInSigned(Signed(data[..i]), data[i]);
      v := WrapInt64(v as int * 256 + data[i] as int);
    }
    assert data[..|data|] == data;
  }
}
