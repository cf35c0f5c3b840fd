/** Bit string data (value.go; ASHRAE 135 clause 20.2.10): a count of unused
    bits, then the bits packed most significant first. */
module BitStrings {
  import opened Octets

  function Pow2(n: nat): (p: nat) ensures p > 0 { if n == 0 then 1 else 2 * Pow2(n - 1) }

  function ShiftRight(v: nat, n: nat): nat { if n == 0 then v else ShiftRight(v / 2, n - 1) }

  /** b & (0x80 >> j) != 0 */
  predicate BitAt(b: byte, j: nat) requires j < 8 { ShiftRight(b, 7 - j) % 2 == 1 }

  /** b | 0x80 >> j */
  function SetBit(b: byte, j: nat): int requires j < 8 {
    if BitAt(b, j) then b else b as int + Pow2(7 - j)
  }

  /** The number bits denote, most significant first. */
  function Number(bits: seq<bool>): (v: nat)
    ensures v < Pow2(|bits|)
  {
    if bits == [] then 0 else 2 * Number(bits[..|bits| - 1]) + (if bits[|bits| - 1] then 1 else 0)
  }

  /** Bits 8k to 8k+7, with zero bits after the end. */
  function Eight(bits: seq<bool>, k: nat): (e: seq<bool>)
    ensures |e| == 8
  {
    seq(8, j requires 0 <= j < 8 => 8 * k + j < |bits| && bits[8 * k + j])
  }

  function Octet(bits: seq<bool>, k: nat): byte {
    assert Pow2(8) == 256 by { assert Pow2(4) == 16; }
    Number(Eight(bits, k))
  }

  function PackBits(bits: seq<bool>): (d: bytes)
    ensures |d| == 1 + (|bits| + 7) / 8
  {
    [(8 - |bits| % 8) % 8] + seq((|bits| + 7) / 8, k requires 0 <= k => Octet(bits, k))
  }

  function UnpackBits(data: bytes): (r: Result<seq<bool>>)
    ensures r.Ok? ==> |data| > 0 && |r.value| == (|data| - 1) * 8 - data[0]
  {
    if |data| < 1 then Err(BadBitString)
    else
      var total := (|data| - 1) * 8 - data[0];
      if total < 0 then Err(BadBitString)
      else Ok(seq(total, i requires 0 <= i < total => BitAt(data[1 + i / 8], i % 8)))
  }

  lemma {:induction false} BitOfNumber(bits: seq<bool>, j: nat)
    requires j < |bits|
    ensures ShiftRight(Number(bits), |bits| - 1 - j) % 2 == 1 <==> bits[j]
  {
    if j < |bits| - 1 {
      BitOfNumber(bits[..|bits| - 1], j);
    }
  }

  lemma {:induction false} NumberWithBit(bits: seq<bool>, j: nat)
    requires j < |bits| && !bits[j]
    ensures Number(bits[j := true]) == Number(bits) + Pow2(|bits| - 1 - j)
  {
    var n := |bits| - 1;
    if j < n {
      NumberWithBit(bits[..n], j);
      assert bits[j := true][..n] == bits[..n][j := true];
    } else {
      assert bits[j := true][..n] == bits[..n];
    }
  }

  lemma {:induction false} NumberOfZeros(bits: seq<bool>)
    requires forall i :: 0 <= i < |bits| ==> !bits[i]
    ensures Number(bits) == 0
  {
    if bits != [] { NumberOfZeros(bits[..|bits| - 1]); }
  }

  lemma PackedBit(bits: seq<bool>, i: nat)
    requires i < |bits|
    ensures BitAt(PackBits(bits)[1 + i / 8], i % 8) == bits[i]
  {
    assert PackBits(bits)[1 + i / 8] == Octet(bits, i / 8);
    BitOfNumber(Eight(bits, i / 8), i % 8);
    assert 8 * (i / 8) + i % 8 == i;
  }

  lemma PackedLength(n: nat)
    ensures (n + 7) / 8 * 8 - (8 - n % 8) % 8 == n
  {
  }

  lemma PackedTotal(bits: seq<bool>)
    ensures (|PackBits(bits)| - 1) * 8 - PackBits(bits)[0] as int == |bits|
  {
    PackedLength(|bits|);
  }

  lemma UnpackedBit(data: bytes, i: nat)
    requires UnpackBits(data).Ok? && i < |UnpackBits(data).value|
    ensures 1 + i / 8 < |data| && UnpackBits(data).value[i] == BitAt(data[1 + i / 8], i % 8)
  {
    hide BitAt;
  }

  lemma Unpacks(data: bytes)
    requires |data| > 0 && (|data| - 1) * 8 - data[0] as int >= 0
    ensures UnpackBits(data).Ok?
  {
  }

  /** Every bit string survives encoding and decoding. */
  lemma BitStringRoundTrip(bits: seq<bool>)
    ensures UnpackBits(PackBits(bits)) == Ok(bits)
  {
    hide PackBits, UnpackBits, BitAt;
    var d := PackBits(bits);
    PackedTotal(bits);
    Unpacks(d);
    var r := UnpackBits(d).value;
    forall i | 0 <= i < |bits| ensures r[i] == bits[i] {
      UnpackedBit(d, i);
      PackedBit(bits, i);
    }
    assert r == bits;
  }

  /** Octet k of a bit string after one more bit. */
  lemma OctetStep(bits: seq<bool>, i: nat, k: nat)
    requires i < |bits|
    ensures Octet(bits[..i + 1], k)
         == if k == i / 8 && bits[i] then SetBit(Octet(bits[..i], k), i % 8) else Octet(bits[..i], k)
  {
    var was, now := Eight(bits[..i], k), Eight(bits[..i + 1], k);
    if k == i / 8 && bits[i] {
      assert now == was[i % 8 := true];
      BitOfNumber(was, i % 8);
      NumberWithBit(was, i % 8);
    } else {
      assert now == was;
    }
  }

  lemma OctetEmpty(k: nat)
    ensures Octet([], k) == 0
  {
    NumberOfZeros(Eight([], k));
  }

  /** encodeBitStringData: sets one bit at a time in a zeroed array. */
  method EncodeBitStringData(bits: seq<bool>) returns (data: bytes)
    ensures data == PackBits(bits)
  {
    hide Octet;
    var unused := (8 - |bits| % 8) % 8;
    var nBytes := (|bits| + 7) / 8;
    var out := new byte[1 + nBytes](_ => 0);
    out[0] := unused;
    forall k: nat ensures Octet(bits[..0], k) == 0 { OctetEmpty(k); }
    for i := 0 to |bits|
      invariant out[0] == unused
      invariant forall m :: 1 <= m <= nBytes ==> out[m] == Octet(bits[..i], m - 1)
    {
      forall m | 1 <= m <= nBytes
        ensures Octet(bits[..i + 1], m - 1)
             == if m == 1 + i / 8 && bits[i] then SetBit(out[m], i % 8) else out[m]
      {
        OctetStep(bits, i, m - 1);
      }
      if bits[i] {
        out[1 + i / 8] := SetBit(out[1 + i / 8], i % 8);
      }
    }
    assert bits[..|bits|] == bits;
    assert out[..] == PackBits(bits);
    data := out[..];
  }

  /** decodeBitStringData. */
  method DecodeBitStringData(data: bytes) returns (r: Result<seq<bool>>)
    ensures r == UnpackBits(data)
  {
    if |data| < 1 { return Err(BadBitString); }
    var unused := data[0];
    var total := (|data| - 1) * 8 - unused;
    if total < 0 { return Err(BadBitString); }
    var bits := new bool[total](_ => false);
    for i := 0 to total
      invariant forall j :: 0 <= j < i ==> bits[j] == BitAt(data[1 + j / 8], j % 8)
    {
      bits[i] := BitAt(data[1 + i / 8], i % 8);
    }
    assert bits[..] == UnpackBits(data).value;
    return Ok(bits[..]);
  }
}
