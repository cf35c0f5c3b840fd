/** Tag headers (tag.go; ASHRAE 135 clause 20.2.1). */
module Tag {
  import opened Octets

  const OPENING_LVT: uint32 := 6
  const CLOSING_LVT: uint32 := 7

  /** A decoded header: lvt is the data length, or 6 or 7 for a marker. */
  datatype TagInfo = TagInfo(number: uint8, context: bool, lvt: uint32, header: nat) {
    predicate IsOpening() { context && lvt == OPENING_LVT }
    predicate IsClosing() { context && lvt == CLOSING_LVT }
    predicate IsMarker() { IsOpening() || IsClosing() }
  }

  // ----- specification functions

  function FirstOctet(number: uint8, context: bool, low: uint8): byte
    requires low < 8
  {
    (if number < 15 then number * 16 else 0xF0) + (if context then 0x08 else 0) + low
  }

  function NumberExtension(number: uint8): bytes {
    if number < 15 then [] else [number]
  }

  function LengthExtension(length: uint32): (e: bytes)
    ensures |e| <= 5 && (e == [] <==> length <= 4)
  {
    if length <= 4 then []
    else if length <= 253 then [length]
    else if length <= 65535 then [254] + PutU16(length)
    else [255] + PutU32(length)
  }

  /** The header appendTagHeader writes. */
  function DataHeader(number: uint8, context: bool, length: uint32): (h: bytes)
    ensures 1 <= |h| <= 7
  {
    [FirstOctet(number, context, if length <= 4 then length else 5)]
    + NumberExtension(number) + LengthExtension(length)
  }

  /** The header appendMarkerTag writes for an opening (6) or closing (7) tag. */
  function Marker(number: uint8, lvt: uint8): (h: bytes)
    requires lvt < 8
    ensures 1 <= |h| <= 2
  {
    [FirstOctet(number, true, lvt)] + NumberExtension(number)
  }

  /** The length field when the low three bits are 5: the length and its octets. */
  function ReadLength(buf: bytes): (r: Result<(uint32, nat)>)
    ensures r.Ok? ==> 1 <= r.value.1 <= |buf|
  {
    if |buf| < 1 then Err(TruncatedLength)
    else if buf[0] < 254 then Ok((buf[0], 1))
    else if buf[0] == 254 then
      if |buf| < 3 then Err(TruncatedLength) else Ok((GetU16(buf[1..]), 3))
    else
      if |buf| < 5 then Err(TruncatedLength) else Ok((GetU32(buf[1..]), 5))
  }

  /** What decodeTagHeader reads at the start of buf. */
  function ReadHeader(buf: bytes): (r: Result<TagInfo>)
    ensures r.Ok? ==> 1 <= r.value.header <= |buf|
  {
    if |buf| < 1 then Err(TruncatedHeader)
    else
      var context := buf[0] / 8 % 2 == 1;
      var low := buf[0] % 8;
      if buf[0] / 16 == 15 && |buf| < 2 then Err(TruncatedTagNumber)
      else
        var number := if buf[0] / 16 == 15 then buf[1] else buf[0] / 16;
        var pos := if buf[0] / 16 == 15 then 2 else 1;
        if low != 5 then Ok(TagInfo(number, context, low, pos))
        else
          var (length, n) :- ReadLength(buf[pos..]);
          Ok(TagInfo(number, context, length, pos + n))
  }

  // ----- theorems

  lemma LengthRoundTrip(length: uint32, tail: bytes)
    requires length > 4
    ensures ReadLength(LengthExtension(length) + tail) == Ok((length, |LengthExtension(length)|))
  {
    var buf := LengthExtension(length) + tail;
    if length > 65535 {
      assert buf[1..] == PutU32(length) + tail;
      U32RoundTrip(length, tail);
    } else if length > 253 {
      assert buf[1..] == PutU16(length) + tail;
      U16RoundTrip(length, tail);
    }
  }

  lemma FirstOctetFields(number: uint8, context: bool, low: uint8)
    requires low < 8
    ensures var b := FirstOctet(number, context, low);
            b / 16 == (if number < 15 then number else 15) && (b / 8 % 2 == 1 <==> context) && b % 8 == low
  {
  }

  /** Every tag number, class and 32-bit length survives, whatever follows. */
  lemma DataHeaderRoundTrip(number: uint8, context: bool, length: uint32, tail: bytes)
    ensures ReadHeader(DataHeader(number, context, length) + tail)
         == Ok(TagInfo(number, context, length, |DataHeader(number, context, length)|))
  {
    hide FirstOctet, LengthExtension, ReadLength;
    var buf := DataHeader(number, context, length) + tail;
    var pos := if number < 15 then 1 else 2;
    var low := if length <= 4 then length else 5;
    FirstOctetFields(number, context, low);
    assert buf[0] == FirstOctet(number, context, low);
    assert number >= 15 ==> buf[1] == number;
    assert buf[pos..] == LengthExtension(length) + tail;
    if length > 4 {
      LengthRoundTrip(length, tail);
    }
  }

  lemma MarkerRoundTrip(number: uint8, lvt: uint8, tail: bytes)
    requires lvt == OPENING_LVT || lvt == CLOSING_LVT
    ensures ReadHeader(Marker(number, lvt) + tail)
         == Ok(TagInfo(number, true, lvt, |Marker(number, lvt)|))
  {
    var buf := Marker(number, lvt) + tail;
    FirstOctetFields(number, true, lvt);
    assert buf[0] == FirstOctet(number, true, lvt);
    assert number >= 15 ==> buf[1] == number;
  }

  /** A data header is taken for a marker exactly for context-tagged data of 6
      or 7 octets: the reader looks at the decoded length, not the first octet. */
  lemma MarkerConfusion(number: uint8, context: bool, length: uint32, tail: bytes)
    ensures var r := ReadHeader(DataHeader(number, context, length) + tail);
            r.Ok? && (r.value.IsMarker() <==> context && (length == 6 || length == 7))
  {
    DataHeaderRoundTrip(number, context, length, tail);
  }

  /** The marker test of clause 20.2.1.3.2: class bit and low bits of the first octet. */
  predicate MarkerOctet(first: byte) { first / 8 % 2 == 1 && first % 8 >= 6 }

  /** Keyed on the first octet instead, no data header is ever taken for a marker,
      and every marker is recognised. */
  lemma RepairedMarkerTest(number: uint8, context: bool, length: uint32, lvt: uint8)
    requires lvt == OPENING_LVT || lvt == CLOSING_LVT
    ensures !MarkerOctet(DataHeader(number, context, length)[0])
    ensures MarkerOctet(Marker(number, lvt)[0])
  {
  }

  /** A header is a function of its own octets: what follows does not matter. */
  lemma ReadHeaderPrefix(buf: bytes, t: bytes)
    requires ReadHeader(buf).Ok?
    ensures ReadHeader(buf[..ReadHeader(buf).value.header] + t) == ReadHeader(buf)
  {
    var h := buf[..ReadHeader(buf).value.header];
    var c := h + t;
    assert forall i :: 0 <= i < |h| ==> c[i] == buf[i];
    var pos := if buf[0] / 16 == 15 then 2 else 1;
    if buf[0] % 8 == 5 {
      var n := ReadLength(buf[pos..]).value.1;
      assert forall i :: 0 <= i < n ==> c[pos..][i] == buf[pos..][i];
      assert n == 3 ==> GetU16(c[pos..][1..]) == GetU16(buf[pos..][1..]);
      assert n == 5 ==> GetU32(c[pos..][1..]) == GetU32(buf[pos..][1..]);
    }
  }

  /** No accepted data header for the same tag and length is shorter. */
  lemma DataHeaderShortest(h: bytes)
    requires ReadHeader(h).Ok? && h[0] % 8 < 6
    ensures var t := ReadHeader(h).value;
            |DataHeader(t.number, t.context, t.lvt)| <= t.header
  {
  }

  /** The number field after its first octet: in the upper four bits, or in an
      octet of its own. */
  predicate NumberForm(h: bytes, number: uint8, n: nat) {
    && 1 <= n <= |h|
    && (if h[0] < 0xF0 then n == 1 && 16 * number <= h[0] < 16 * number + 16 else n == 2 && h[1] == number)
  }

  /** The octets of a length of five or more: one, two after 254, four after 255. */
  predicate LengthForm(e: bytes, length: uint32) {
    || (|e| == 1 && e[0] < 254 && length == e[0])
    || (|e| == 3 && e[0] == 254 && length == e[1] as int * 0x100 + e[2] as int)
    || (|e| == 5 && e[0] == 255 && length == e[1] as int * 0x100_0000 + e[2] as int * 0x1_0000
                                          + e[3] as int * 0x100 + e[4] as int)
  }

  /** h is a header in any of the forms the standard has, minimal or not. */
  predicate HeaderForm(h: bytes, number: uint8, context: bool, lvt: uint32, n: nat) {
    && NumberForm(h, number, n)
    && (context <==> h[0] % 16 >= 8)
    && (if h[0] % 8 == 5 then LengthForm(h[n..], lvt) else lvt == h[0] % 8 && |h| == n)
  }

  lemma FirstOctetBits(b: byte)
    ensures b / 16 == 15 <==> b >= 0xF0
    ensures b / 8 % 2 == 1 <==> b % 16 >= 8
    ensures 16 * (b / 16) <= b < 16 * (b / 16) + 16
  {
    var c: int := b;
    assert c == c / 16 * 16 + c / 8 % 2 * 8 + c % 8;
  }

  lemma AcceptedForm(buf: bytes, th: TagInfo)
    requires ReadHeader(buf) == Ok(th)
    ensures HeaderForm(buf[..th.header], th.number, th.context, th.lvt, if buf[0] >= 0xF0 then 2 else 1)
  {
    FirstOctetBits(buf[0]);
    var h, n := buf[..th.header], if buf[0] >= 0xF0 then 2 else 1;
    assert NumberForm(h, th.number, n);
    assert h[n..] == buf[n..][..th.header - n];
  }

  lemma FormIsAccepted(buf: bytes, th: TagInfo, n: nat)
    requires th.header <= |buf| && HeaderForm(buf[..th.header], th.number, th.context, th.lvt, n)
    ensures ReadHeader(buf) == Ok(th)
  {
    FirstOctetBits(buf[0]);
    var h := buf[..th.header];
    assert h[n..] == buf[n..][..th.header - n];
  }

  /** The decoder accepts exactly these headers, and reads from each its number,
      class and length. */
  lemma HeaderMeaning(buf: bytes, th: TagInfo)
    ensures ReadHeader(buf) == Ok(th) <==>
      th.header <= |buf| && exists n: nat :: HeaderForm(buf[..th.header], th.number, th.context, th.lvt, n)
  {
    hide ReadHeader, HeaderForm;
    if ReadHeader(buf) == Ok(th) {
      AcceptedForm(buf, th);
    }
    if th.header <= |buf| && exists n: nat :: HeaderForm(buf[..th.header], th.number, th.context, th.lvt, n) {
      var n: nat :| HeaderForm(buf[..th.header], th.number, th.context, th.lvt, n);
      FormIsAccepted(buf, th, n);
    }
  }

  // ----- the imperative encoder and decoder

  /** appendTagHeader: builds the first octet, then grows buf. */
  method AppendTagHeader(buf: bytes, tagNumber: uint8, context: bool, length: uint32)
    returns (out: bytes)
    ensures out == buf + DataHeader(tagNumber, context, length)
  {
    hide PutU32;
    var first: int := 0;
    if context {
      first := first + 0x08;
    }
    if tagNumber < 15 {
      first := first + tagNumber as int * 16;
    } else {
      first := first + 0xF0;
    }
    out := buf;
    if length <= 4 {
      first := first + length as int;
      out := out + [first];
    } else {
      first := first + 0x05;
      out := out + [first];
    }
    if tagNumber >= 15 {
      out := out + [tagNumber];
    }
    assert out == buf + ([first] + NumberExtension(tagNumber));
    if length > 4 {
      if length <= 253 {
        out := out + [length];
      } else if length <= 65535 {
        out := out + [254];
        out := out + PutU16(length);
      } else {
        out := out + [255];
        out := out + PutU32(length);
      }
    }
    assert out == buf + ([first] + NumberExtension(tagNumber) + LengthExtension(length));
  }

  /** appendMarkerTag. */
  method AppendMarkerTag(buf: bytes, tagNumber: uint8, lvt: uint8) returns (out: bytes)
    requires lvt == OPENING_LVT || lvt == CLOSING_LVT
    ensures out == buf + Marker(tagNumber, lvt)
  {
    if tagNumber < 15 {
      return buf + [tagNumber * 16 + 0x08 + lvt];
    }
    return buf + [0xF0 + 0x08 + lvt, tagNumber];
  }

  /** decodeTagHeader: advances pos over the optional fields. */
  method DecodeTagHeader(buf: bytes) returns (r: Result<TagInfo>)
    ensures r == ReadHeader(buf)
  {
    if |buf| < 1 { return Err(TruncatedHeader); }
    var first := buf[0];
    var t := TagInfo(first / 16, first / 8 % 2 == 1, 0, 0);
    var pos := 1;
    if t.number == 15 {
      if |buf| < 2 { return Err(TruncatedTagNumber); }
      t := t.(number := buf[1]);
      pos := 2;
    }
    ghost var start := pos;
    var lvt := first % 8;
    if lvt == 5 {
      if |buf| < pos + 1 { return Err(TruncatedLength); }
      var lenByte := buf[pos];
      pos := pos + 1;
      assert buf[start..][1..] == buf[pos..];
      if lenByte < 254 {
        t := t.(lvt := lenByte);
      } else if lenByte == 254 {
        if |buf| < pos + 2 { return Err(TruncatedLength); }
        t := t.(lvt := GetU16(buf[pos..]));
        pos := pos + 2;
      } else {
        if |buf| < pos + 4 { return Err(TruncatedLength); }
        t := t.(lvt := GetU32(buf[pos..]));
        pos := pos + 4;
      }
    } else {
      t := t.(lvt := lvt);
    }
    t := t.(header := pos);
    return Ok(t);
  }
}
