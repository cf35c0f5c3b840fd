/** BACnet values and the codecs of their data octets (value.go). */
module Values {
  import opened Octets
  import opened Tag
  import opened Integers
  import opened BitStrings
  import opened Text

  /** A field of -1 is "unspecified". */
  datatype Date = Date(year: int, month: int, day: int, dayOfWeek: int)

  datatype Time = Time(hour: int, minute: int, second: int, hundredth: int)

  datatype ObjectIdentifier = ObjectIdentifier(objectType: uint32, instance: uint32)

  type PropertyIdentifier = uint32

  /** Real and Double carry their IEEE bit patterns; text is the octets of a Go string. */
  datatype Value =
    | Null
    | Boolean(b: bool)
    | UnsignedInt(u: uint64)
    | SignedInt(i: int64)
    | Real(bits32: uint32)
    | Double(bits64: uint64)
    | OctetString(octets: bytes)
    | CharacterString(text: bytes)
    | BitString(bits: seq<bool>)
    | Enumerated(e: uint32)
    | DateValue(date: Date)
    | TimeValue(time: Time)
    | ObjectID(oid: ObjectIdentifier)
    | ContextPrimitive(tag: uint8, data: bytes)
    | Constructed(tag: uint8, items: seq<Value>)
  {
    predicate Primitive() { !ContextPrimitive? && !Constructed? }
  }

  const TAG_BOOLEAN: uint8 := 1

  /** applicationTagFor */
  function ApplicationTag(v: Value): (n: uint8)
    requires v.Primitive()
    ensures n < 13
    ensures n == TAG_BOOLEAN <==> v.Boolean?
  {
    match v
    case Null => 0 case Boolean(_) => 1 case UnsignedInt(_) => 2 case SignedInt(_) => 3
    case Real(_) => 4 case Double(_) => 5 case OctetString(_) => 6 case CharacterString(_) => 7
    case BitString(_) => 8 case Enumerated(_) => 9 case DateValue(_) => 10 case TimeValue(_) => 11
    case ObjectID(_) => 12
  }

  // ----- data octets

  function EncodeField(v: int): byte { if v < 0 then 255 else v % 256 }

  function DecodeField(b: byte): int { if b == 255 then -1 else b }

  function EncodeDate(d: Date): bytes {
    [EncodeField(d.year - 1900), EncodeField(d.month), EncodeField(d.day), EncodeField(d.dayOfWeek)]
  }

  function DecodeDate(data: bytes): Result<Value> {
    if |data| != 4 then Err(BadDataLength)
    else
      var year := if data[0] == 255 then -1 else data[0] as int + 1900;
      Ok(DateValue(Date(year, DecodeField(data[1]), DecodeField(data[2]), DecodeField(data[3]))))
  }

  function EncodeTime(t: Time): bytes {
    [EncodeField(t.hour), EncodeField(t.minute), EncodeField(t.second), EncodeField(t.hundredth)]
  }

  function DecodeTime(data: bytes): Result<Value> {
    if |data| != 4 then Err(BadDataLength)
    else Ok(TimeValue(Time(DecodeField(data[0]), DecodeField(data[1]), DecodeField(data[2]), DecodeField(data[3]))))
  }

  /** Type in the upper 10 bits (higher type bits are lost), instance in the lower 22. */
  function EncodeObjectID(o: ObjectIdentifier): bytes {
    PutU32(o.objectType % 1024 * TWO_TO_22 + o.instance % TWO_TO_22)
  }

  function DecodeObjectID(data: bytes): Result<ObjectIdentifier> {
    if |data| != 4 then Err(BadDataLength)
    else Ok(ObjectIdentifier(GetU32(data) / TWO_TO_22, GetU32(data) % TWO_TO_22))
  }

  /** decodeCharacterString: the character sets of clause 20.2.9. */
  function DecodeText(charset: byte, data: bytes): Result<bytes> {
    match charset
    case 0 => Ok(ToValid(data, false))
    case 3 =>
      if |data| % 4 != 0 then Err(BadCharset)
      else Ok(EncodeRunes(seq(|data| / 4, i requires 0 <= i < |data| / 4 => GetU32(data[4 * i..]))))
    case 4 =>
      if |data| % 2 != 0 then Err(BadCharset)
      else Ok(EncodeRunes(DecodeUTF16(seq(|data| / 2, i requires 0 <= i < |data| / 2 => GetU16(data[2 * i..])))))
    case 5 => Ok(EncodeRunes(seq(|data|, i requires 0 <= i < |data| => data[i])))
    case _ => Err(BadCharset)
  }

  /** The data octets AppendContextValue writes for a primitive. */
  function PrimitiveData(v: Value): bytes
    requires v.Primitive()
  {
    match v
    case Null => []
    case Boolean(b) => [if b then 1 else 0]
    case UnsignedInt(u) => MinUnsigned(u)
    case SignedInt(i) => MinSigned(i)
    case Real(r) => PutU32(r)
    case Double(d) => BigEndian(d, 8)
    case OctetString(o) => o
    case CharacterString(s) => [0] + s
    case BitString(bits) => PackBits(bits)
    case Enumerated(e) => MinUnsigned(e)
    case DateValue(d) => EncodeDate(d)
    case TimeValue(t) => EncodeTime(t)
    case ObjectID(o) => EncodeObjectID(o)
  }

  /** AppendContextValue: an application Boolean sits in the header itself. */
  function PrimitiveBytes(context: bool, tagNumber: uint8, v: Value): bytes
    requires v.Primitive()
  {
    if v.Boolean? && !context then DataHeader(tagNumber, false, if v.b then 1 else 0)
    else DataHeader(tagNumber, context, |PrimitiveData(v)| % TWO_TO_32) + PrimitiveData(v)
  }

  /** The switch of decodeApplicationValue on the tag number. */
  function DecodeData(number: uint8, data: bytes): Result<Value> {
    match number
    case 0 => Ok(Null)
    case 2 => Ok(UnsignedInt(UnsignedData(data)))
    case 3 => Ok(SignedInt(SignedData(data)))
    case 4 => if |data| != 4 then Err(BadDataLength) else Ok(Real(GetU32(data)))
    case 5 => if |data| != 8 then Err(BadDataLength) else Ok(Double(UnsignedData(data)))
    case 6 => Ok(OctetString(data))
    case 7 =>
      if |data| < 1 then Err(EmptyString)
      else
        var s :- DecodeText(data[0], data[1..]);
        Ok(CharacterString(s))
    case 8 =>
      var bits :- UnpackBits(data);
      Ok(BitString(bits))
    case 9 => Ok(Enumerated(UnsignedData(data) % TWO_TO_32))
    case 10 => DecodeDate(data)
    case 11 => DecodeTime(data)
    case 12 =>
      var o :- DecodeObjectID(data);
      Ok(ObjectID(o))
    case _ => Err(UnsupportedTag)
  }

  /** decodeApplicationValue: one application-tagged value and its length. The
      source compares the data length as uint32. */
  function ReadApplication(buf: bytes): (r: Result<(Value, nat)>)
    ensures r.Ok? ==> 1 <= r.value.1 <= |buf|
  {
    var th :- ReadHeader(buf);
    if th.context then Err(ExpectedApplicationTag)
    else if th.number == TAG_BOOLEAN then Ok((Boolean(th.lvt != 0), th.header))
    else if (|buf| - th.header) % TWO_TO_32 < th.lvt then Err(TruncatedData)
    else
      var v :- DecodeData(th.number, buf[th.header..th.header + th.lvt]);
      Ok((v, th.header + th.lvt))
  }

  // ----- what survives a round trip

  predicate FieldOk(x: int) { x == -1 || 0 <= x < 255 }

  predicate DateOk(d: Date) {
    (d.year == -1 || 1900 <= d.year < 2155) && FieldOk(d.month) && FieldOk(d.day) && FieldOk(d.dayOfWeek)
  }

  predicate TimeOk(t: Time) {
    FieldOk(t.hour) && FieldOk(t.minute) && FieldOk(t.second) && FieldOk(t.hundredth)
  }

  predicate ObjectOk(o: ObjectIdentifier) { o.objectType < 1024 && o.instance < TWO_TO_22 }

  predicate PrimitiveOk(v: Value)
    requires v.Primitive()
  {
    match v
    case CharacterString(s) => ValidText(s)
    case DateValue(d) => DateOk(d)
    case TimeValue(t) => TimeOk(t)
    case ObjectID(o) => ObjectOk(o)
    case _ => true
  }

  lemma Fields(a: nat, b: nat)
    requires b < TWO_TO_22
    ensures (a * TWO_TO_22 + b) / TWO_TO_22 == a && (a * TWO_TO_22 + b) % TWO_TO_22 == b
  {
  }

  lemma ObjectIDRoundTrip(o: ObjectIdentifier)
    ensures DecodeObjectID(EncodeObjectID(o))
         == Ok(ObjectIdentifier(o.objectType % 1024, o.instance % TWO_TO_22))
  {
    var a, b := o.objectType % 1024, o.instance % TWO_TO_22;
    Fields(a, b);
    var raw: uint32 := a * TWO_TO_22 + b;
    assert GetU32(PutU32(raw)) == raw by {
      U32RoundTrip(raw, []);
      assert PutU32(raw) + [] == PutU32(raw);
    }
  }

  /** Decoding the data octets of v gives v back. */
  predicate DataRoundTrips(v: Value)
    requires v.Primitive()
  {
    DecodeData(ApplicationTag(v), PrimitiveData(v)) == Ok(v)
  }

  lemma DateRoundTrip(d: Date)
    requires DateOk(d)
    ensures DataRoundTrips(DateValue(d))
  {
    assert DecodeDate(EncodeDate(d)) == Ok(DateValue(d));
  }

  lemma TimeRoundTrip(t: Time)
    requires TimeOk(t)
    ensures DataRoundTrips(TimeValue(t))
  {
    assert DecodeTime(EncodeTime(t)) == Ok(TimeValue(t));
  }

  lemma TextRoundTrip(s: bytes)
    requires ValidText(s)
    ensures DataRoundTrips(CharacterString(s))
  {
    ToValidIdentity(s);
    assert ([0] + s)[1..] == s;
  }

  lemma UnsignedRoundTrip(u: uint64)
    ensures DataRoundTrips(UnsignedInt(u))
  {
    hide MinUnsigned, UnsignedData;
    MinUnsignedExact(u);
  }

  lemma SignedRoundTrip(i: int64)
    ensures DataRoundTrips(SignedInt(i))
  {
    hide MinSigned, SignedData;
    MinSignedExact(i);
  }

  lemma EnumeratedRoundTrip(e: uint32)
    ensures DataRoundTrips(Enumerated(e))
  {
    hide MinUnsigned, UnsignedData;
    MinUnsignedExact(e);
  }

  lemma FixedWidthRoundTrip(r: uint32, d: uint64)
    ensures DataRoundTrips(Real(r)) && DataRoundTrips(Double(d))
  {
    U32RoundTrip(r, []);
    assert PutU32(r) + [] == PutU32(r);
    PowValues();
    UnsignedBigEndian(d, 8);
  }

  lemma BitsRoundTrip(bits: seq<bool>)
    ensures DataRoundTrips(BitString(bits))
  {
    hide UnpackBits, PackBits;
    BitStringRoundTrip(bits);
  }

  lemma ObjectRoundTrip(o: ObjectIdentifier)
    requires ObjectOk(o)
    ensures DataRoundTrips(ObjectID(o))
  {
    hide DecodeObjectID, EncodeObjectID;
    ObjectIDRoundTrip(o);
  }

  lemma PrimitiveDataRoundTrip(v: Value)
    requires v.Primitive() && !v.Boolean? && PrimitiveOk(v)
    ensures DataRoundTrips(v)
  {
    match v
    case UnsignedInt(u) => UnsignedRoundTrip(u);
    case SignedInt(i) => SignedRoundTrip(i);
    case Enumerated(e) => EnumeratedRoundTrip(e);
    case Real(r) => FixedWidthRoundTrip(r, 0);
    case Double(d) => FixedWidthRoundTrip(0, d);
    case CharacterString(s) => TextRoundTrip(s);
    case BitString(bits) => BitsRoundTrip(bits);
    case DateValue(d) => DateRoundTrip(d);
    case TimeValue(t) => TimeRoundTrip(t);
    case ObjectID(o) => ObjectRoundTrip(o);
    case Null =>
    case OctetString(_) =>
  }

  lemma DecodedTextIsValid(charset: byte, data: bytes)
    requires DecodeText(charset, data).Ok?
    ensures ValidText(DecodeText(charset, data).value)
    ensures |DecodeText(charset, data).value| <= 4 * |data|
  {
    match charset
    case 0 => ToValidIsValid(data, false);
    case 3 => EncodeRunesIsValid(seq(|data| / 4, i requires 0 <= i < |data| / 4 => GetU32(data[4 * i..])));
    case 4 => EncodeRunesIsValid(DecodeUTF16(seq(|data| / 2, i requires 0 <= i < |data| / 2 => GetU16(data[2 * i..]))));
    case _ => EncodeRunesIsValid(seq(|data|, i requires 0 <= i < |data| => data[i]));
  }

  // ----- what decoded text says

  /** Code points as four octets each, most significant first. */
  function Quads(rs: seq<uint32>): bytes {
    if rs == [] then []
    else [rs[0] / 0x100_0000, rs[0] / 0x1_0000 % 0x100, rs[0] / 0x100 % 0x100, rs[0] % 0x100] + Quads(rs[1..])
  }

  /** UTF-16 units as two octets each, most significant first. */
  function Pairs(u: seq<uint16>): bytes {
    if u == [] then [] else [u[0] / 0x100, u[0] % 0x100] + Pairs(u[1..])
  }

  lemma {:induction false} QuadAt(rs: seq<uint32>, i: nat)
    requires i < |rs|
    ensures |Quads(rs)| == 4 * |rs| && GetU32(Quads(rs)[4 * i..]) == rs[i]
  {
    var r, d, t := rs[0], Quads(rs), Quads(rs[1..]);
    if |rs| > 1 { QuadAt(rs[1..], if i > 0 then i - 1 else 0); }
    if i == 0 {
      Digits(r);
    } else {
      assert d[4 * i..] == t[4 * (i - 1)..];
    }
  }

  lemma {:induction false} PairAt(u: seq<uint16>, i: nat)
    requires i < |u|
    ensures |Pairs(u)| == 2 * |u| && GetU16(Pairs(u)[2 * i..]) == u[i]
  {
    var d, t := Pairs(u), Pairs(u[1..]);
    if |u| > 1 { PairAt(u[1..], if i > 0 then i - 1 else 0); }
    if i > 0 {
      assert d[2 * i..] == t[2 * (i - 1)..];
    }
  }

  /** A big-endian UCS-4 string decodes to its code points, U+FFFD standing for
      what UTF-8 cannot carry. */
  lemma UCS4Says(rs: seq<uint32>)
    ensures var r := DecodeText(3, Quads(rs)); r.Ok? && Runes(r.value) == Shown(rs)
  {
    hide EncodeRunes, Runes, Shown, GetU32;
    var d := Quads(rs);
    forall i | 0 <= i < |rs|
      ensures |d| == 4 * |rs| && GetU32(d[4 * i..]) == rs[i]
    {
      QuadAt(rs, i);
    }
    assert |d| == 4 * |rs|;
    var got: seq<int> := seq(|d| / 4, i requires 0 <= i < |d| / 4 => GetU32(d[4 * i..]));
    assert got == rs;
    RunesOfEncoded(rs);
  }

  /** A big-endian UTF-16 string decodes to its code points, pairs of surrogates
      being one code point and lone ones U+FFFD. */
  lemma UTF16Says(rs: seq<int>)
    requires CodePoints(rs) && WellPaired(rs)
    ensures var r := DecodeText(4, Pairs(Units(rs))); r.Ok? && Runes(r.value) == Shown(rs)
  {
    hide EncodeRunes, Runes, Shown, GetU16, DecodeUTF16;
    var u := Units(rs);
    var d := Pairs(u);
    forall i | 0 <= i < |u|
      ensures |d| == 2 * |u| && GetU16(d[2 * i..]) == u[i]
    {
      PairAt(u, i);
    }
    assert |d| == 2 * |u|;
    var got: seq<uint16> := seq(|d| / 2, i requires 0 <= i < |d| / 2 => GetU16(d[2 * i..]));
    assert got == u;
    UnitsDecode(rs);
    RunesOfEncoded(DecodeUTF16(u));
  }

  /** ISO 8859-1: each octet is the code point of its number. */
  lemma Latin1Says(data: bytes)
    ensures var r := DecodeText(5, data); r.Ok? && Runes(r.value) == data
  {
    hide EncodeRunes, Runes, Shown;
    var got: seq<int> := seq(|data|, i requires 0 <= i < |data| => data[i]);
    assert got == data;
    RunesOfEncoded(got);
    assert Shown(got) == got;
  }

  /** UTF-8 data: the valid start is kept, the run of octets after it that start
      no code point becomes one U+FFFD, and so on after the run. */
  lemma UTF8Says(good: bytes, s: bytes, k: nat)
    requires ValidText(good)
    requires 0 < k <= |s| && forall j :: 0 <= j < k ==> RuneLen(s[j..]) == 0
    requires k == |s| || RuneLen(s[k..]) > 0
    ensures DecodeText(0, good) == Ok(good) && DecodeText(0, s[k..]).Ok?
    ensures DecodeText(0, good + s) == Ok(good + [0xEF, 0xBF, 0xBD] + DecodeText(0, s[k..]).value)
  {
    hide RuneLen, ToValid;
    ToValidIdentity(good);
    RepairKeepsValid(good, s);
    RepairReplacesRun(s, k);
    assert good + ([0xEF, 0xBF, 0xBD] + ToValid(s[k..], false)) == good + [0xEF, 0xBF, 0xBD] + ToValid(s[k..], false);
  }

  /** A string is refused exactly for its character set or a length that does
      not divide into characters. */
  lemma TextIsRefused(charset: byte, data: bytes)
    ensures DecodeText(charset, data).Err? <==>
      !(charset == 0 || charset == 5 || (charset == 3 && |data| % 4 == 0) || (charset == 4 && |data| % 2 == 0))
  {
  }

  /** Whatever the decoder accepts, however encoded, is a value that survives a
      round trip, and re-encoding it does not blow it up. */
  lemma DecodedDataIsOk(number: uint8, data: bytes)
    requires DecodeData(number, data).Ok?
    ensures var v := DecodeData(number, data).value;
            v.Primitive() && !v.Boolean? && ApplicationTag(v) == number && PrimitiveOk(v)
    ensures |PrimitiveData(DecodeData(number, data).value)| <= 4 * |data| + 8
  {
    match number
    case 2 => MinUnsignedExact(UnsignedData(data));
    case 3 => MinSignedExact(SignedData(data));
    case 7 => DecodedTextIsValid(data[0], data[1..]);
    case 9 => MinUnsignedExact(UnsignedData(data) % TWO_TO_32);
    case _ =>
  }

  lemma TextDataIsRefused(data: bytes)
    ensures DecodeData(7, data).Err? <==>
      (data == [] || data[0] == 1 || data[0] == 2 || data[0] > 5
       || (data[0] == 3 && (|data| - 1) % 4 != 0) || (data[0] == 4 && (|data| - 1) % 2 != 0))
  {
    hide DecodeText;
    if data != [] { TextIsRefused(data[0], data[1..]); }
  }

  /** Exactly which data octets are refused: fixed-width types have one length,
      text needs a character set it can be read in, and a bit string must not
      have more unused bits than bits. */
  lemma DataIsRefused(number: uint8, data: bytes)
    ensures DecodeData(number, data).Err? <==>
      || number == 1 || number > 12
      || ((number == 4 || number == 10 || number == 11 || number == 12) && |data| != 4)
      || (number == 5 && |data| != 8)
      || (number == 7 && (data == [] || data[0] == 1 || data[0] == 2 || data[0] > 5
                          || (data[0] == 3 && (|data| - 1) % 4 != 0) || (data[0] == 4 && (|data| - 1) % 2 != 0)))
      || (number == 8 && (data == [] || data[0] > 8 * (|data| - 1)))
  {
    if number == 7 {
      hide DecodeData;
      TextDataIsRefused(data);
    } else {
      hide DecodeText, UnsignedData, SignedData, BitAt;
    }
  }

  lemma CutTwice(x: nat)
    ensures x % TWO_TO_64 % TWO_TO_32 == x % TWO_TO_32
  {
    var q, r := x / TWO_TO_64, x % TWO_TO_64;
    var a, b := r / TWO_TO_32, r % TWO_TO_32;
    assert x == (q * TWO_TO_32 + a) * TWO_TO_32 + b;
  }

  /** Numbers of any length: unsigned ones keep their low 64 bits, enumerated ones
      32, and signed ones are wrapped by a multiple of 2^64. */
  lemma NumbersAreCut(data: bytes)
    ensures DecodeData(2, data) == Ok(UnsignedInt(Unsigned(data) % 0x1_0000_0000_0000_0000))
    ensures DecodeData(9, data) == Ok(Enumerated(Unsigned(data) % 0x1_0000_0000))
    ensures var r := DecodeData(3, data);
            r.Ok? && r.value.SignedInt? && (Signed(data) - r.value.i) % 0x1_0000_0000_0000_0000 == 0
  {
    hide Unsigned, Signed;
    CutTwice(Unsigned(data));
    var x := Signed(data) + TWO_TO_63;
    assert Signed(data) - SignedData(data) == x / TWO_TO_64 * TWO_TO_64;
    Multiple(x / TWO_TO_64);
  }

  lemma Multiple(k: int)
    ensures k * TWO_TO_64 % TWO_TO_64 == 0
  {
  }

  /** Reading a header, its data and whatever follows. */
  lemma ReadDataBytes(number: uint8, data: bytes, v: Value, tail: bytes)
    requires number != TAG_BOOLEAN && DecodeData(number, data) == Ok(v)
    requires |data| + |tail| < TWO_TO_32
    ensures var h := DataHeader(number, false, |data|);
            ReadApplication(h + data + tail) == Ok((v, |h| + |data|))
  {
    hide ReadHeader, DecodeData, DataHeader;
    var h := DataHeader(number, false, |data|);
    DataHeaderRoundTrip(number, false, |data|, data + tail);
    var buf := h + data + tail;
    assert buf == h + (data + tail);
    assert buf[|h|..|h| + |data|] == data;
    assert |buf| - |h| == |data| + |tail|;
  }

  lemma ReadBoolean(b: bool, tail: bytes)
    ensures var h := DataHeader(TAG_BOOLEAN, false, if b then 1 else 0);
            ReadApplication(h + tail) == Ok((Boolean(b), |h|))
  {
    DataHeaderRoundTrip(TAG_BOOLEAN, false, if b then 1 else 0, tail);
  }

  /** Reading e, followed by tail, gives v and consumes exactly e. */
  predicate ReadsBack(v: Value, e: bytes, tail: bytes) {
    ReadApplication(e + tail) == Ok((v, |e|))
  }

  lemma PrimitiveRoundTrip(v: Value, tail: bytes)
    requires v.Primitive() && PrimitiveOk(v)
    requires |PrimitiveData(v)| + |tail| < TWO_TO_32
    ensures ReadsBack(v, PrimitiveBytes(false, ApplicationTag(v), v), tail)
  {
    hide ReadHeader, ReadApplication, DecodeData, PrimitiveData, DataHeader;
    var e := PrimitiveBytes(false, ApplicationTag(v), v);
    if v.Boolean? {
      ReadBoolean(v.b, tail);
    } else {
      var data := PrimitiveData(v);
      PrimitiveDataRoundTrip(v);
      assert e == DataHeader(ApplicationTag(v), false, |data|) + data;
      ReadDataBytes(ApplicationTag(v), data, v, tail);
    }
  }

  // ----- the encoding switch, grown onto buf as in the source

  method EncodeData(v: Value) returns (data: bytes)
    requires v.Primitive()
    ensures data == PrimitiveData(v)
  {
    match v {
      case UnsignedInt(u) => data := MinUnsignedBytes(u);
      case SignedInt(i) => data := MinSignedBytes(i);
      case BitString(bits) => data := EncodeBitStringData(bits);
      case Enumerated(e) => data := MinUnsignedBytes(e);
      case _ => data := PrimitiveData(v);
    }
  }

  method AppendContextValue(buf: bytes, context: bool, tagNumber: uint8, v: Value) returns (out: bytes)
    requires v.Primitive()
    ensures out == buf + PrimitiveBytes(context, tagNumber, v)
  {
    hide PrimitiveData, DataHeader;
    if v.Boolean? && !context {
      var lvt := if v.b then 1 else 0;
      out := AppendTagHeader(buf, tagNumber, false, lvt);
    } else {
      var data := EncodeData(v);
      out := AppendTagHeader(buf, tagNumber, context, |data| % TWO_TO_32);
      assert out + data == buf + (DataHeader(tagNumber, context, |data| % TWO_TO_32) + data);
      out := out + data;
    }
  }
}
