/** The octets the encoders write, field by field. Round trips alone cannot tell
    a standard encoding from one that encoder and decoder got wrong alike, so
    the layouts of ASHRAE 135 clauses 20.2 and 21 are written out here. */
module Layouts {
  import opened Octets
  import opened Integers
  import opened BitStrings
  import opened Tag
  import opened Values
  import opened Nested
  import opened Services
  import opened ReadMultiple
  import opened ReadMultipleAck
  import Stack
  import Discovery

  lemma OneOctet(v: byte)
    ensures MinUnsigned(v) == [v]
  {
    hide MinUnsigned;
    UnsignedOfOne(v);
    MinUnsignedExact(v);
    MinUnsignedShortest(v, [v]);
    var d := MinUnsigned(v);
    UnsignedOfOne(d[0]);
    assert d == [d[0]];
  }

  lemma UnsignedOfOne(v: byte)
    ensures Unsigned([v]) == v
  {
    assert [v][..0] == [];
  }

  lemma TwoOctets(v: uint16)
    requires v >= 256
    ensures MinUnsigned(v) == [v / 256, v % 256]
  {
    hide MinUnsigned, Unsigned;
    var w: bytes := [v / 256, v % 256];
    UnsignedOfTwo(v / 256, v % 256);
    assert Unsigned(w) == v;
    MinUnsignedExact(v);
    MinUnsignedShortest(v, w);
    TwoDigits(v, MinUnsigned(v));
  }

  lemma TwoDigits(v: uint16, d: bytes)
    requires v >= 256 && 0 < |d| <= 2 && UnsignedData(d) == v
    ensures d == [v / 256, v % 256]
  {
    hide Unsigned;
    OctetIsSmall(d);
    UnsignedOfTwo(d[0], d[1]);
    assert d == [d[0], d[1]];
  }

  lemma OctetIsSmall(d: bytes)
    ensures |d| == 1 ==> Unsigned(d) == d[0]
  {
    if |d| == 1 {
      UnsignedOfOne(d[0]);
      assert d == [d[0]];
    }
  }

  lemma UnsignedOfTwo(a: byte, b: byte)
    ensures Unsigned([a, b]) == a as int * 256 + b
  {
    UnsignedOfOne(a);
    assert [a, b][..1] == [a];
  }

  lemma OneSignedOctet(v: int64)
    requires -128 <= v < 128
    ensures MinSigned(v) == [if v < 0 then v + 256 else v]
  {
    hide MinSigned;
    var w: bytes := [if v < 0 then v + 256 else v];
    MinSignedExact(v);
    MinSignedShortest(v, w);
    var d := MinSigned(v);
    assert d == [d[0]];
  }

  // ----- tags

  /** A data header: tag number, class bit 0x08 and length, the number in a second
      octet from 15 on, the length in one, two or four octets from 5, 254 and
      65536 on. */
  lemma HeaderOctets(number: uint8, context: bool, length: uint32)
    ensures var first, mark := if number < 15 then [number * 16] else [0xF0, number], if context then 0x08 else 0;
            DataHeader(number, context, length) ==
              [first[0] + mark + (if length < 5 then length else 5)] + first[1..]
              + (if length < 5 then []
                 else if length < 254 then [length]
                 else if length < 65536 then [254, length / 256, length % 256]
                 else [255, length / 0x100_0000, length / 0x1_0000 % 256, length / 256 % 256, length % 256])
  {
    hide PutU32;
    if length >= 65536 { Quadruple(length); }
  }

  lemma Quadruple(v: uint32)
    ensures PutU32(v) == [v / 0x100_0000, v / 0x1_0000 % 256, v / 256 % 256, v % 256]
  {
  }

  /** Opening and closing tags are 6 and 7 in the low bits of a context tag. */
  lemma MarkerOctets(number: uint8)
    ensures number < 15 ==> Marker(number, 6) == [number * 16 + 0x0E] && Marker(number, 7) == [number * 16 + 0x0F]
    ensures number >= 15 ==> Marker(number, 6) == [0xFE, number] && Marker(number, 7) == [0xFF, number]
  {
  }

  // ----- application values

  lemma NumberOctets(v: byte, w: uint16, i: int64)
    requires w >= 256 && -128 <= i < 128
    ensures ValueBytes(UnsignedInt(v)) == [0x21, v] && ValueBytes(UnsignedInt(w)) == [0x22, w / 256, w % 256]
    ensures ValueBytes(Enumerated(v)) == [0x91, v] && ValueBytes(Enumerated(w)) == [0x92, w / 256, w % 256]
    ensures ValueBytes(SignedInt(i)) == [0x31, if i < 0 then i + 256 else i]
  {
    hide MinUnsigned, MinSigned;
    OneOctet(v);
    TwoOctets(w);
    OneSignedOctet(i);
  }

  lemma FixedOctets(r: uint32, high: uint32, low: uint32)
    ensures ValueBytes(Null) == [0x00] && ValueBytes(Boolean(false)) == [0x10] && ValueBytes(Boolean(true)) == [0x11]
    ensures ValueBytes(Real(r)) == [0x44] + PutU32(r)
    ensures ValueBytes(Double(high * TWO_TO_32 + low)) == [0x55, 0x08] + PutU32(high) + PutU32(low)
  {
    hide PutU32, BigEndian;
    DoubleOctets(high, low);
  }

  lemma UnsignedAppend(d: bytes, b: byte)
    ensures Unsigned(d + [b]) == Unsigned(d) * 256 + b
  {
    assert (d + [b])[..|d|] == d;
  }

  lemma UnsignedAppend4(d: bytes, v: uint32)
    ensures Unsigned(d + PutU32(v)) == Unsigned(d) * TWO_TO_32 + v
  {
    hide Unsigned;
    var e := PutU32(v);
    UnsignedAppend(d, e[0]);
    UnsignedAppend(d + [e[0]], e[1]);
    UnsignedAppend(d + [e[0]] + [e[1]], e[2]);
    UnsignedAppend(d + [e[0]] + [e[1]] + [e[2]], e[3]);
    assert d + e == d + [e[0]] + [e[1]] + [e[2]] + [e[3]];
    Digits(v);
  }

  lemma DoubleOctets(high: uint32, low: uint32)
    ensures BigEndian(high * TWO_TO_32 + low, 8) == PutU32(high) + PutU32(low)
  {
    hide BigEndian, PutU32;
    UnsignedAppend4([], high);
    assert [] + PutU32(high) == PutU32(high);
    UnsignedAppend4(PutU32(high), low);
    BigEndianUnsigned(PutU32(high) + PutU32(low));
  }

  lemma DateOctets(d: Date)
    requires DateOk(d)
    ensures ValueBytes(DateValue(d)) == [0xA4, if d.year < 0 then 255 else d.year - 1900,
      if d.month < 0 then 255 else d.month, if d.day < 0 then 255 else d.day,
      if d.dayOfWeek < 0 then 255 else d.dayOfWeek]
  {
    var data := EncodeDate(d);
    assert EncodeField(d.year - 1900) == if d.year < 0 then 255 else d.year - 1900;
    hide EncodeField;
    assert ValueBytes(DateValue(d)) == [0xA4] + data;
  }

  lemma TimeOctets(t: Time)
    requires TimeOk(t)
    ensures ValueBytes(TimeValue(t)) == [0xB4, if t.hour < 0 then 255 else t.hour,
      if t.minute < 0 then 255 else t.minute, if t.second < 0 then 255 else t.second,
      if t.hundredth < 0 then 255 else t.hundredth]
  {
    assert ValueBytes(TimeValue(t)) == [0xB4] + EncodeTime(t);
  }

  /** The four octets of an object identifier: ten bits of type, 22 of instance. */
  function ObjectOctets(o: ObjectIdentifier): (d: bytes)
    requires o.objectType < 1024 && o.instance < 0x40_0000
    ensures |d| == 4
  {
    [o.objectType / 4, o.objectType % 4 * 64 + o.instance / 0x1_0000, o.instance / 256 % 256, o.instance % 256]
  }

  lemma ObjectDigits(t: int, i: int)
    requires 0 <= t < 1024 && 0 <= i < 0x40_0000
    ensures var v := t * 0x40_0000 + i;
            v / 0x100_0000 == t / 4 && v / 0x1_0000 % 256 == t % 4 * 64 + i / 0x1_0000
            && v / 256 % 256 == i / 256 % 256 && v % 256 == i % 256
  {
    var v := t * 0x40_0000 + i;
    var a, b, c, d := t / 4, t % 4, i / 0x1_0000, i / 256;
    assert t == 4 * a + b && i == 0x1_0000 * c + i % 0x1_0000 && i == 256 * d + i % 256;
    assert v == 0x1_0000 * (256 * a + (64 * b + c)) + i % 0x1_0000;
    assert v / 0x1_0000 == 256 * a + (64 * b + c) && 64 * b + c < 256;
    assert v == 256 * (0x4000 * t + d) + i % 256;
    assert v / 256 == 256 * (64 * t) + d;
  }

  lemma ObjectNumber(o: ObjectIdentifier)
    requires o.objectType < 1024 && o.instance < 0x40_0000
    ensures EncodeObjectID(o) == PutU32(o.objectType * 0x40_0000 + o.instance)
  {
    hide PutU32;
    assert o.objectType % 1024 == o.objectType && o.instance % TWO_TO_22 == o.instance;
  }

  lemma ObjectData(o: ObjectIdentifier)
    requires o.objectType < 1024 && o.instance < 0x40_0000
    ensures EncodeObjectID(o) == ObjectOctets(o)
  {
    hide PutU32, EncodeObjectID;
    ObjectNumber(o);
    ObjectDigits(o.objectType, o.instance);
    Quadruple(o.objectType * 0x40_0000 + o.instance);
  }

  lemma ObjectIDOctets(o: ObjectIdentifier)
    requires o.objectType < 1024 && o.instance < 0x40_0000
    ensures EncodeObjectID(o) == ObjectOctets(o)
    ensures ValueBytes(ObjectID(o)) == [0xC4] + ObjectOctets(o) && ObjectField(o) == [0x0C] + ObjectOctets(o)
  {
    hide EncodeObjectID, ObjectOctets;
    ObjectData(o);
  }

  lemma ShortHeader(number: uint8, length: uint32)
    requires number < 15 && length < 254
    ensures DataHeader(number, false, length)
         == if length < 5 then [16 * number + length] else [16 * number + 5, length]
  {
  }

  /** Strings of up to four octets carry their length in the header. */
  lemma OctetStringOctets(s: bytes)
    requires |s| < 254
    ensures ValueBytes(OctetString(s)) == (if |s| < 5 then [0x60 + |s|] else [0x65, |s|]) + s
  {
    hide DataHeader;
    ShortHeader(6, |s|);
  }

  /** A character string begins with its character set, 0. */
  lemma CharacterStringOctets(s: bytes)
    requires |s| < 253
    ensures ValueBytes(CharacterString(s)) == (if |s| < 4 then [0x71 + |s|] else [0x75, |s| + 1]) + [0x00] + s
  {
    hide DataHeader;
    ShortHeader(7, |s| + 1);
    assert |[0] + s| == |s| + 1;
  }

  function Weight(b: bool, w: nat): nat { if b then w else 0 }

  /** The last four bits, most significant first, below those before them. */
  lemma LastFour(e: seq<bool>, n: nat)
    requires |e| == n + 4
    ensures Number(e) == 16 * Number(e[..n]) + Weight(e[n], 8) + Weight(e[n + 1], 4) + Weight(e[n + 2], 2)
                         + Weight(e[n + 3], 1)
  {
    assert e[..n + 3][..n + 2] == e[..n + 2] && e[..n + 2][..n + 1] == e[..n + 1] && e[..n + 1][..n] == e[..n];
    assert Number(e[..n + 1]) == 2 * Number(e[..n]) + Weight(e[n], 1);
    assert Number(e[..n + 2]) == 2 * Number(e[..n + 1]) + Weight(e[n + 1], 1);
    assert Number(e[..n + 3]) == 2 * Number(e[..n + 2]) + Weight(e[n + 2], 1);
    assert Number(e) == 2 * Number(e[..n + 3]) + Weight(e[n + 3], 1);
  }

  lemma Shifted(b: bool, w: nat)
    ensures 16 * Weight(b, w) == Weight(b, 16 * w)
  {
  }

  lemma NumberOf8(e: seq<bool>)
    requires |e| == 8
    ensures Number(e) ==
      Weight(e[0], 128) + Weight(e[1], 64) + Weight(e[2], 32) + Weight(e[3], 16)
      + Weight(e[4], 8) + Weight(e[5], 4) + Weight(e[6], 2) + Weight(e[7], 1)
  {
    NumberOfNone();
    hide Number, Weight;
    LastFour(e, 4);
    LastFour(e[..4], 0);
    assert e[..4][..0] == [];
    Shifted(e[0], 8);
    Shifted(e[1], 4);
    Shifted(e[2], 2);
    Shifted(e[3], 1);
  }

  lemma NumberOfNone()
    ensures Number([]) == 0
  {
  }

  /** A bit string: unused bits of the last octet, then the octets. Bit 8k has
      weight 128 in octet k and bit 8k + 7 weight 1; missing bits are 0. */
  lemma BitOctets(bits: seq<bool>, k: nat)
    requires k < (|bits| + 7) / 8
    ensures PackBits(bits)[0] == (8 - |bits| % 8) % 8
    ensures var e := seq(8, j requires 0 <= j < 8 => 8 * k + j < |bits| && bits[8 * k + j]);
            PackBits(bits)[1 + k] ==
              Weight(e[0], 128) + Weight(e[1], 64) + Weight(e[2], 32) + Weight(e[3], 16)
              + Weight(e[4], 8) + Weight(e[5], 4) + Weight(e[6], 2) + Weight(e[7], 1)
  {
    hide Number, Weight;
    var e: seq<bool> := seq(8, j requires 0 <= j < 8 => 8 * k + j < |bits| && bits[8 * k + j]);
    assert Eight(bits, k) == e;
    NumberOf8(e);
  }

  // ----- service parameters

  /** The context-tagged fields of a service: tag number, then length 1 or 2. */
  lemma FieldOctets(tag: uint8, v: byte, w: uint16)
    requires tag < 15 && w >= 256
    ensures EnumField(tag, v) == UnsignedField(tag, v) == [tag * 16 + 0x09, v]
    ensures EnumField(tag, w) == UnsignedField(tag, w) == [tag * 16 + 0x0A, w / 256, w % 256]
  {
    hide MinUnsigned;
    OneOctet(v);
    TwoOctets(w);
  }

  predicate Small(i: Option<uint32>) { i.Some? ==> i.value < 256 }

  lemma IndexOctets(tag: uint8, i: Option<uint32>)
    requires tag < 15 && Small(i)
    ensures IndexField(tag, i) == if i.Some? then [tag * 16 + 0x09, i.value] else []
  {
    hide UnsignedField;
    if i.Some? { FieldOctets(tag, i.value, 256); }
  }

  /** ReadProperty: object [0], property [1], array index [2]. */
  lemma TargetOctets(t: Target)
    requires ObjectOk(t.obj) && t.property < 256 && Small(t.arrayIndex)
    ensures TargetBytes(t) == [0x0C] + ObjectOctets(t.obj) + [0x19, t.property]
      + (if t.arrayIndex.Some? then [0x29, t.arrayIndex.value] else [])
  {
    hide ObjectField, EnumField, IndexField, ObjectOctets;
    ObjectIDOctets(t.obj);
    FieldOctets(1, t.property, 256);
    IndexOctets(2, t.arrayIndex);
  }

  /** The values of an acknowledgement stand in [3]. */
  lemma PropertyAckOctets(t: Target, vs: seq<Value>)
    ensures EncodeReadPropertyACK(ReadPropertyACK(t, vs)) == TargetBytes(t) + [0x3E] + ValuesBytes(vs) + [0x3F]
  {
    hide TargetBytes, ValuesBytes, Marker;
    MarkerOctets(3);
  }

  lemma PriorityOctets(priority: Option<uint8>)
    ensures (if priority.None? then [] else UnsignedField(4, priority.value))
         == (if priority.Some? then [0x49, priority.value] else [])
  {
    hide UnsignedField;
    if priority.Some? { FieldOctets(4, priority.value, 256); }
  }

  /** The value of a WriteProperty stands in [3], the priority after it in [4]. */
  lemma WriteOctets(t: Target, v: Value, priority: Option<uint8>)
    ensures EncodeWritePropertyRequest(WritePropertyRequest(t, v, priority))
         == TargetBytes(t) + [0x3E] + ValueBytes(v) + [0x3F] + (if priority.Some? then [0x49, priority.value] else [])
  {
    hide TargetBytes, UnsignedField, ValueBytes, Marker;
    MarkerOctets(3);
    PriorityOctets(priority);
  }

  /** ReadPropertyMultiple: object [0], then its properties [0] with index [1]
      inside [1]. */
  lemma ReadMultipleOctets(o: ObjectIdentifier, ps: seq<PropertyReference>, p: PropertyReference)
    requires ObjectOk(o) && p.property < 256 && Small(p.arrayIndex)
    ensures SpecBytes(ReadAccessSpec(o, ps)) == [0x0C] + ObjectOctets(o) + [0x1E] + RefsBytes(ps) + [0x1F]
    ensures RefBytes(p) == [0x09, p.property] + (if p.arrayIndex.Some? then [0x19, p.arrayIndex.value] else [])
  {
    hide ObjectField, EnumField, UnsignedField, ObjectOctets, Marker;
    ObjectIDOctets(o);
    FieldOctets(0, p.property, 256);
    IndexOctets(1, p.arrayIndex);
    MarkerOctets(1);
  }

  /** Its acknowledgement: property [2] with index [3], then the values inside [4]
      or the error inside [5]. */
  lemma ReadMultipleAckOctets(o: ObjectIdentifier, rs: seq<PropertyResult>, r: PropertyResult)
    requires ObjectOk(o) && r.property < 256 && Small(r.arrayIndex)
    requires r.err.Some? ==> r.err.value.errorClass < 256 && r.err.value.code < 256
    ensures AccessBytes(ReadAccessResult(o, rs)) == [0x0C] + ObjectOctets(o) + [0x1E] + ResultsBytes(rs) + [0x1F]
    ensures ResultBytes(r) == [0x29, r.property] + (if r.arrayIndex.Some? then [0x39, r.arrayIndex.value] else [])
      + (if r.err.None? then [0x4E] + ValuesBytes(r.values) + [0x4F]
         else [0x5E, 0x91, r.err.value.errorClass, 0x91, r.err.value.code, 0x5F])
  {
    hide ObjectField, EnumField, UnsignedField, ObjectOctets, Marker, ValueBytes;
    ObjectIDOctets(o);
    FieldOctets(2, r.property, 256);
    IndexOctets(3, r.arrayIndex);
    MarkerOctets(1);
    MarkerOctets(4);
    MarkerOctets(5);
    if r.err.Some? {
      NumberOctets(r.err.value.errorClass, 256, 0);
      NumberOctets(r.err.value.code, 256, 0);
    }
  }

  /** Error-class and error-code are application-tagged. */
  lemma ErrorOctets(id: uint8, service: uint8, errorClass: byte, code: byte)
    ensures Stack.EncodeErrorAPDU(id, service, BACnetError(errorClass, code))
         == [0x50, id, service, 0x91, errorClass, 0x91, code]
  {
    hide ValueBytes;
    NumberOctets(errorClass, 256, 0);
    NumberOctets(code, 256, 0);
  }

  lemma WhoIsOctets(low: byte, high: uint16)
    requires high >= 256
    ensures Discovery.EncodeWhoIs(WhoIsRequest(Some(low as uint32), Some(high as uint32)))
         == [0x09, low, 0x1A, high / 256, high % 256]
  {
    hide UnsignedField;
    FieldOctets(0, low, 256);
    FieldOctets(1, 0, high);
  }

  lemma IAmOctets(device: ObjectIdentifier, maxAPDU: uint16, segmentation: byte, vendor: byte)
    requires ObjectOk(device) && maxAPDU >= 256
    ensures ValuesBytes(Discovery.IAmValues(IAm(device, maxAPDU, segmentation, vendor)))
         == [0xC4] + ObjectOctets(device) + [0x22, maxAPDU / 256, maxAPDU % 256, 0x91, segmentation, 0x21, vendor]
  {
    hide ValueBytes, ObjectOctets;
    var vs := Discovery.IAmValues(IAm(device, maxAPDU, segmentation, vendor));
    ObjectIDOctets(device);
    NumberOctets(0, maxAPDU, 0);
    NumberOctets(segmentation, 256, 0);
    NumberOctets(vendor, 256, 0);
    assert ValuesBytes(vs[3..]) == [0x21, vendor];
    assert ValuesBytes(vs[2..]) == [0x91, segmentation] + [0x21, vendor] by { assert vs[2..][1..] == vs[3..]; }
    assert vs[1..][1..] == vs[2..];
  }

  // ----- values that carry a context tag

  lemma ContextOctets(tag: uint8, data: bytes, items: seq<Value>)
    requires |data| < 5
    ensures tag < 15 ==> ValueBytes(ContextPrimitive(tag, data)) == [tag * 16 + 8 + |data|] + data
    ensures tag >= 15 ==> ValueBytes(ContextPrimitive(tag, data)) == [0xF8 + |data|, tag] + data
    ensures tag < 15 ==>
      ValueBytes(Constructed(tag, items)) == [tag * 16 + 0x0E] + ValuesBytes(items) + [tag * 16 + 0x0F]
    ensures tag >= 15 ==> ValueBytes(Constructed(tag, items)) == [0xFE, tag] + ValuesBytes(items) + [0xFF, tag]
  {
    hide Marker;
    MarkerOctets(tag);
  }
}
