/** Service parameters: the tagged fields shared by every service, and the
    single-property services (services.go, errors.go). */
module Services {
  import opened Octets
  import opened Tag
  import opened Integers
  import opened Values
  import opened Nested

  /** The three fields every property service starts with. */
  datatype Target = Target(obj: ObjectIdentifier, property: PropertyIdentifier, arrayIndex: Option<uint32>)

  datatype ReadPropertyACK = ReadPropertyACK(target: Target, values: seq<Value>)

  datatype WritePropertyRequest = WritePropertyRequest(target: Target, value: Value, priority: Option<uint8>)

  datatype BACnetError = BACnetError(errorClass: uint32, code: uint32)

  datatype WhoIsRequest = WhoIsRequest(low: Option<uint32>, high: Option<uint32>)

  datatype IAm = IAm(device: ObjectIdentifier, maxAPDULength: uint32, segmentation: uint32, vendorID: uint32)

  // ----- context-tagged fields

  function ObjectField(o: ObjectIdentifier): bytes { PrimitiveBytes(true, 0, ObjectID(o)) }

  function EnumField(tag: uint8, v: uint32): bytes { PrimitiveBytes(true, tag, Enumerated(v)) }

  function UnsignedField(tag: uint8, v: uint32): bytes { PrimitiveBytes(true, tag, UnsignedInt(v)) }

  function IndexField(tag: uint8, i: Option<uint32>): bytes {
    if i.None? then [] else UnsignedField(tag, i.value)
  }

  /** peekContextTag */
  function PeekContext(buf: bytes): Option<TagInfo> {
    if buf != [] && ReadHeader(buf).Ok? && ReadHeader(buf).value.context then Some(ReadHeader(buf).value) else None
  }

  /** decodeContextData: a primitive with tag number want, its data and length. */
  function ContextData(buf: bytes, want: uint8): (r: Result<(bytes, nat)>)
    ensures r.Ok? ==> 1 <= r.value.1 <= |buf|
  {
    var th :- ReadHeader(buf);
    if !th.context || th.number != want || th.IsMarker() then Err(ExpectedContextTag)
    else if (|buf| - th.header) % TWO_TO_32 < th.lvt then Err(TruncatedData)
    else Ok((buf[th.header..th.header + th.lvt], th.header + th.lvt))
  }

  function ContextUnsigned(buf: bytes, want: uint8): (r: Result<(uint64, nat)>)
    ensures r.Ok? ==> 1 <= r.value.1 <= |buf|
  {
    var (data, n) :- ContextData(buf, want);
    Ok((UnsignedData(data), n))
  }

  function ContextEnumerated(buf: bytes, want: uint8): (r: Result<(uint32, nat)>)
    ensures r.Ok? ==> 1 <= r.value.1 <= |buf|
  {
    var (v, n) :- ContextUnsigned(buf, want);
    Ok((v % TWO_TO_32, n))
  }

  function ContextObjectID(buf: bytes, want: uint8): (r: Result<(ObjectIdentifier, nat)>)
    ensures r.Ok? ==> 1 <= r.value.1 <= |buf|
  {
    var (data, n) :- ContextData(buf, want);
    var o :- DecodeObjectID(data);
    Ok((o, n))
  }

  /** An optional array index: present when a context tag with the wanted number
      comes next. ReadPropertyMultiple also insists that it is not a marker. */
  predicate IndexAhead(buf: bytes, want: uint8, notMarker: bool) {
    PeekContext(buf).Some? && PeekContext(buf).value.number == want
    && !(notMarker && PeekContext(buf).value.IsMarker())
  }

  function OptionalIndex(buf: bytes, want: uint8, notMarker: bool): (r: Result<(Option<uint32>, nat)>)
    ensures r.Ok? ==> r.value.1 <= |buf|
  {
    if IndexAhead(buf, want, notMarker) then
      var (i, n) :- ContextUnsigned(buf, want);
      Ok((Some(i % TWO_TO_32), n))
    else Ok((None, 0))
  }

  lemma ContextDataReads(tag: uint8, data: bytes, tail: bytes)
    requires |data| != 6 && |data| != 7 && |data| + |tail| < TWO_TO_32
    ensures var h := DataHeader(tag, true, |data|);
            ContextData(h + data + tail, tag) == Ok((data, |h| + |data|))
            && PeekContext(h + data + tail) == Some(TagInfo(tag, true, |data|, |h|))
  {
    hide ReadHeader, DataHeader;
    var h := DataHeader(tag, true, |data|);
    DataHeaderRoundTrip(tag, true, |data|, data + tail);
    assert h + data + tail == h + (data + tail);
    assert (h + (data + tail))[|h|..|h| + |data|] == data;
  }

  lemma MinUnsigned32(v: uint32)
    ensures |MinUnsigned(v)| <= 4
  {
    hide MinUnsigned, BigEndian, Unsigned;
    PowValues();
    UnsignedBigEndian(v, 4);
    MinUnsignedShortest(v, BigEndian(v, 4));
  }

  lemma UnsignedFieldReads(tag: uint8, v: uint32, tail: bytes)
    requires |tail| < 0xFFFF_0000
    ensures var e := UnsignedField(tag, v);
            e == EnumField(tag, v) && 1 <= |e| <= 11
            && ContextUnsigned(e + tail, tag) == Ok((v, |e|))
            && ContextEnumerated(e + tail, tag) == Ok((v, |e|))
            && IndexAhead(e + tail, tag, true) && IndexAhead(e + tail, tag, false)
  {
    hide ReadHeader, DataHeader, ContextData, PeekContext, MinUnsigned, UnsignedData;
    var data := MinUnsigned(v);
    MinUnsigned32(v);
    MinUnsignedExact(v);
    ContextDataReads(tag, data, tail);
  }

  lemma ObjectFieldReads(o: ObjectIdentifier, tail: bytes)
    requires ObjectOk(o) && |tail| < 0xFFFF_0000
    ensures ContextObjectID(ObjectField(o) + tail, 0) == Ok((o, |ObjectField(o)|))
    ensures 1 <= |ObjectField(o)| <= 11
  {
    hide ReadHeader, DataHeader, ContextData, PeekContext, DecodeObjectID, PutU32;
    var data := EncodeObjectID(o);
    ContextDataReads(0, data, tail);
    ObjectIDRoundTrip(o);
  }

  /** Every decoded object identifier fits its 10 and 22 bits. */
  lemma DecodedObjectOk(buf: bytes, want: uint8)
    requires ContextObjectID(buf, want).Ok?
    ensures ObjectOk(ContextObjectID(buf, want).value.0)
  {
    hide ContextData;
  }

  lemma OptionalIndexReads(i: Option<uint32>, tag: uint8, notMarker: bool, tail: bytes)
    requires |tail| < 0xFFFF_0000
    requires i.None? ==> !IndexAhead(tail, tag, notMarker)
    ensures OptionalIndex(IndexField(tag, i) + tail, tag, notMarker) == Ok((i, |IndexField(tag, i)|))
    ensures |IndexField(tag, i)| <= 11
  {
    hide ContextUnsigned, IndexAhead, UnsignedField;
    if i.Some? {
      UnsignedFieldReads(tag, i.value, tail);
    } else {
      assert [] + tail == tail;
    }
  }

  /** A marker with another number, or the end of the data, is no index. */
  lemma MarkerIsNoIndex(tag: uint8, lvt: uint8, tail: bytes, want: uint8, notMarker: bool)
    requires lvt == OPENING_LVT || lvt == CLOSING_LVT
    requires tag != want || notMarker
    ensures !IndexAhead(Marker(tag, lvt) + tail, want, notMarker)
    ensures !IndexAhead([], want, notMarker)
  {
    hide ReadHeader, Marker;
    MarkerRoundTrip(tag, lvt, tail);
  }

  lemma MarkerReads(tag: uint8, tail: bytes)
    ensures ExpectOpening(Marker(tag, OPENING_LVT) + tail, tag) == Ok(|Marker(tag, OPENING_LVT)|)
    ensures ExpectClosing(Marker(tag, CLOSING_LVT) + tail, tag) == Ok(|Marker(tag, CLOSING_LVT)|)
  {
    hide ReadHeader, Marker;
    MarkerRoundTrip(tag, OPENING_LVT, tail);
    MarkerRoundTrip(tag, CLOSING_LVT, tail);
  }

  // ----- object, property and optional array index

  function TargetBytes(t: Target): bytes {
    ObjectField(t.obj) + EnumField(1, t.property) + IndexField(2, t.arrayIndex)
  }

  function ReadTarget(buf: bytes): (r: Result<(Target, nat)>)
    ensures r.Ok? ==> r.value.1 <= |buf|
  {
    var (o, n) :- ContextObjectID(buf, 0);
    var (p, m) :- ContextEnumerated(buf[n..], 1);
    var (i, k) :- OptionalIndex(buf[n..][m..], 2, false);
    Ok((Target(o, p, i), n + m + k))
  }

  lemma ReadTargetStep(buf: bytes, t: Target, n: nat, m: nat, k: nat)
    requires ContextObjectID(buf, 0) == Ok((t.obj, n)) && n <= |buf|
    requires ContextEnumerated(buf[n..], 1) == Ok((t.property, m)) && n + m <= |buf|
    requires OptionalIndex(buf[n..][m..], 2, false) == Ok((t.arrayIndex, k))
    ensures ReadTarget(buf) == Ok((t, n + m + k))
  {
    hide ContextObjectID, ContextEnumerated, OptionalIndex;
  }

  lemma TargetReads(t: Target, tail: bytes)
    requires ObjectOk(t.obj) && |tail| < 0xFFFE_0000
    requires !IndexAhead(tail, 2, false)
    ensures ReadTarget(TargetBytes(t) + tail) == Ok((t, |TargetBytes(t)|)) && |TargetBytes(t)| <= 33
  {
    hide ContextObjectID, ContextEnumerated, OptionalIndex, IndexAhead, ObjectField, EnumField, IndexField, ReadTarget;
    var a, b, c := ObjectField(t.obj), EnumField(1, t.property), IndexField(2, t.arrayIndex);
    OptionalIndexReads(t.arrayIndex, 2, false, tail);
    UnsignedFieldReads(1, t.property, c + tail);
    ObjectFieldReads(t.obj, b + (c + tail));
    Cut4(a, b, c, tail);
    ReadTargetStep(TargetBytes(t) + tail, t, |a|, |b|, |c|);
  }

  lemma ReadTargetOk(buf: bytes)
    requires ReadTarget(buf).Ok?
    ensures ObjectOk(ReadTarget(buf).value.0.obj)
  {
    hide ContextObjectID, ContextEnumerated, OptionalIndex, ObjectOk;
    DecodedObjectOk(buf, 0);
  }

  // ----- ReadProperty

  /** EncodeReadPropertyRequest is TargetBytes; octets after the request are ignored. */
  function DecodeReadPropertyRequest(buf: bytes): Result<Target> {
    var (t, _) :- ReadTarget(buf);
    Ok(t)
  }

  lemma ReadPropertyRequestRoundTrip(t: Target)
    ensures DecodeReadPropertyRequest(TargetBytes(t)) == Ok(t) <==> ObjectOk(t.obj)
  {
    hide ReadTarget, TargetBytes, ObjectOk, IndexAhead;
    if ObjectOk(t.obj) {
      MarkerIsNoIndex(3, OPENING_LVT, [], 2, false);
      TargetReads(t, []);
      assert TargetBytes(t) + [] == TargetBytes(t);
    } else if ReadTarget(TargetBytes(t)).Ok? {
      ReadTargetOk(TargetBytes(t));
    }
  }

  function EncodeReadPropertyACK(a: ReadPropertyACK): bytes {
    TargetBytes(a.target) + Marker(3, OPENING_LVT) + ValuesBytes(a.values) + Marker(3, CLOSING_LVT)
  }

  function DecodeReadPropertyACK(buf: bytes): Result<ReadPropertyACK> {
    var (t, n) :- ReadTarget(buf);
    var o :- ExpectOpening(buf[n..], 3);
    var (vs, m) :- ReadValues(buf[n..][o..], 0);
    var _ :- ExpectClosing(buf[n..][o..][m..], 3);
    Ok(ReadPropertyACK(t, vs))
  }

  /** EncodeReadPropertyACK: a buffer grown value by value. */
  method BuildReadPropertyACK(a: ReadPropertyACK) returns (buf: bytes)
    ensures buf == EncodeReadPropertyACK(a)
  {
    hide TargetBytes, ValuesBytes, Marker;
    buf := TargetBytes(a.target) + Marker(3, OPENING_LVT);
    buf := AppendValues(buf, a.values);
    buf := buf + Marker(3, CLOSING_LVT);
  }

  /** DecodeReadPropertyACK: a cursor over the reply. */
  method ParseReadPropertyACK(buf: bytes) returns (r: Result<ReadPropertyACK>)
    ensures r == DecodeReadPropertyACK(buf)
  {
    hide ReadTarget, ExpectOpening, ExpectClosing, ReadValues;
    var head :- ReadTarget(buf);
    var target, pos := head.0, head.1;
    var n :- ExpectOpening(buf[pos..], 3);
    assert buf[pos..][n..] == buf[pos + n..];
    pos := pos + n;
    var run :- DecodeNestedValues(buf[pos..], 0);
    assert buf[pos..][run.1..] == buf[pos + run.1..];
    pos := pos + run.1;
    var _ :- ExpectClosing(buf[pos..], 3);
    return Ok(ReadPropertyACK(target, run.0));
  }

  /** The property value of a ReadProperty-ACK survives exactly when the values
      are in the round-trip domain and nest at most 16 deep. */
  lemma ReadPropertyACKRoundTrip(a: ReadPropertyACK)
    requires |ValuesBytes(a.values)| < 0x8000_0000
    ensures DecodeReadPropertyACK(EncodeReadPropertyACK(a)) == Ok(a)
       <==> ObjectOk(a.target.obj) && ValuesOk(a.values) && Height(a.values) <= MAX_NESTING
  {
    hide ReadTarget, TargetBytes, ObjectOk, ExpectOpening, ExpectClosing, ReadValues, Marker, ValuesBytes;
    hide ValuesOk, Height, Stops, IndexAhead;
    var buf := EncodeReadPropertyACK(a);
    if ObjectOk(a.target.obj) && ValuesOk(a.values) && Height(a.values) <= MAX_NESTING {
      var t, o, v, c := TargetBytes(a.target), Marker(3, OPENING_LVT), ValuesBytes(a.values), Marker(3, CLOSING_LVT);
      Cut4(t, o, v, c);
      MarkerIsNoIndex(3, OPENING_LVT, v + c, 2, false);
      TargetReads(a.target, o + (v + c));
      MarkerReads(3, v + c);
      MarkerReads(3, []);
      assert c + [] == c;
      ClosingStops(3, []);
      RunRoundTrip(a.values, 0, c);
    } else if DecodeReadPropertyACK(buf) == Ok(a) {
      ReadTargetOk(buf);
      var n := ReadTarget(buf).value.1;
      RunInDomain(buf[n..][ExpectOpening(buf[n..], 3).value..], 0);
    }
  }

  // ----- WriteProperty

  function EncodeWritePropertyRequest(w: WritePropertyRequest): bytes {
    TargetBytes(w.target) + Marker(3, OPENING_LVT) + ValueBytes(w.value) + Marker(3, CLOSING_LVT)
    + (if w.priority.None? then [] else UnsignedField(4, w.priority.value))
  }

  function ReadPriority(buf: bytes): Result<Option<uint8>> {
    if IndexAhead(buf, 4, false) then
      var (p, _) :- ContextUnsigned(buf, 4);
      Ok(Some(p % 256))
    else Ok(None)
  }

  function DecodeWritePropertyRequest(buf: bytes): Result<WritePropertyRequest> {
    var (t, n) :- ReadTarget(buf);
    var o :- ExpectOpening(buf[n..], 3);
    var (v, m) :- ReadApplication(buf[n..][o..]);
    var c :- ExpectClosing(buf[n..][o..][m..], 3);
    var p :- ReadPriority(buf[n..][o..][m..][c..]);
    Ok(WritePropertyRequest(t, v, p))
  }

  /** DecodeWritePropertyRequest: a cursor over the request. */
  method ParseWritePropertyRequest(buf: bytes) returns (r: Result<WritePropertyRequest>)
    ensures r == DecodeWritePropertyRequest(buf)
  {
    hide ReadTarget, ExpectOpening, ExpectClosing, ReadApplication, ContextUnsigned;
    var head :- ReadTarget(buf);
    var target, pos := head.0, head.1;
    var n :- ExpectOpening(buf[pos..], 3);
    assert buf[pos..][n..] == buf[pos + n..];
    pos := pos + n;
    var item :- ReadApplication(buf[pos..]);
    assert buf[pos..][item.1..] == buf[pos + item.1..];
    pos := pos + item.1;
    n :- ExpectClosing(buf[pos..], 3);
    assert buf[pos..][n..] == buf[pos + n..];
    pos := pos + n;
    var priority: Option<uint8> := None;
    if pos < |buf| {
      if IndexAhead(buf[pos..], 4, false) {
        var p :- ContextUnsigned(buf[pos..], 4);
        priority := Some(p.0 % 256);
      }
    }
    return Ok(WritePropertyRequest(target, item.0, priority));
  }

  /** Numbers wider than their fields are cut to the low 32 bits, a priority to the
      low 8; data of 6 or 7 octets is refused as a marker. */
  lemma WideFields(tag: uint8, data: bytes, tail: bytes)
    requires |data| + |tail| < 0xFFFF_0000
    ensures var buf := DataHeader(tag, true, |data|) + data + tail;
            var n := |DataHeader(tag, true, |data|)| + |data|;
            if |data| == 6 || |data| == 7 then ContextUnsigned(buf, tag).Err? && OptionalIndex(buf, tag, false).Err?
            else
              && ContextUnsigned(buf, tag) == Ok((UnsignedData(data), n))
              && ContextEnumerated(buf, tag) == Ok((UnsignedData(data) % 0x1_0000_0000, n))
              && OptionalIndex(buf, tag, false) == Ok((Some(UnsignedData(data) % 0x1_0000_0000), n))
              && (tag == 4 ==> ReadPriority(buf) == Ok(Some(UnsignedData(data) % 256)))
  {
    hide ReadHeader, DataHeader, UnsignedData;
    var h := DataHeader(tag, true, |data|);
    assert h + data + tail == h + (data + tail);
    DataHeaderRoundTrip(tag, true, |data|, data + tail);
    if |data| != 6 && |data| != 7 { ContextDataReads(tag, data, tail); }
  }

  lemma PriorityReads(p: Option<uint8>)
    ensures ReadPriority(if p.None? then [] else UnsignedField(4, p.value)) == Ok(p)
  {
    hide ContextUnsigned, ContextEnumerated, UnsignedField, EnumField, IndexAhead;
    NoIndexInNothing(4);
    if p.Some? {
      UnsignedFieldReads(4, p.value, []);
      assert UnsignedField(4, p.value) + [] == UnsignedField(4, p.value);
    }
  }

  lemma NoIndexInNothing(want: uint8)
    ensures !IndexAhead([], want, false)
  {
  }

  /** The decoder takes a single application-tagged value, so a write survives
      exactly when its value is a primitive that fits its wire fields. */
  lemma WritePropertyRoundTrip(w: WritePropertyRequest)
    requires |ValueBytes(w.value)| < 0x8000_0000
    ensures DecodeWritePropertyRequest(EncodeWritePropertyRequest(w)) == Ok(w)
       <==> ObjectOk(w.target.obj) && w.value.Primitive() && PrimitiveOk(w.value)
  {
    hide ReadTarget, TargetBytes, ObjectOk, ExpectOpening, ExpectClosing, ReadApplication, Marker, ValueBytes;
    hide PrimitiveOk, ReadPriority, UnsignedField, IndexAhead;
    var buf := EncodeWritePropertyRequest(w);
    var p := if w.priority.None? then [] else UnsignedField(4, w.priority.value);
    if ObjectOk(w.target.obj) && w.value.Primitive() && PrimitiveOk(w.value) {
      var t, o, v, c := TargetBytes(w.target), Marker(3, OPENING_LVT), ValueBytes(w.value), Marker(3, CLOSING_LVT);
      Cut5(t, o, v, c, p);
      PriorityReads(w.priority);
      if w.priority.Some? { UnsignedFieldReads(4, w.priority.value, []); }
      MarkerIsNoIndex(3, OPENING_LVT, v + (c + p), 2, false);
      TargetReads(w.target, o + (v + (c + p)));
      MarkerReads(3, v + (c + p));
      MarkerReads(3, p);
      PrimitiveValueReads(w.value, c + p);
    } else if DecodeWritePropertyRequest(buf) == Ok(w) {
      ReadTargetOk(buf);
      var n := ReadTarget(buf).value.1;
      ApplicationInDomain(buf[n..][ExpectOpening(buf[n..], 3).value..]);
    }
  }

  lemma PrimitiveValueReads(v: Value, tail: bytes)
    requires v.Primitive() && PrimitiveOk(v) && |ValueBytes(v)| + |tail| < TWO_TO_32
    ensures ReadApplication(ValueBytes(v) + tail) == Ok((v, |ValueBytes(v)|))
  {
    hide ReadHeader, ReadApplication, PrimitiveOk;
    if !v.Boolean? {
      assert |PrimitiveData(v)| <= |ValueBytes(v)|;
    }
    PrimitiveRoundTrip(v, tail);
  }
}
