/** ReadPropertyMultiple acknowledgements (services.go) and the error sequences
    they carry (errors.go). */
module ReadMultipleAck {
  import opened Octets
  import opened Tag
  import opened Integers
  import opened Values
  import opened Nested
  import opened Services
  import opened ReadMultiple

  datatype PropertyResult = PropertyResult(
    property: PropertyIdentifier, arrayIndex: Option<uint32>, values: seq<Value>, err: Option<BACnetError>)

  datatype ReadAccessResult = ReadAccessResult(obj: ObjectIdentifier, results: seq<PropertyResult>)

  const TAG_ENUMERATED: uint8 := 9

  // ----- error sequences

  /** appendErrorSequence: two application-tagged Enumerated values. */
  function ErrorBytes(e: BACnetError): bytes {
    ValueBytes(Enumerated(e.errorClass)) + ValueBytes(Enumerated(e.code))
  }

  /** Error field i: application-tagged, or context-tagged with number i. */
  function ReadErrorField(buf: bytes, i: uint8): (r: Result<(uint32, nat)>)
    ensures r.Ok? ==> 1 <= r.value.1 <= |buf|
  {
    if ReadHeader(buf).Err? then Err(MalformedError)
    else
      var th := ReadHeader(buf).value;
      var ok := !th.IsMarker() && th.number == (if th.context then i else TAG_ENUMERATED);
      if !ok || th.header + th.lvt > |buf| then Err(MalformedError)
      else Ok((UnsignedData(buf[th.header..th.header + th.lvt]) % TWO_TO_32, th.header + th.lvt))
  }

  function ReadError(buf: bytes): (r: Result<(BACnetError, nat)>)
    ensures r.Ok? ==> 1 <= r.value.1 <= |buf|
  {
    var (c, n) :- ReadErrorField(buf, 0);
    var (d, m) :- ReadErrorField(buf[n..], 1);
    Ok((BACnetError(c, d), n + m))
  }

  lemma EnumeratedBytes(v: uint32)
    ensures ValueBytes(Enumerated(v)) == DataHeader(9, false, |MinUnsigned(v)|) + MinUnsigned(v)
    ensures |MinUnsigned(v)| <= 4 && UnsignedData(MinUnsigned(v)) == v
  {
    hide DataHeader, MinUnsigned, UnsignedData;
    MinUnsigned32(v);
    MinUnsignedExact(v);
  }

  lemma ErrorDataReads(context: bool, i: uint8, data: bytes, tail: bytes)
    requires |data| <= 4
    ensures var h := DataHeader(if context then i else TAG_ENUMERATED, context, |data|);
            ReadErrorField(h + data + tail, i) == Ok((UnsignedData(data) % TWO_TO_32, |h| + |data|))
  {
    hide ReadHeader, DataHeader, UnsignedData;
    var h := DataHeader(if context then i else TAG_ENUMERATED, context, |data|);
    DataHeaderRoundTrip(if context then i else TAG_ENUMERATED, context, |data|, data + tail);
    assert h + data + tail == h + (data + tail);
    assert (h + data + tail)[|h|..|h| + |data|] == data;
  }

  lemma ErrorFieldReads(v: uint32, i: uint8, tail: bytes)
    ensures ReadErrorField(ValueBytes(Enumerated(v)) + tail, i) == Ok((v, |ValueBytes(Enumerated(v))|))
    ensures ReadErrorField(EnumField(i, v) + tail, i) == Ok((v, |EnumField(i, v)|))
  {
    hide DataHeader, MinUnsigned, UnsignedData, ValueBytes, ReadErrorField;
    EnumeratedBytes(v);
    ErrorDataReads(false, i, MinUnsigned(v), tail);
    ErrorDataReads(true, i, MinUnsigned(v), tail);
  }

  /** An error survives in the standard encoding, and the context-tagged encoding
      of other services' error choices is accepted as the same error. */
  lemma ErrorRoundTrip(e: BACnetError, tail: bytes)
    ensures ReadError(ErrorBytes(e) + tail) == Ok((e, |ErrorBytes(e)|))
    ensures var f := EnumField(0, e.errorClass) + EnumField(1, e.code);
            ReadError(f + tail) == Ok((e, |f|))
  {
    hide ReadErrorField, ValueBytes, EnumField;
    var a, b := ValueBytes(Enumerated(e.errorClass)), ValueBytes(Enumerated(e.code));
    ErrorFieldReads(e.errorClass, 0, b + tail);
    ErrorFieldReads(e.code, 1, tail);
    Cut3(a, b, tail);
    var c, d := EnumField(0, e.errorClass), EnumField(1, e.code);
    ErrorFieldReads(e.errorClass, 0, d + tail);
    Cut3(c, d, tail);
  }

  // ----- specification functions

  function OutcomeBytes(values: seq<Value>, err: Option<BACnetError>): bytes {
    if err.Some? then Marker(5, OPENING_LVT) + ErrorBytes(err.value) + Marker(5, CLOSING_LVT)
    else Marker(4, OPENING_LVT) + ValuesBytes(values) + Marker(4, CLOSING_LVT)
  }

  function ResultBytes(r: PropertyResult): bytes {
    EnumField(2, r.property) + IndexField(3, r.arrayIndex) + OutcomeBytes(r.values, r.err)
  }

  function ResultsBytes(rs: seq<PropertyResult>): bytes {
    if rs == [] then [] else ResultBytes(rs[0]) + ResultsBytes(rs[1..])
  }

  function AccessBytes(a: ReadAccessResult): bytes {
    ObjectField(a.obj) + Marker(1, OPENING_LVT) + ResultsBytes(a.results) + Marker(1, CLOSING_LVT)
  }

  /** EncodeReadPropertyMultipleACK */
  function AccessesBytes(accesses: seq<ReadAccessResult>): bytes {
    if accesses == [] then [] else AccessBytes(accesses[0]) + AccessesBytes(accesses[1..])
  }

  /** The values or error of one property. The source steps over the closing tag
      by one octet, whatever its header took. */
  function ReadOutcome(buf: bytes): (r: Result<(seq<Value>, Option<BACnetError>, nat)>)
    ensures r.Ok? ==> 1 <= r.value.2 <= |buf|
  {
    var p := PeekContext(buf);
    if p.None? || !p.value.IsOpening() then Err(ExpectedOpening)
    else
      var h := p.value.header;
      if p.value.number == 4 then
        var (vs, n) :- ReadValues(buf[h..], 0);
        var _ :- ExpectClosing(buf[h..][n..], 4);
        Ok((vs, None, h + n + 1))
      else if p.value.number == 5 then
        var (e, n) :- ReadError(buf[h..]);
        var _ :- ExpectClosing(buf[h..][n..], 5);
        Ok(([], Some(e), h + n + 1))
      else Err(UnexpectedTag)
  }

  function ReadResult(buf: bytes): (r: Result<(PropertyResult, nat)>)
    ensures r.Ok? ==> 1 <= r.value.1 <= |buf|
  {
    var (p, n) :- ContextEnumerated(buf, 2);
    var (i, m) :- OptionalIndex(buf[n..], 3, true);
    var (vs, e, k) :- ReadOutcome(buf[n..][m..]);
    Ok((PropertyResult(p, i, vs, e), n + m + k))
  }

  function ReadResults(buf: bytes): (r: Result<(seq<PropertyResult>, nat)>)
    ensures r.Ok? ==> r.value.1 <= |buf|
    decreases |buf|
  {
    if ClosesAccess(buf) then Ok(([], 0))
    else
      var x :- ReadResult(buf);
      Prepend(x, ReadResults(buf[x.1..]))
  }

  function ReadAccess(buf: bytes): (r: Result<(ReadAccessResult, nat)>)
    ensures r.Ok? ==> 1 <= r.value.1 <= |buf|
  {
    var (o, n) :- ContextObjectID(buf, 0);
    var k :- ExpectOpening(buf[n..], 1);
    var (rs, m) :- ReadResults(buf[n..][k..]);
    var c :- ExpectClosing(buf[n..][k..][m..], 1);
    Ok((ReadAccessResult(o, rs), n + k + m + c))
  }

  /** DecodeReadPropertyMultipleACK, with the number of octets read. */
  function ReadAccesses(buf: bytes): (r: Result<(seq<ReadAccessResult>, nat)>)
    ensures r.Ok? ==> r.value.1 <= |buf|
    decreases |buf|
  {
    if buf == [] then Ok(([], 0))
    else
      var x :- ReadAccess(buf);
      Prepend(x, ReadAccesses(buf[x.1..]))
  }

  // ----- the round-trip domain

  /** Values are carried only without an error. */
  predicate ResultOk(r: PropertyResult) {
    ValuesOk(r.values) && Height(r.values) <= MAX_NESTING && (r.err.Some? ==> r.values == [])
  }

  predicate AccessOk(a: ReadAccessResult) {
    ObjectOk(a.obj) && forall r <- a.results :: ResultOk(r)
  }

  // ----- round trip

  lemma PeekMarker(tag: uint8, lvt: uint8, tail: bytes)
    requires lvt == OPENING_LVT || lvt == CLOSING_LVT
    ensures PeekContext(Marker(tag, lvt) + tail) == Some(TagInfo(tag, true, lvt, |Marker(tag, lvt)|))
  {
    hide ReadHeader, Marker;
    MarkerRoundTrip(tag, lvt, tail);
  }

  lemma ReadValuesOutcome(buf: bytes, vs: seq<Value>, h: nat, n: nat, c: nat)
    requires PeekContext(buf) == Some(TagInfo(4, true, OPENING_LVT, h)) && 1 <= h <= |buf|
    requires ReadValues(buf[h..], 0) == Ok((vs, n)) && n <= |buf[h..]|
    requires ExpectClosing(buf[h..][n..], 4) == Ok(c)
    ensures ReadOutcome(buf) == Ok((vs, None, h + n + 1))
  {
    hide PeekContext, ReadValues, ExpectClosing;
  }

  lemma ReadErrorOutcome(buf: bytes, e: BACnetError, h: nat, n: nat, c: nat)
    requires PeekContext(buf) == Some(TagInfo(5, true, OPENING_LVT, h)) && 1 <= h <= |buf|
    requires ReadError(buf[h..]) == Ok((e, n)) && n <= |buf[h..]|
    requires ExpectClosing(buf[h..][n..], 5) == Ok(c)
    ensures ReadOutcome(buf) == Ok(([], Some(e), h + n + 1))
  {
    hide PeekContext, ReadError, ExpectClosing;
  }

  lemma ShortMarker(tag: uint8, lvt: uint8)
    requires lvt < 8 && tag < 15
    ensures |Marker(tag, lvt)| == 1
  {
  }

  lemma OutcomeReads(r: PropertyResult, tail: bytes)
    requires ResultOk(r) && |OutcomeBytes(r.values, r.err)| + |tail| < TWO_TO_32
    ensures ReadOutcome(OutcomeBytes(r.values, r.err) + tail)
         == Ok((r.values, r.err, |OutcomeBytes(r.values, r.err)|))
  {
    hide PeekContext, ReadValues, ReadError, ExpectOpening, ExpectClosing, Marker, ValuesBytes, ErrorBytes, ReadOutcome,
      ValuesOk, Height, Stops, ReadHeader;
    var tag: uint8 := if r.err.Some? then 5 else 4;
    var o, c := Marker(tag, OPENING_LVT), Marker(tag, CLOSING_LVT);
    var inner := if r.err.Some? then ErrorBytes(r.err.value) else ValuesBytes(r.values);
    var buf := OutcomeBytes(r.values, r.err) + tail;
    Cut4(o, inner, c, tail);
    PeekMarker(tag, OPENING_LVT, inner + (c + tail));
    MarkerReads(tag, tail);
    ShortMarker(tag, CLOSING_LVT);
    if r.err.Some? {
      ErrorRoundTrip(r.err.value, c + tail);
      ReadErrorOutcome(buf, r.err.value, |o|, |inner|, |c|);
    } else {
      ClosingStops(4, tail);
      RunRoundTrip(r.values, 0, c + tail);
      ReadValuesOutcome(buf, r.values, |o|, |inner|, |c|);
    }
  }

  lemma ReadResultStep(buf: bytes, r: PropertyResult, n: nat, m: nat, k: nat)
    requires ContextEnumerated(buf, 2) == Ok((r.property, n)) && n <= |buf|
    requires OptionalIndex(buf[n..], 3, true) == Ok((r.arrayIndex, m)) && n + m <= |buf|
    requires ReadOutcome(buf[n..][m..]) == Ok((r.values, r.err, k))
    ensures ReadResult(buf) == Ok((r, n + m + k))
  {
    hide ContextEnumerated, OptionalIndex, ReadOutcome;
  }

  lemma OutcomeIsNoIndex(r: PropertyResult, tail: bytes)
    ensures !IndexAhead(OutcomeBytes(r.values, r.err) + tail, 3, true)
  {
    hide IndexAhead, Marker, ValuesBytes, ErrorBytes;
    var tag: uint8 := if r.err.Some? then 5 else 4;
    var inner := if r.err.Some? then ErrorBytes(r.err.value) else ValuesBytes(r.values);
    Cut4(Marker(tag, OPENING_LVT), inner, Marker(tag, CLOSING_LVT), tail);
    MarkerIsNoIndex(tag, OPENING_LVT, inner + (Marker(tag, CLOSING_LVT) + tail), 3, true);
  }

  lemma ResultReads(r: PropertyResult, tail: bytes)
    requires ResultOk(r) && |ResultBytes(r)| + |tail| < 0xFFFE_0000
    ensures ReadResult(ResultBytes(r) + tail) == Ok((r, |ResultBytes(r)|)) && !ClosesAccess(ResultBytes(r) + tail)
  {
    hide ContextEnumerated, OptionalIndex, ReadOutcome, ReadResult, EnumField, IndexField, OutcomeBytes,
      ClosesAccess, IndexAhead, ResultOk;
    var e, i, o := EnumField(2, r.property), IndexField(3, r.arrayIndex), OutcomeBytes(r.values, r.err);
    OutcomeReads(r, tail);
    OutcomeIsNoIndex(r, tail);
    OptionalIndexReads(r.arrayIndex, 3, true, o + tail);
    UnsignedFieldReads(2, r.property, i + (o + tail));
    FieldIsNoClose(2, r.property, i + (o + tail), 1);
    Cut4(e, i, o, tail);
    ReadResultStep(ResultBytes(r) + tail, r, |e|, |i|, |o|);
  }

  lemma {:induction false} ResultsRead(rs: seq<PropertyResult>, tail: bytes)
    requires (forall r <- rs :: ResultOk(r)) && ClosesAccess(tail) && |ResultsBytes(rs)| + |tail| < 0xFFFE_0000
    ensures ReadResults(ResultsBytes(rs) + tail) == Ok((rs, |ResultsBytes(rs)|))
  {
    hide ClosesAccess, ReadResult, ResultBytes, ResultOk;
    if rs == [] {
      assert [] + tail == tail;
    } else {
      var e, rest := ResultBytes(rs[0]), ResultsBytes(rs[1..]) + tail;
      ResultReads(rs[0], rest);
      ResultsRead(rs[1..], tail);
      Cut3(e, ResultsBytes(rs[1..]), tail);
      assert [rs[0]] + rs[1..] == rs;
    }
  }

  lemma AccessReads(a: ReadAccessResult, tail: bytes)
    requires AccessOk(a) && |AccessBytes(a)| + |tail| < 0xFFFE_0000
    ensures ReadAccess(AccessBytes(a) + tail) == Ok((a, |AccessBytes(a)|))
  {
    hide ContextObjectID, ReadResults, ResultsBytes, ExpectOpening, ExpectClosing, Marker, ObjectField, ClosesAccess,
      ObjectOk, ResultOk;
    var f, o, r, c := ObjectField(a.obj), Marker(1, OPENING_LVT), ResultsBytes(a.results), Marker(1, CLOSING_LVT);
    Cut5(f, o, r, c, tail);
    ObjectFieldReads(a.obj, o + (r + (c + tail)));
    MarkerReads(1, r + (c + tail));
    MarkerReads(1, tail);
    ClosingClosesAccess(tail);
    ResultsRead(a.results, c + tail);
  }

  predicate AccessesOk(accesses: seq<ReadAccessResult>) { forall a <- accesses :: AccessOk(a) }

  lemma {:induction false} AccessesRead(accesses: seq<ReadAccessResult>)
    requires AccessesOk(accesses) && |AccessesBytes(accesses)| < 0xFFFE_0000
    ensures ReadAccesses(AccessesBytes(accesses)) == Ok((accesses, |AccessesBytes(accesses)|))
  {
    hide ReadAccess, AccessBytes, AccessOk;
    if accesses != [] {
      var e, rest := AccessBytes(accesses[0]), AccessesBytes(accesses[1..]);
      AccessReads(accesses[0], rest);
      AccessesRead(accesses[1..]);
      Cut(e, rest);
      assert [accesses[0]] + accesses[1..] == accesses;
    }
  }

  lemma ReadOutcomeOk(buf: bytes)
    requires ReadOutcome(buf).Ok?
    ensures var (vs, e, _) := ReadOutcome(buf).value;
            ValuesOk(vs) && Height(vs) <= MAX_NESTING && (e.Some? ==> vs == [])
  {
    hide PeekContext, ReadValues, ReadError, ExpectClosing;
    var p := PeekContext(buf).value;
    if p.number == 4 {
      RunInDomain(buf[p.header..], 0);
    }
  }

  lemma {:induction false} ReadResultsOk(buf: bytes)
    requires ReadResults(buf).Ok?
    ensures forall r <- ReadResults(buf).value.0 :: ResultOk(r)
    decreases |buf|
  {
    hide ClosesAccess, ContextEnumerated, OptionalIndex, ReadOutcome, ValuesOk, Height;
    if !ClosesAccess(buf) {
      var n := ContextEnumerated(buf, 2).value.1;
      ReadOutcomeOk(buf[n..][OptionalIndex(buf[n..], 3, true).value.1..]);
      ReadResultsOk(buf[ReadResult(buf).value.1..]);
    }
  }

  lemma {:induction false} ReadAccessesOk(buf: bytes)
    requires ReadAccesses(buf).Ok?
    ensures AccessesOk(ReadAccesses(buf).value.0)
    decreases |buf|
  {
    hide ContextObjectID, ReadResults, ExpectOpening, ExpectClosing, ObjectOk, ResultOk;
    if buf != [] {
      var n := ContextObjectID(buf, 0).value.1;
      DecodedObjectOk(buf, 0);
      ReadResultsOk(buf[n..][ExpectOpening(buf[n..], 1).value..]);
      ReadAccessesOk(buf[ReadAccess(buf).value.1..]);
    }
  }

  /** Acknowledgements with any number of objects, properties, optional array
      indexes, nested values and per-property errors survive exactly when every
      object identifier and value is in the round-trip domain. */
  lemma AckRoundTrip(accesses: seq<ReadAccessResult>)
    requires |AccessesBytes(accesses)| < 0xFFFE_0000
    ensures ReadAccesses(AccessesBytes(accesses)) == Ok((accesses, |AccessesBytes(accesses)|))
       <==> AccessesOk(accesses)
  {
    hide ReadAccesses, AccessesBytes, AccessesOk;
    if AccessesOk(accesses) {
      AccessesRead(accesses);
    } else if ReadAccesses(AccessesBytes(accesses)).Ok? {
      ReadAccessesOk(AccessesBytes(accesses));
    }
  }

  // ----- the imperative encoders and decoders

  /** decodeErrorSequence: a loop over the two fields. */
  method DecodeErrorSequence(buf: bytes) returns (r: Result<(BACnetError, nat)>)
    ensures r == ReadError(buf)
  {
    hide ReadHeader, UnsignedData;
    var vals := new uint32[2](_ => 0);
    var pos := 0;
    ghost var first := ReadErrorField(buf, 0);
    for i := 0 to 2
      invariant pos <= |buf|
      invariant i == 0 ==> pos == 0
      invariant i >= 1 ==> first.Ok? && vals[0] == first.value.0
      invariant i == 1 ==> pos == first.value.1
      invariant i == 2 ==> pos >= first.value.1
      invariant i == 2 ==> ReadErrorField(buf[first.value.1..], 1) == Ok((vals[1], pos - first.value.1))
    {
      assert i == 0 ==> buf[pos..] == buf;
      ghost var rest := buf[pos..];
      var h := DecodeTagHeader(buf[pos..]);
      if h.Err? { return Err(MalformedError); }
      var th := h.value;
      var ok := !th.IsMarker() && ((!th.context && th.number == TAG_ENUMERATED) || (th.context && th.number == i));
      var start := pos + th.header;
      if !ok || start + th.lvt > |buf| { return Err(MalformedError); }
      assert buf[start..start + th.lvt] == rest[th.header..th.header + th.lvt];
      var data := DecodeUnsignedData(buf[start..start + th.lvt]);
      vals[i] := data % TWO_TO_32;
      pos := start + th.lvt;
    }
    return Ok((BACnetError(vals[0], vals[1]), pos));
  }

  method AppendResult(buf: bytes, r: PropertyResult) returns (out: bytes)
    ensures out == buf + ResultBytes(r)
  {
    hide PrimitiveBytes, ValueBytes, ValuesBytes, Marker;
    out := AppendContextValue(buf, true, 2, Enumerated(r.property));
    if r.arrayIndex.Some? {
      out := AppendContextValue(out, true, 3, UnsignedInt(r.arrayIndex.value));
    }
    assert out == buf + (EnumField(2, r.property) + IndexField(3, r.arrayIndex));
    ghost var start := out;
    if r.err.Some? {
      out := AppendMarkerTag(out, 5, OPENING_LVT);
      out := AppendValue(out, Enumerated(r.err.value.errorClass));
      out := AppendValue(out, Enumerated(r.err.value.code));
      out := AppendMarkerTag(out, 5, CLOSING_LVT);
    } else {
      out := AppendMarkerTag(out, 4, OPENING_LVT);
      out := AppendValues(out, r.values);
      out := AppendMarkerTag(out, 4, CLOSING_LVT);
    }
    assert out == start + OutcomeBytes(r.values, r.err);
  }

  /** The inner loop of the encoder, over one object's results. */
  method AppendResults(buf: bytes, rs: seq<PropertyResult>) returns (out: bytes)
    ensures out == buf + ResultsBytes(rs)
  {
    hide ResultBytes;
    out := buf;
    for i := 0 to |rs|
      invariant out + ResultsBytes(rs[i..]) == buf + ResultsBytes(rs)
    {
      ghost var start := out;
      out := AppendResult(out, rs[i]);
      assert rs[i..][1..] == rs[i + 1..];
      assert start + ResultsBytes(rs[i..]) == start + (ResultBytes(rs[i]) + ResultsBytes(rs[i + 1..]));
    }
  }

  /** One object's turn of the encoder's outer loop. */
  method AppendAccess(buf: bytes, a: ReadAccessResult) returns (out: bytes)
    ensures out == buf + AccessBytes(a)
  {
    hide PrimitiveBytes, Marker, ResultsBytes;
    out := AppendContextValue(buf, true, 0, ObjectID(a.obj));
    out := AppendMarkerTag(out, 1, OPENING_LVT);
    out := AppendResults(out, a.results);
    out := AppendMarkerTag(out, 1, CLOSING_LVT);
  }

  /** EncodeReadPropertyMultipleACK: nested loops over objects and properties. */
  method EncodeReadPropertyMultipleACK(accesses: seq<ReadAccessResult>) returns (buf: bytes)
    ensures buf == AccessesBytes(accesses)
  {
    hide AccessBytes;
    buf := [];
    for i := 0 to |accesses|
      invariant buf + AccessesBytes(accesses[i..]) == AccessesBytes(accesses)
    {
      ghost var start := buf;
      buf := AppendAccess(buf, accesses[i]);
      assert accesses[i..][1..] == accesses[i + 1..];
      assert start + AccessesBytes(accesses[i..])
          == start + (AccessBytes(accesses[i]) + AccessesBytes(accesses[i + 1..]));
    }
  }

  /** DecodeReadPropertyMultipleACK: a cursor over buf, object by object. */
  method DecodeReadPropertyMultipleACK(buf: bytes) returns (r: Result<(seq<ReadAccessResult>, nat)>)
    ensures r == ReadAccesses(buf)
  {
    hide After, ReadAccesses, ReadAccess;
    var accesses: seq<ReadAccessResult> := [];
    var pos := 0;
    assert buf[0..] == buf;
    AfterNothing(accesses, pos, ReadAccesses(buf));
    while pos < |buf|
      invariant pos <= |buf|
      invariant ReadAccesses(buf) == After(accesses, pos, ReadAccesses(buf[pos..]))
    {
      ghost var rest := buf[pos..];
      AfterAccess(rest, accesses, pos);
      var a := DecodeAccess(buf[pos..]);
      if a.Err? { return Err(a.error); }
      accesses := accesses + [a.value.0];
      pos := pos + a.value.1;
      assert buf[pos..] == rest[a.value.1..];
    }
    AfterNothing(accesses, pos, ReadAccesses(buf));
    NoAccesses();
    return Ok((accesses, pos));
  }

  lemma NoAccesses()
    ensures ReadAccesses([]) == Ok(([], 0))
  {
  }

  lemma AfterAccess(rest: bytes, done: seq<ReadAccessResult>, pos: nat)
    requires rest != []
    ensures ReadAccess(rest).Err? ==> After(done, pos, ReadAccesses(rest)) == Err(ReadAccess(rest).error)
    ensures ReadAccess(rest).Ok? ==> var (a, n) := ReadAccess(rest).value;
              AfterSame(done, pos, ReadAccesses(rest), done + [a], pos + n, ReadAccesses(rest[n..]))
  {
    hide ReadAccess;
    if ReadAccess(rest).Ok? {
      var (a, n) := ReadAccess(rest).value;
      var r := ReadAccesses(rest[n..]);
      if r.Ok? { assert done + ([a] + r.value.0) == done + [a] + r.value.0; }
    }
  }

  /** One turn of the decoder's outer loop. */
  method DecodeAccess(buf: bytes) returns (r: Result<(ReadAccessResult, nat)>)
    ensures r == ReadAccess(buf)
  {
    hide ContextObjectID, ExpectOpening, ExpectClosing, ReadResults;
    var o := ContextObjectID(buf, 0);
    if o.Err? { return Err(o.error); }
    var pos := o.value.1;
    var k := ExpectOpening(buf[pos..], 1);
    if k.Err? { return Err(k.error); }
    ghost var inside := buf[pos..][k.value..];
    pos := pos + k.value;
    assert buf[pos..] == inside;
    var rs := DecodeResults(buf[pos..]);
    if rs.Err? { return Err(rs.error); }
    pos := pos + rs.value.1;
    assert buf[pos..] == inside[rs.value.1..];
    var c := ExpectClosing(buf[pos..], 1);
    if c.Err? { return Err(c.error); }
    return Ok((ReadAccessResult(o.value.0, rs.value.0), pos + c.value));
  }

  /** The inner loop of the decoder, up to closing tag 1. */
  method DecodeResults(buf: bytes) returns (r: Result<(seq<PropertyResult>, nat)>)
    ensures r == ReadResults(buf)
  {
    hide After, ReadResult, ClosesAccess;
    var rs: seq<PropertyResult> := [];
    var pos := 0;
    assert buf[0..] == buf;
    AfterNothing(rs, pos, ReadResults(buf));
    while true
      invariant pos <= |buf|
      invariant ReadResults(buf) == After(rs, pos, ReadResults(buf[pos..]))
      decreases |buf| - pos
    {
      ghost var rest := buf[pos..];
      AfterResult(rest, rs, pos);
      AfterNothing(rs, pos, ReadResults(rest));
      if ClosesAccess(buf[pos..]) { return Ok((rs, pos)); }
      var x := DecodeResult(buf[pos..]);
      if x.Err? { return Err(x.error); }
      rs := rs + [x.value.0];
      pos := pos + x.value.1;
      assert buf[pos..] == rest[x.value.1..];
    }
  }

  lemma AfterResult(rest: bytes, done: seq<PropertyResult>, pos: nat)
    ensures !ClosesAccess(rest) && ReadResult(rest).Err? ==>
              After(done, pos, ReadResults(rest)) == Err(ReadResult(rest).error)
    ensures !ClosesAccess(rest) && ReadResult(rest).Ok? ==> var (x, n) := ReadResult(rest).value;
              AfterSame(done, pos, ReadResults(rest), done + [x], pos + n, ReadResults(rest[n..]))
  {
    hide ReadResult, ClosesAccess;
    if !ClosesAccess(rest) && ReadResult(rest).Ok? {
      var (x, n) := ReadResult(rest).value;
      var r := ReadResults(rest[n..]);
      if r.Ok? { assert done + ([x] + r.value.0) == done + [x] + r.value.0; }
    }
  }

  /** One property result: index and outcome chosen by peeking at the next tag. */
  method DecodeResult(buf: bytes) returns (r: Result<(PropertyResult, nat)>)
    ensures r == ReadResult(buf)
  {
    hide ContextEnumerated, OptionalIndex, ReadOutcome;
    var p := ContextEnumerated(buf, 2);
    if p.Err? { return Err(p.error); }
    var pos := p.value.1;
    var i := OptionalIndex(buf[pos..], 3, true);
    if i.Err? { return Err(i.error); }
    ghost var inside := buf[pos..][i.value.1..];
    pos := pos + i.value.1;
    assert buf[pos..] == inside;
    var o := DecodeOutcome(buf[pos..]);
    if o.Err? { return Err(o.error); }
    return Ok((PropertyResult(p.value.0, i.value.0, o.value.0, o.value.1), pos + o.value.2));
  }

  method DecodeOutcome(buf: bytes) returns (r: Result<(seq<Value>, Option<BACnetError>, nat)>)
    ensures r == ReadOutcome(buf)
  {
    hide PeekContext, ReadValues, ReadError, ExpectClosing;
    var p := PeekContext(buf);
    if p.None? || !p.value.IsOpening() { return Err(ExpectedOpening); }
    var pos := p.value.header;
    assert pos <= |buf| by { PeekHeader(buf); }
    if p.value.number == 4 {
      var vs := DecodeNestedValues(buf[pos..], 0);
      if vs.Err? { return Err(vs.error); }
      ghost var inside := buf[pos..][vs.value.1..];
      pos := pos + vs.value.1;
      assert buf[pos..] == inside;
      var c := ExpectClosing(buf[pos..], 4);
      if c.Err? { return Err(c.error); }
      return Ok((vs.value.0, None, pos + 1));
    } else if p.value.number == 5 {
      var e := DecodeErrorSequence(buf[pos..]);
      if e.Err? { return Err(e.error); }
      ghost var inside := buf[pos..][e.value.1..];
      pos := pos + e.value.1;
      assert buf[pos..] == inside;
      var c := ExpectClosing(buf[pos..], 5);
      if c.Err? { return Err(c.error); }
      return Ok(([], Some(e.value.0), pos + 1));
    } else {
      return Err(UnexpectedTag);
    }
  }

  lemma PeekHeader(buf: bytes)
    ensures PeekContext(buf).Some? ==> PeekContext(buf).value.header <= |buf|
  {
    hide ReadHeader;
  }
}
