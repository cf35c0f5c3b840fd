/** ReadPropertyMultiple requests (services.go). */
module ReadMultiple {
  import opened Octets
  import opened Tag
  import opened Values
  import opened Nested
  import opened Services

  datatype PropertyReference = PropertyReference(property: PropertyIdentifier, arrayIndex: Option<uint32>)

  datatype ReadAccessSpec = ReadAccessSpec(obj: ObjectIdentifier, properties: seq<PropertyReference>)

  // ----- specification functions

  function RefBytes(p: PropertyReference): bytes {
    EnumField(0, p.property) + IndexField(1, p.arrayIndex)
  }

  function RefsBytes(ps: seq<PropertyReference>): bytes {
    if ps == [] then [] else RefBytes(ps[0]) + RefsBytes(ps[1..])
  }

  function SpecBytes(s: ReadAccessSpec): bytes {
    ObjectField(s.obj) + Marker(1, OPENING_LVT) + RefsBytes(s.properties) + Marker(1, CLOSING_LVT)
  }

  /** EncodeReadPropertyMultipleRequest */
  function SpecsBytes(specs: seq<ReadAccessSpec>): bytes {
    if specs == [] then [] else SpecBytes(specs[0]) + SpecsBytes(specs[1..])
  }

  /** The inner loops end at closing tag 1, which an array index [1] must not be taken for. */
  predicate ClosesAccess(buf: bytes) {
    PeekContext(buf).Some? && PeekContext(buf).value.IsClosing() && PeekContext(buf).value.number == 1
  }

  function ReadRef(buf: bytes): (r: Result<(PropertyReference, nat)>)
    ensures r.Ok? ==> 1 <= r.value.1 <= |buf|
  {
    var (p, n) :- ContextEnumerated(buf, 0);
    var (i, m) :- OptionalIndex(buf[n..], 1, true);
    Ok((PropertyReference(p, i), n + m))
  }

  function ReadRefs(buf: bytes): (r: Result<(seq<PropertyReference>, nat)>)
    ensures r.Ok? ==> r.value.1 <= |buf|
    decreases |buf|
  {
    if ClosesAccess(buf) then Ok(([], 0))
    else
      var x :- ReadRef(buf);
      Prepend(x, ReadRefs(buf[x.1..]))
  }

  function ReadSpec(buf: bytes): (r: Result<(ReadAccessSpec, nat)>)
    ensures r.Ok? ==> 1 <= r.value.1 <= |buf|
  {
    var (o, n) :- ContextObjectID(buf, 0);
    var k :- ExpectOpening(buf[n..], 1);
    var (ps, m) :- ReadRefs(buf[n..][k..]);
    var c :- ExpectClosing(buf[n..][k..][m..], 1);
    Ok((ReadAccessSpec(o, ps), n + k + m + c))
  }

  /** DecodeReadPropertyMultipleRequest, with the number of octets read. */
  function ReadSpecs(buf: bytes): (r: Result<(seq<ReadAccessSpec>, nat)>)
    ensures r.Ok? ==> r.value.1 <= |buf|
    decreases |buf|
  {
    if buf == [] then Ok(([], 0))
    else
      var x :- ReadSpec(buf);
      Prepend(x, ReadSpecs(buf[x.1..]))
  }

  // ----- round trip

  lemma ClosingClosesAccess(tail: bytes)
    ensures ClosesAccess(Marker(1, CLOSING_LVT) + tail)
  {
    hide ReadHeader, Marker;
    MarkerRoundTrip(1, CLOSING_LVT, tail);
  }

  /** A field with another tag number is neither the closing tag nor an index. */
  lemma FieldIsNoClose(tag: uint8, v: uint32, tail: bytes, want: uint8)
    requires |tail| < 0xFFFF_0000 && tag != want
    ensures !ClosesAccess(EnumField(tag, v) + tail) && !IndexAhead(EnumField(tag, v) + tail, want, true)
  {
    hide ReadHeader, EnumField;
    UnsignedFieldReads(tag, v, tail);
  }

  lemma ClosingIsNoIndex(buf: bytes, want: uint8)
    requires ClosesAccess(buf)
    ensures !IndexAhead(buf, want, true)
  {
  }

  lemma NoIndexAtRefs(ps: seq<PropertyReference>, tail: bytes)
    requires ClosesAccess(tail) && |RefsBytes(ps)| + |tail| < 0xFFFF_0000
    ensures !IndexAhead(RefsBytes(ps) + tail, 1, true)
  {
    hide ReadHeader, EnumField, IndexField, PeekContext, ClosesAccess, IndexAhead;
    if ps == [] {
      assert [] + tail == tail;
      ClosingIsNoIndex(tail, 1);
    } else {
      var e, rest := EnumField(0, ps[0].property), IndexField(1, ps[0].arrayIndex) + RefsBytes(ps[1..]) + tail;
      assert RefsBytes(ps) + tail == e + rest;
      FieldIsNoClose(0, ps[0].property, rest, 1);
    }
  }

  lemma ReadRefStep(buf: bytes, p: PropertyReference, n: nat, m: nat)
    requires ContextEnumerated(buf, 0) == Ok((p.property, n)) && n <= |buf|
    requires OptionalIndex(buf[n..], 1, true) == Ok((p.arrayIndex, m))
    ensures ReadRef(buf) == Ok((p, n + m))
  {
    hide ContextEnumerated, OptionalIndex;
  }

  lemma RefReads(p: PropertyReference, tail: bytes)
    requires !IndexAhead(tail, 1, true) && |tail| < 0xFFFE_0000
    ensures ReadRef(RefBytes(p) + tail) == Ok((p, |RefBytes(p)|)) && !ClosesAccess(RefBytes(p) + tail)
  {
    hide ContextEnumerated, OptionalIndex, EnumField, IndexField, ClosesAccess, IndexAhead, ReadRef;
    var e, i := EnumField(0, p.property), IndexField(1, p.arrayIndex);
    OptionalIndexReads(p.arrayIndex, 1, true, tail);
    UnsignedFieldReads(0, p.property, i + tail);
    FieldIsNoClose(0, p.property, i + tail, 1);
    Cut3(e, i, tail);
    ReadRefStep(RefBytes(p) + tail, p, |e|, |i|);
  }

  lemma {:induction false} RefsRead(ps: seq<PropertyReference>, tail: bytes)
    requires ClosesAccess(tail) && |RefsBytes(ps)| + |tail| < 0xFFFE_0000
    ensures ReadRefs(RefsBytes(ps) + tail) == Ok((ps, |RefsBytes(ps)|))
  {
    hide ClosesAccess, ReadRef, IndexAhead, RefBytes;
    if ps == [] {
      assert [] + tail == tail;
    } else {
      var e, rest := RefBytes(ps[0]), RefsBytes(ps[1..]) + tail;
      NoIndexAtRefs(ps[1..], tail);
      RefReads(ps[0], rest);
      RefsRead(ps[1..], tail);
      Cut3(e, RefsBytes(ps[1..]), tail);
      assert [ps[0]] + ps[1..] == ps;
    }
  }

  lemma SpecReads(s: ReadAccessSpec, tail: bytes)
    requires ObjectOk(s.obj) && |SpecBytes(s)| + |tail| < 0xFFFE_0000
    ensures ReadSpec(SpecBytes(s) + tail) == Ok((s, |SpecBytes(s)|))
  {
    hide ContextObjectID, ReadRefs, RefsBytes, ExpectOpening, ExpectClosing, Marker, ObjectField;
    hide ClosesAccess, ObjectOk;
    var a, o, r, c := ObjectField(s.obj), Marker(1, OPENING_LVT), RefsBytes(s.properties), Marker(1, CLOSING_LVT);
    var rest := c + tail;
    Cut5(a, o, r, c, tail);
    ObjectFieldReads(s.obj, o + (r + rest));
    MarkerReads(1, r + rest);
    MarkerReads(1, tail);
    ClosingClosesAccess(tail);
    RefsRead(s.properties, rest);
  }

  lemma ReadSpecOk(buf: bytes)
    requires ReadSpec(buf).Ok?
    ensures ObjectOk(ReadSpec(buf).value.0.obj)
  {
    hide ContextObjectID, ReadRefs, ExpectOpening, ExpectClosing, ObjectOk;
    DecodedObjectOk(buf, 0);
  }

  predicate SpecsOk(specs: seq<ReadAccessSpec>) { forall s <- specs :: ObjectOk(s.obj) }

  lemma {:induction false} SpecsRead(specs: seq<ReadAccessSpec>)
    requires SpecsOk(specs) && |SpecsBytes(specs)| < 0xFFFE_0000
    ensures ReadSpecs(SpecsBytes(specs)) == Ok((specs, |SpecsBytes(specs)|))
  {
    hide ReadSpec, SpecBytes, ObjectOk;
    if specs != [] {
      var e, rest := SpecBytes(specs[0]), SpecsBytes(specs[1..]);
      SpecReads(specs[0], rest);
      SpecsRead(specs[1..]);
      Cut(e, rest);
      assert [specs[0]] + specs[1..] == specs;
    }
  }

  lemma {:induction false} ReadSpecsOk(buf: bytes)
    requires ReadSpecs(buf).Ok?
    ensures SpecsOk(ReadSpecs(buf).value.0)
    decreases |buf|
  {
    hide ReadSpec, ObjectOk;
    if buf != [] {
      ReadSpecOk(buf);
      ReadSpecsOk(buf[ReadSpec(buf).value.1..]);
    }
  }

  /** Requests with any number of objects, properties and optional array indexes
      survive exactly when every object identifier fits its wire fields. */
  lemma RequestRoundTrip(specs: seq<ReadAccessSpec>)
    requires |SpecsBytes(specs)| < 0xFFFE_0000
    ensures ReadSpecs(SpecsBytes(specs)) == Ok((specs, |SpecsBytes(specs)|)) <==> SpecsOk(specs)
  {
    hide ReadSpecs, SpecsBytes, SpecsOk;
    if SpecsOk(specs) {
      SpecsRead(specs);
    } else if ReadSpecs(SpecsBytes(specs)).Ok? {
      ReadSpecsOk(SpecsBytes(specs));
    }
  }

  // ----- the imperative encoder and decoder

  method EncodeReadPropertyMultipleRequest(specs: seq<ReadAccessSpec>) returns (buf: bytes)
    ensures buf == SpecsBytes(specs)
  {
    hide PrimitiveBytes, Marker;
    buf := [];
    for i := 0 to |specs|
      invariant buf + SpecsBytes(specs[i..]) == SpecsBytes(specs)
    {
      var s := specs[i];
      ghost var start := buf;
      buf := AppendContextValue(buf, true, 0, ObjectID(s.obj));
      buf := AppendMarkerTag(buf, 1, OPENING_LVT);
      buf := AppendRefs(buf, s.properties);
      buf := AppendMarkerTag(buf, 1, CLOSING_LVT);
      assert buf == start + SpecBytes(s);
      assert specs[i..][1..] == specs[i + 1..];
      assert start + SpecsBytes(specs[i..]) == start + (SpecBytes(s) + SpecsBytes(specs[i + 1..]));
    }
  }

  /** The inner loop of the encoder, over one object's properties. */
  method AppendRefs(buf: bytes, ps: seq<PropertyReference>) returns (out: bytes)
    ensures out == buf + RefsBytes(ps)
  {
    hide PrimitiveBytes;
    out := buf;
    for i := 0 to |ps|
      invariant out + RefsBytes(ps[i..]) == buf + RefsBytes(ps)
    {
      ghost var start := out;
      out := AppendContextValue(out, true, 0, Enumerated(ps[i].property));
      if ps[i].arrayIndex.Some? {
        out := AppendContextValue(out, true, 1, UnsignedInt(ps[i].arrayIndex.value));
      }
      assert out == start + RefBytes(ps[i]);
      assert ps[i..][1..] == ps[i + 1..];
      assert start + RefsBytes(ps[i..]) == start + (RefBytes(ps[i]) + RefsBytes(ps[i + 1..]));
    }
  }

  /** DecodeReadPropertyMultipleRequest: a cursor over buf, object by object. */
  method DecodeReadPropertyMultipleRequest(buf: bytes) returns (r: Result<(seq<ReadAccessSpec>, nat)>)
    ensures r == ReadSpecs(buf)
  {
    hide After, ReadSpecs, ReadSpec;
    var specs: seq<ReadAccessSpec> := [];
    var pos := 0;
    assert buf[0..] == buf;
    AfterNothing(specs, pos, ReadSpecs(buf));
    while pos < |buf|
      invariant pos <= |buf|
      invariant ReadSpecs(buf) == After(specs, pos, ReadSpecs(buf[pos..]))
    {
      ghost var rest := buf[pos..];
      AfterSpec(rest, specs, pos);
      var s := DecodeSpec(buf[pos..]);
      if s.Err? { return Err(s.error); }
      specs := specs + [s.value.0];
      pos := pos + s.value.1;
      assert buf[pos..] == rest[s.value.1..];
    }
    AfterNothing(specs, pos, ReadSpecs(buf));
    NoSpecs();
    return Ok((specs, pos));
  }

  lemma NoSpecs()
    ensures ReadSpecs([]) == Ok(([], 0))
  {
  }

  /** One turn of the decoder's outer loop. */
  method DecodeSpec(buf: bytes) returns (r: Result<(ReadAccessSpec, nat)>)
    ensures r == ReadSpec(buf)
  {
    hide ContextObjectID, ExpectOpening, ExpectClosing, ReadRefs;
    var o := ContextObjectID(buf, 0);
    if o.Err? { return Err(o.error); }
    var pos := o.value.1;
    var k := ExpectOpening(buf[pos..], 1);
    if k.Err? { return Err(k.error); }
    ghost var inside := buf[pos..][k.value..];
    pos := pos + k.value;
    assert buf[pos..] == inside;
    var ps := DecodeRefs(buf[pos..]);
    if ps.Err? { return Err(ps.error); }
    pos := pos + ps.value.1;
    assert buf[pos..] == inside[ps.value.1..];
    var c := ExpectClosing(buf[pos..], 1);
    if c.Err? { return Err(c.error); }
    return Ok((ReadAccessSpec(o.value.0, ps.value.0), pos + c.value));
  }

  lemma AfterSpec(rest: bytes, done: seq<ReadAccessSpec>, pos: nat)
    requires rest != []
    ensures ReadSpec(rest).Err? ==> After(done, pos, ReadSpecs(rest)) == Err(ReadSpec(rest).error)
    ensures ReadSpec(rest).Ok? ==> var (s, n) := ReadSpec(rest).value;
              AfterSame(done, pos, ReadSpecs(rest), done + [s], pos + n, ReadSpecs(rest[n..]))
  {
    hide ReadSpec;
    if ReadSpec(rest).Ok? {
      var (s, n) := ReadSpec(rest).value;
      var r := ReadSpecs(rest[n..]);
      if r.Ok? { assert done + ([s] + r.value.0) == done + [s] + r.value.0; }
    }
  }

  /** The inner loop of the decoder, up to closing tag 1. */
  method DecodeRefs(buf: bytes) returns (r: Result<(seq<PropertyReference>, nat)>)
    ensures r == ReadRefs(buf)
  {
    hide After, ContextEnumerated, ContextUnsigned, PeekContext;
    var ps: seq<PropertyReference> := [];
    var pos := 0;
    assert buf[0..] == buf;
    AfterNothing(ps, pos, ReadRefs(buf));
    while true
      invariant pos <= |buf|
      invariant ReadRefs(buf) == After(ps, pos, ReadRefs(buf[pos..]))
      decreases |buf| - pos
    {
      ghost var rest := buf[pos..];
      AfterRef(rest, ps, pos);
      AfterNothing(ps, pos, ReadRefs(rest));
      if ClosesAccess(buf[pos..]) { return Ok((ps, pos)); }
      var p := ContextEnumerated(buf[pos..], 0);
      if p.Err? { return Err(p.error); }
      var ref := PropertyReference(p.value.0, None);
      pos := pos + p.value.1;
      assert buf[pos..] == rest[p.value.1..];
      if IndexAhead(buf[pos..], 1, true) {
        var i := ContextUnsigned(buf[pos..], 1);
        if i.Err? { return Err(i.error); }
        ref := ref.(arrayIndex := Some(i.value.0 % TWO_TO_32));
        pos := pos + i.value.1;
      }
      ps := ps + [ref];
      assert buf[pos..] == rest[ReadRef(rest).value.1..];
    }
  }

  lemma AfterRef(rest: bytes, done: seq<PropertyReference>, pos: nat)
    ensures !ClosesAccess(rest) && ReadRef(rest).Err? ==> After(done, pos, ReadRefs(rest)) == Err(ReadRef(rest).error)
    ensures !ClosesAccess(rest) && ReadRef(rest).Ok? ==> var (p, n) := ReadRef(rest).value;
              AfterSame(done, pos, ReadRefs(rest), done + [p], pos + n, ReadRefs(rest[n..]))
  {
    hide ReadRef, ClosesAccess;
    if !ClosesAccess(rest) && ReadRef(rest).Ok? {
      var (p, n) := ReadRef(rest).value;
      var r := ReadRefs(rest[n..]);
      if r.Ok? { assert done + ([p] + r.value.0) == done + [p] + r.value.0; }
    }
  }
}
