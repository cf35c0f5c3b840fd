/** The value decoder with one change: a marker is recognised by the low three
    bits of its first octet (clause 20.2.1.3.2 of ASHRAE 135) instead of by the
    decoded length field. With it, context primitives of every length survive. */
module Repaired {
  import opened Octets
  import opened Tag
  import opened Values
  import Nested

  const MAX_NESTING := Nested.MAX_NESTING

  // ----- decoding

  predicate Opens(buf: bytes) { buf != [] && MarkerOctet(buf[0]) && buf[0] % 8 == OPENING_LVT }

  predicate Closes(buf: bytes) { buf != [] && MarkerOctet(buf[0]) && buf[0] % 8 == CLOSING_LVT }

  function ExpectClosing(buf: bytes, want: uint8): (r: Result<nat>)
    ensures r.Ok? ==> 1 <= r.value <= |buf|
  {
    var th :- ReadHeader(buf);
    if !Closes(buf) || th.number != want then Err(ExpectedClosing) else Ok(th.header)
  }

  predicate StartsItem(buf: bytes) { ReadHeader(buf).Ok? && !Closes(buf) }

  predicate Stops(buf: bytes) { buf == [] || (ReadHeader(buf).Ok? && Closes(buf)) }

  function CloseConstructed(buf: bytes, th: TagInfo, contents: Result<(seq<Value>, nat)>): (r: Result<(Value, nat)>)
    requires 1 <= th.header <= |buf|
    requires contents.Ok? ==> contents.value.1 <= |buf| - th.header
    ensures r.Ok? ==> 1 <= r.value.1 <= |buf|
  {
    var (items, n) :- contents;
    var c :- ExpectClosing(buf[th.header..][n..], th.number);
    Ok((Constructed(th.number, items), th.header + n + c))
  }

  function ReadItem(buf: bytes, depth: nat): (r: Result<(Value, nat)>)
    requires StartsItem(buf)
    ensures r.Ok? ==> 1 <= r.value.1 <= |buf|
    decreases |buf|, 0
  {
    var th := ReadHeader(buf).value;
    if !th.context then ReadApplication(buf)
    else if Opens(buf) then
      if depth >= MAX_NESTING then Err(NestedTooDeep)
      else CloseConstructed(buf, th, ReadValues(buf[th.header..], depth + 1))
    else if (|buf| - th.header) % TWO_TO_32 < th.lvt then Err(TruncatedData)
    else Ok((ContextPrimitive(th.number, buf[th.header..th.header + th.lvt]), th.header + th.lvt))
  }

  function ReadValues(buf: bytes, depth: nat): (r: Result<(seq<Value>, nat)>)
    ensures r.Ok? ==> r.value.1 <= |buf|
    decreases |buf|, 1
  {
    if Stops(buf) then Ok(([], 0))
    else
      var _ :- ReadHeader(buf);
      var x :- ReadItem(buf, depth);
      Nested.Prepend(x, ReadValues(buf[x.1..], depth))
  }

  // ----- the domain, without the exception for 6 and 7 octets

  predicate FieldsOk(v: Value)
    decreases v, 0
  {
    match v
    case ContextPrimitive(_, _) => true
    case Constructed(_, items) => AllFieldsOk(items)
    case _ => PrimitiveOk(v)
  }

  predicate AllFieldsOk(vs: seq<Value>)
    decreases vs, 1
  {
    vs == [] || (FieldsOk(vs[0]) && AllFieldsOk(vs[1..]))
  }

  // ----- round trip

  predicate ItemReads(v: Value, e: bytes, depth: nat, tail: bytes) {
    StartsItem(e + tail) && ReadItem(e + tail, depth) == Ok((v, |e|))
  }

  predicate RunReads(vs: seq<Value>, e: bytes, depth: nat, tail: bytes) {
    ReadValues(e + tail, depth) == Ok((vs, |e|))
  }

  lemma ReadValuesStep(buf: bytes, depth: nat, v: Value, n: nat, rest: bytes, vs: seq<Value>, m: nat)
    requires StartsItem(buf) && ReadItem(buf, depth) == Ok((v, n))
    requires n <= |buf| && buf[n..] == rest && ReadValues(rest, depth) == Ok((vs, m))
    ensures ReadValues(buf, depth) == Ok(([v] + vs, n + m))
  {
    hide ReadHeader, Closes;
  }

  lemma RunCons(v: Value, e: bytes, vs: seq<Value>, f: bytes, depth: nat, tail: bytes)
    requires ItemReads(v, e, depth, f + tail) && RunReads(vs, f, depth, tail)
    ensures RunReads([v] + vs, e + f, depth, tail)
  {
    hide ReadHeader, ReadItem, ReadValues, Closes;
    var buf := e + (f + tail);
    assert e + f + tail == buf;
    assert buf[|e|..] == f + tail;
    ReadValuesStep(buf, depth, v, |e|, f + tail, vs, |f|);
  }

  lemma HeaderIsNoMarker(tag: uint8, length: uint32, rest: bytes)
    ensures var buf := DataHeader(tag, true, length) + rest; !Opens(buf) && !Closes(buf)
  {
    RepairedMarkerTest(tag, true, length, OPENING_LVT);
    hide MarkerOctet;
    assert (DataHeader(tag, true, length) + rest)[0] == DataHeader(tag, true, length)[0];
  }

  lemma MarkerIsMarker(tag: uint8, rest: bytes)
    ensures Opens(Marker(tag, OPENING_LVT) + rest) && !Closes(Marker(tag, OPENING_LVT) + rest)
    ensures Closes(Marker(tag, CLOSING_LVT) + rest)
  {
    FirstOctetFields(tag, true, OPENING_LVT);
    FirstOctetFields(tag, true, CLOSING_LVT);
    assert (Marker(tag, OPENING_LVT) + rest)[0] == FirstOctet(tag, true, OPENING_LVT);
    assert (Marker(tag, CLOSING_LVT) + rest)[0] == FirstOctet(tag, true, CLOSING_LVT);
  }

  lemma ContextReads(tag: uint8, data: bytes, depth: nat, tail: bytes)
    requires |data| + |tail| < TWO_TO_32
    ensures ItemReads(ContextPrimitive(tag, data), DataHeader(tag, true, |data|) + data, depth, tail)
  {
    var h := DataHeader(tag, true, |data|);
    DataHeaderRoundTrip(tag, true, |data|, data + tail);
    HeaderIsNoMarker(tag, |data|, data + tail);
    hide Opens, Closes, ReadHeader, DataHeader;
    assert h + data + tail == h + (data + tail);
    assert (h + (data + tail))[|h|..|h| + |data|] == data;
  }

  lemma ReadConstructedStep(buf: bytes, depth: nat, th: TagInfo, items: seq<Value>, n: nat, c: nat)
    requires depth < MAX_NESTING
    requires ReadHeader(buf) == Ok(th) && th.context && Opens(buf) && !Closes(buf)
    requires ReadValues(buf[th.header..], depth + 1) == Ok((items, n))
    requires n <= |buf[th.header..]| && ExpectClosing(buf[th.header..][n..], th.number) == Ok(c)
    ensures StartsItem(buf) && ReadItem(buf, depth) == Ok((Constructed(th.number, items), th.header + n + c))
  {
    hide ReadHeader, Opens, Closes;
  }

  lemma ConstructedReads(tag: uint8, items: seq<Value>, inner: bytes, depth: nat, tail: bytes)
    requires depth < MAX_NESTING
    requires RunReads(items, inner, depth + 1, Marker(tag, CLOSING_LVT) + tail)
    ensures var e := Marker(tag, OPENING_LVT) + inner + Marker(tag, CLOSING_LVT);
            ItemReads(Constructed(tag, items), e, depth, tail)
  {
    hide ReadHeader, ReadItem, ReadValues, Marker, Opens, Closes;
    var o, c := Marker(tag, OPENING_LVT), Marker(tag, CLOSING_LVT);
    var buf := o + (inner + (c + tail));
    assert o + inner + c + tail == buf;
    assert buf[|o|..] == inner + (c + tail);
    assert (inner + (c + tail))[|inner|..] == c + tail;
    MarkerRoundTrip(tag, OPENING_LVT, inner + (c + tail));
    MarkerRoundTrip(tag, CLOSING_LVT, tail);
    MarkerIsMarker(tag, inner + (c + tail));
    MarkerIsMarker(tag, tail);
    ReadConstructedStep(buf, depth, TagInfo(tag, true, OPENING_LVT, |o|), items, |inner|, |c|);
  }

  lemma PrimitiveReads(v: Value, depth: nat, tail: bytes)
    requires v.Primitive() && PrimitiveOk(v)
    requires |Nested.ValueBytes(v)| + |tail| < TWO_TO_32
    ensures ItemReads(v, Nested.ValueBytes(v), depth, tail)
  {
    if !v.Boolean? {
      assert |PrimitiveData(v)| <= |Nested.ValueBytes(v)|;
    }
    PrimitiveRoundTrip(v, tail);
    ApplicationIsNoMarker(Nested.ValueBytes(v) + tail);
  }

  lemma ApplicationIsNoMarker(buf: bytes)
    requires ReadApplication(buf).Ok?
    ensures ReadHeader(buf).Ok? && !ReadHeader(buf).value.context && !Closes(buf)
  {
  }

  lemma ClosingStops(tag: uint8, tail: bytes)
    ensures Stops(Marker(tag, CLOSING_LVT) + tail)
  {
    MarkerRoundTrip(tag, CLOSING_LVT, tail);
    MarkerIsMarker(tag, tail);
  }

  lemma {:induction false} ItemRoundTrip(v: Value, depth: nat, tail: bytes)
    requires FieldsOk(v) && Nested.HeightOf(v) + depth <= MAX_NESTING
    requires |Nested.ValueBytes(v)| + |tail| < TWO_TO_32
    ensures ItemReads(v, Nested.ValueBytes(v), depth, tail)
    decreases v, 0
  {
    hide ReadHeader, ReadItem, ReadValues, Marker, DataHeader, PrimitiveOk, Stops;
    if v.Constructed? {
      var c := Marker(v.tag, CLOSING_LVT);
      ClosingStops(v.tag, tail);
      assert |Nested.ValueBytes(v)| == |Marker(v.tag, OPENING_LVT)| + |Nested.ValuesBytes(v.items)| + |c|;
      RunRoundTrip(v.items, depth + 1, c + tail);
      ConstructedReads(v.tag, v.items, Nested.ValuesBytes(v.items), depth, tail);
    } else if v.ContextPrimitive? {
      ContextReads(v.tag, v.data, depth, tail);
    } else {
      PrimitiveReads(v, depth, tail);
    }
  }

  lemma {:induction false} RunRoundTrip(vs: seq<Value>, depth: nat, tail: bytes)
    requires AllFieldsOk(vs) && Nested.Height(vs) + depth <= MAX_NESTING && Stops(tail)
    requires |Nested.ValuesBytes(vs)| + |tail| < TWO_TO_32
    ensures RunReads(vs, Nested.ValuesBytes(vs), depth, tail)
    decreases vs, 1
  {
    if vs == [] {
      assert [] + tail == tail;
    } else {
      ItemRoundTrip(vs[0], depth, Nested.ValuesBytes(vs[1..]) + tail);
      RunRoundTrip(vs[1..], depth, tail);
      RunCons(vs[0], Nested.ValueBytes(vs[0]), vs[1..], Nested.ValuesBytes(vs[1..]), depth, tail);
      assert [vs[0]] + vs[1..] == vs;
    }
  }

  // ----- whatever is decoded lies in the domain

  lemma {:induction false} ItemInDomain(buf: bytes, depth: nat)
    requires StartsItem(buf) && ReadItem(buf, depth).Ok? && depth <= MAX_NESTING
    ensures var v := ReadItem(buf, depth).value.0; FieldsOk(v) && Nested.HeightOf(v) + depth <= MAX_NESTING
    decreases |buf|, 0
  {
    hide ReadHeader, ReadApplication, ReadValues, PrimitiveOk, Opens, Closes;
    var th := ReadHeader(buf).value;
    if !th.context {
      Nested.ApplicationInDomain(buf);
    } else if Opens(buf) {
      RunInDomain(buf[th.header..], depth + 1);
    }
  }

  lemma {:induction false} RunInDomain(buf: bytes, depth: nat)
    requires ReadValues(buf, depth).Ok? && depth <= MAX_NESTING
    ensures var vs := ReadValues(buf, depth).value.0; AllFieldsOk(vs) && Nested.Height(vs) + depth <= MAX_NESTING
    decreases |buf|, 1
  {
    hide ReadHeader, ReadItem, FieldsOk, Nested.HeightOf, Closes;
    if !Stops(buf) {
      var (v, n) := ReadItem(buf, depth).value;
      ItemInDomain(buf, depth);
      RunInDomain(buf[n..], depth);
      assert ([v] + ReadValues(buf[n..], depth).value.0)[1..] == ReadValues(buf[n..], depth).value.0;
    }
  }

  // ----- the theorems

  /** With the repaired test a list survives exactly when its fields fit and it nests
      within the limit; no length of context data is an exception. */
  lemma RoundTripExactly(vs: seq<Value>, depth: nat, tail: bytes)
    requires depth <= 16 && Stops(tail)
    requires |Nested.ValuesBytes(vs)| + |tail| < TWO_TO_32
    ensures RunReads(vs, Nested.ValuesBytes(vs), depth, tail)
       <==> AllFieldsOk(vs) && Nested.Height(vs) + depth <= 16
  {
    hide ReadValues, AllFieldsOk, Nested.ValuesBytes, Nested.Height;
    if AllFieldsOk(vs) && Nested.Height(vs) + depth <= MAX_NESTING {
      RunRoundTrip(vs, depth, tail);
    } else if RunReads(vs, Nested.ValuesBytes(vs), depth, tail) {
      RunInDomain(Nested.ValuesBytes(vs) + tail, depth);
    }
  }

  lemma {:induction false} FieldsOfOk(vs: seq<Value>)
    requires Nested.ValuesOk(vs)
    ensures AllFieldsOk(vs)
    decreases vs
  {
    hide PrimitiveOk;
    if vs != [] {
      if vs[0].Constructed? { FieldsOfOk(vs[0].items); }
      FieldsOfOk(vs[1..]);
    }
  }

  /** The repair loses nothing: what the decoder as it is reads back from an
      encoding, the repaired one reads back too. */
  lemma RepairLosesNothing(vs: seq<Value>)
    requires |Nested.ValuesBytes(vs)| < TWO_TO_32 && Nested.RunReads(vs, Nested.ValuesBytes(vs), 0, [])
    ensures RunReads(vs, Nested.ValuesBytes(vs), 0, [])
  {
    hide ReadValues, AllFieldsOk, Nested.ReadValues, Nested.ValuesOk, Nested.ValuesBytes, Nested.Height;
    Nested.RoundTripExactly(vs, 0, []);
    FieldsOfOk(vs);
    RoundTripExactly(vs, 0, []);
  }
}
