/** Runs of values and nested constructed values (value.go), and the theorem
    that says exactly which values survive a round trip. */
module Nested {
  import opened Octets
  import opened Tag
  import opened Values

  const MAX_NESTING := 16

  // ----- encoding

  /** AppendValue */
  function ValueBytes(v: Value): (e: bytes)
    ensures |e| > 0
    decreases v, 0
  {
    match v
    case ContextPrimitive(tag, data) => DataHeader(tag, true, |data| % TWO_TO_32) + data
    case Constructed(tag, items) => Marker(tag, OPENING_LVT) + ValuesBytes(items) + Marker(tag, CLOSING_LVT)
    case _ => PrimitiveBytes(false, ApplicationTag(v), v)
  }

  function ValuesBytes(vs: seq<Value>): bytes
    decreases vs, 1
  {
    if vs == [] then [] else ValueBytes(vs[0]) + ValuesBytes(vs[1..])
  }

  // ----- decoding

  /** Puts one more element, and the octets it took, before what was read after it. */
  function Prepend<T>(x: (T, nat), r: Result<(seq<T>, nat)>): Result<(seq<T>, nat)> {
    if r.Err? then r else Ok(([x.0] + r.value.0, x.1 + r.value.1))
  }

  function ExpectOpening(buf: bytes, want: uint8): (r: Result<nat>)
    ensures r.Ok? ==> 1 <= r.value <= |buf|
  {
    var th :- ReadHeader(buf);
    if !th.IsOpening() || th.number != want then Err(ExpectedOpening) else Ok(th.header)
  }

  function ExpectClosing(buf: bytes, want: uint8): (r: Result<nat>)
    ensures r.Ok? ==> 1 <= r.value <= |buf|
  {
    var th :- ReadHeader(buf);
    if !th.IsClosing() || th.number != want then Err(ExpectedClosing) else Ok(th.header)
  }

  predicate StartsItem(buf: bytes) { ReadHeader(buf).Ok? && !ReadHeader(buf).value.IsClosing() }

  /** Where a run of values ends: at the end of the data or before a closing tag. */
  predicate Stops(buf: bytes) { buf == [] || (ReadHeader(buf).Ok? && ReadHeader(buf).value.IsClosing()) }

  /** The rest of a constructed value once its contents were read. */
  function CloseConstructed(buf: bytes, th: TagInfo, contents: Result<(seq<Value>, nat)>): (r: Result<(Value, nat)>)
    requires 1 <= th.header <= |buf|
    requires contents.Ok? ==> contents.value.1 <= |buf| - th.header
    ensures r.Ok? ==> 1 <= r.value.1 <= |buf|
  {
    var (items, n) :- contents;
    var c :- ExpectClosing(buf[th.header..][n..], th.number);
    Ok((Constructed(th.number, items), th.header + n + c))
  }

  /** One turn of decodeNestedValues' loop: a value and the octets it takes. */
  function ReadItem(buf: bytes, depth: nat): (r: Result<(Value, nat)>)
    requires StartsItem(buf)
    ensures r.Ok? ==> 1 <= r.value.1 <= |buf|
    decreases |buf|, 0
  {
    var th := ReadHeader(buf).value;
    if !th.context then ReadApplication(buf)
    else if th.IsOpening() then
      if depth >= MAX_NESTING then Err(NestedTooDeep)
      else CloseConstructed(buf, th, ReadValues(buf[th.header..], depth + 1))
    else if (|buf| - th.header) % TWO_TO_32 < th.lvt then Err(TruncatedData)
    else Ok((ContextPrimitive(th.number, buf[th.header..th.header + th.lvt]), th.header + th.lvt))
  }

  /** decodeNestedValues */
  function ReadValues(buf: bytes, depth: nat): (r: Result<(seq<Value>, nat)>)
    ensures r.Ok? ==> r.value.1 <= |buf|
    decreases |buf|, 1
  {
    if Stops(buf) then Ok(([], 0))
    else
      var _ :- ReadHeader(buf);
      var x :- ReadItem(buf, depth);
      Prepend(x, ReadValues(buf[x.1..], depth))
  }

  /** On success, what follows the run is empty or starts with a closing tag,
      left for the caller. */
  lemma {:induction false} RunStops(buf: bytes, depth: nat)
    requires ReadValues(buf, depth).Ok?
    ensures Stops(buf[ReadValues(buf, depth).value.1..])
    decreases |buf|
  {
    hide ReadHeader, ReadItem;
    if !Stops(buf) {
      var n := ReadItem(buf, depth).value.1;
      RunStops(buf[n..], depth);
      var m := ReadValues(buf[n..], depth).value.1;
      assert buf[n..][m..] == buf[n + m..];
    } else {
      assert buf[0..] == buf;
    }
  }

  // ----- the round-trip domain

  predicate ValueOk(v: Value)
    decreases v, 0
  {
    match v
    case ContextPrimitive(_, data) => |data| != 6 && |data| != 7
    case Constructed(_, items) => ValuesOk(items)
    case _ => PrimitiveOk(v)
  }

  predicate ValuesOk(vs: seq<Value>)
    decreases vs, 1
  {
    vs == [] || (ValueOk(vs[0]) && ValuesOk(vs[1..]))
  }

  function Max(a: nat, b: nat): nat { if a < b then b else a }

  function HeightOf(v: Value): nat
    decreases v, 0
  {
    if v.Constructed? then 1 + Height(v.items) else 0
  }

  function Height(vs: seq<Value>): nat
    decreases vs, 1
  {
    if vs == [] then 0 else Max(HeightOf(vs[0]), Height(vs[1..]))
  }

  // ----- round trip

  /** Reading e followed by tail gives exactly v (or vs), consuming exactly e. */
  predicate ItemReads(v: Value, e: bytes, depth: nat, tail: bytes) {
    StartsItem(e + tail) && ReadItem(e + tail, depth) == Ok((v, |e|))
  }

  predicate RunReads(vs: seq<Value>, e: bytes, depth: nat, tail: bytes) {
    ReadValues(e + tail, depth) == Ok((vs, |e|))
  }

  lemma ReadValuesStep(buf: bytes, depth: nat, v: Value, n: nat, rest: bytes, vs: seq<Value>, m: nat)
    requires StartsItem(buf) && ReadItem(buf, depth) == Ok((v, n))
    requires n <= |buf| && buf[n..] == rest && ReadValues(rest, depth) == Ok((vs, m))
    ensures ReadValues(buf, depth) == Ok(([v] + vs, n + m))
  {
    hide ReadHeader;
  }

  lemma RunCons(v: Value, e: bytes, vs: seq<Value>, f: bytes, depth: nat, tail: bytes)
    requires ItemReads(v, e, depth, f + tail) && RunReads(vs, f, depth, tail)
    ensures RunReads([v] + vs, e + f, depth, tail)
  {
    hide ReadHeader, ReadItem, ReadValues;
    var buf := e + (f + tail);
    assert e + f + tail == buf;
    assert buf[|e|..] == f + tail;
    ReadValuesStep(buf, depth, v, |e|, f + tail, vs, |f|);
  }

  lemma ContextReads(tag: uint8, data: bytes, depth: nat, tail: bytes)
    requires |data| != 6 && |data| != 7 && |data| + |tail| < TWO_TO_32
    ensures ItemReads(ContextPrimitive(tag, data), DataHeader(tag, true, |data|) + data, depth, tail)
  {
    var h := DataHeader(tag, true, |data|);
    DataHeaderRoundTrip(tag, true, |data|, data + tail);
    assert h + data + tail == h + (data + tail);
    assert (h + (data + tail))[|h|..|h| + |data|] == data;
  }

  lemma ReadConstructedStep(buf: bytes, depth: nat, th: TagInfo, items: seq<Value>, n: nat, c: nat)
    requires depth < MAX_NESTING
    requires ReadHeader(buf) == Ok(th) && th.IsOpening()
    requires ReadValues(buf[th.header..], depth + 1) == Ok((items, n))
    requires n <= |buf[th.header..]| && ExpectClosing(buf[th.header..][n..], th.number) == Ok(c)
    ensures StartsItem(buf) && ReadItem(buf, depth) == Ok((Constructed(th.number, items), th.header + n + c))
  {
    hide ReadHeader;
  }

  lemma ConstructedReads(tag: uint8, items: seq<Value>, inner: bytes, depth: nat, tail: bytes)
    requires depth < MAX_NESTING
    requires RunReads(items, inner, depth + 1, Marker(tag, CLOSING_LVT) + tail)
    ensures var e := Marker(tag, OPENING_LVT) + inner + Marker(tag, CLOSING_LVT);
            ItemReads(Constructed(tag, items), e, depth, tail)
  {
    hide ReadHeader, ReadItem, ReadValues, Marker;
    var o, c := Marker(tag, OPENING_LVT), Marker(tag, CLOSING_LVT);
    var buf := o + (inner + (c + tail));
    assert o + inner + c + tail == buf;
    assert buf[|o|..] == inner + (c + tail);
    assert (inner + (c + tail))[|inner|..] == c + tail;
    MarkerRoundTrip(tag, OPENING_LVT, inner + (c + tail));
    MarkerRoundTrip(tag, CLOSING_LVT, tail);
    ReadConstructedStep(buf, depth, TagInfo(tag, true, OPENING_LVT, |o|), items, |inner|, |c|);
  }

  lemma PrimitiveReads(v: Value, depth: nat, tail: bytes)
    requires v.Primitive() && PrimitiveOk(v)
    requires |ValueBytes(v)| + |tail| < TWO_TO_32
    ensures ItemReads(v, ValueBytes(v), depth, tail)
  {
    if !v.Boolean? {
      assert |PrimitiveData(v)| <= |ValueBytes(v)|;
    }
    PrimitiveRoundTrip(v, tail);
    ReadApplicationHeader(ValueBytes(v) + tail);
  }

  lemma ReadApplicationHeader(buf: bytes)
    requires ReadApplication(buf).Ok?
    ensures ReadHeader(buf).Ok? && !ReadHeader(buf).value.context
  {
  }

  lemma ClosingStops(tag: uint8, tail: bytes)
    ensures Stops(Marker(tag, CLOSING_LVT) + tail)
  {
    MarkerRoundTrip(tag, CLOSING_LVT, tail);
  }

  lemma {:induction false} ItemRoundTrip(v: Value, depth: nat, tail: bytes)
    requires ValueOk(v) && HeightOf(v) + depth <= MAX_NESTING
    requires |ValueBytes(v)| + |tail| < TWO_TO_32
    ensures ItemReads(v, ValueBytes(v), depth, tail)
    decreases v, 0
  {
    hide ReadHeader, ReadItem, ReadValues, Marker, DataHeader, PrimitiveOk, Stops;
    if v.Constructed? {
      var c := Marker(v.tag, CLOSING_LVT);
      ClosingStops(v.tag, tail);
      assert |ValueBytes(v)| == |Marker(v.tag, OPENING_LVT)| + |ValuesBytes(v.items)| + |c|;
      RunRoundTrip(v.items, depth + 1, c + tail);
      ConstructedReads(v.tag, v.items, ValuesBytes(v.items), depth, tail);
    } else if v.ContextPrimitive? {
      ContextReads(v.tag, v.data, depth, tail);
    } else {
      PrimitiveReads(v, depth, tail);
    }
  }

  lemma {:induction false} RunRoundTrip(vs: seq<Value>, depth: nat, tail: bytes)
    requires ValuesOk(vs) && Height(vs) + depth <= MAX_NESTING && Stops(tail)
    requires |ValuesBytes(vs)| + |tail| < TWO_TO_32
    ensures RunReads(vs, ValuesBytes(vs), depth, tail)
    decreases vs, 1
  {
    if vs == [] {
      assert [] + tail == tail;
    } else {
      ItemRoundTrip(vs[0], depth, ValuesBytes(vs[1..]) + tail);
      RunRoundTrip(vs[1..], depth, tail);
      RunCons(vs[0], ValueBytes(vs[0]), vs[1..], ValuesBytes(vs[1..]), depth, tail);
      assert [vs[0]] + vs[1..] == vs;
    }
  }

  // ----- what is too deep is refused

  /** Reading e followed by tail stops with the nesting error. */
  predicate RunTooDeep(e: bytes, depth: nat, tail: bytes) {
    ReadValues(e + tail, depth) == Err(NestedTooDeep)
  }

  lemma ReadValuesFails(buf: bytes, depth: nat)
    requires StartsItem(buf) && ReadItem(buf, depth) == Err(NestedTooDeep)
    ensures ReadValues(buf, depth) == Err(NestedTooDeep)
  {
    hide ReadHeader, ReadItem;
  }

  lemma ReadValuesFailsLater(buf: bytes, depth: nat, v: Value, n: nat, rest: bytes)
    requires StartsItem(buf) && ReadItem(buf, depth) == Ok((v, n))
    requires n <= |buf| && buf[n..] == rest && ReadValues(rest, depth) == Err(NestedTooDeep)
    ensures ReadValues(buf, depth) == Err(NestedTooDeep)
  {
    hide ReadHeader, ReadItem;
  }

  lemma ConstructedTooDeep(tag: uint8, inner: bytes, depth: nat, tail: bytes)
    requires depth < MAX_NESTING ==> RunTooDeep(inner, depth + 1, Marker(tag, CLOSING_LVT) + tail)
    ensures var buf := Marker(tag, OPENING_LVT) + inner + Marker(tag, CLOSING_LVT) + tail;
            StartsItem(buf) && ReadItem(buf, depth) == Err(NestedTooDeep)
  {
    hide ReadHeader, ReadValues, Marker;
    var o, c := Marker(tag, OPENING_LVT), Marker(tag, CLOSING_LVT);
    var buf := o + (inner + (c + tail));
    assert o + inner + c + tail == buf;
    assert buf[|o|..] == inner + (c + tail);
    MarkerRoundTrip(tag, OPENING_LVT, inner + (c + tail));
  }

  lemma {:induction false} TooDeepIsRefused(vs: seq<Value>, depth: nat, tail: bytes)
    requires ValuesOk(vs) && Height(vs) + depth > 16 >= depth
    requires |ValuesBytes(vs)| + |tail| < TWO_TO_32
    ensures RunTooDeep(ValuesBytes(vs), depth, tail)
    decreases vs
  {
    hide ReadHeader, ReadItem, ReadValues, Marker, PrimitiveOk, PrimitiveBytes;
    var v, rest := vs[0], ValuesBytes(vs[1..]) + tail;
    var buf := ValueBytes(v) + rest;
    assert ValuesBytes(vs) + tail == buf;
    if HeightOf(v) + depth > MAX_NESTING {
      if depth < MAX_NESTING {
        TooDeepIsRefused(v.items, depth + 1, Marker(v.tag, CLOSING_LVT) + rest);
      }
      ConstructedTooDeep(v.tag, ValuesBytes(v.items), depth, rest);
      ReadValuesFails(buf, depth);
    } else {
      ItemRoundTrip(v, depth, rest);
      TooDeepIsRefused(vs[1..], depth, tail);
      assert buf[|ValueBytes(v)|..] == rest;
      ReadValuesFailsLater(buf, depth, v, |ValueBytes(v)|, rest);
    }
  }

  // ----- whatever is decoded lies in the domain

  lemma ApplicationInDomain(buf: bytes)
    requires ReadApplication(buf).Ok?
    ensures var (v, n) := ReadApplication(buf).value;
            v.Primitive() && PrimitiveOk(v) && |ValueBytes(v)| <= 16 * n
  {
    hide ReadHeader, DecodeData, PrimitiveData;
    var th := ReadHeader(buf).value;
    if th.number != TAG_BOOLEAN {
      DecodedDataIsOk(th.number, buf[th.header..th.header + th.lvt]);
    }
  }

  lemma {:induction false} ItemInDomain(buf: bytes, depth: nat)
    requires StartsItem(buf) && ReadItem(buf, depth).Ok? && depth <= MAX_NESTING
    ensures var (v, n) := ReadItem(buf, depth).value;
            ValueOk(v) && HeightOf(v) + depth <= MAX_NESTING && |ValueBytes(v)| <= 16 * n
    decreases |buf|, 0
  {
    hide ReadHeader, ReadApplication, ReadValues, DataHeader, Marker, PrimitiveOk, PrimitiveBytes;
    var th := ReadHeader(buf).value;
    if !th.context {
      ApplicationInDomain(buf);
    } else if th.IsOpening() {
      RunInDomain(buf[th.header..], depth + 1);
    }
  }

  lemma {:induction false} RunInDomain(buf: bytes, depth: nat)
    requires ReadValues(buf, depth).Ok? && depth <= MAX_NESTING
    ensures var (vs, n) := ReadValues(buf, depth).value;
            ValuesOk(vs) && Height(vs) + depth <= MAX_NESTING && |ValuesBytes(vs)| <= 16 * n
    decreases |buf|, 1
  {
    hide ReadHeader, ReadItem, ValueOk, ValueBytes, HeightOf;
    if !Stops(buf) {
      var (v, n) := ReadItem(buf, depth).value;
      ItemInDomain(buf, depth);
      RunInDomain(buf[n..], depth);
      var (vs, m) := ReadValues(buf[n..], depth).value;
      assert ([v] + vs)[1..] == vs;
    }
  }

  // ----- the theorems

  /** Encoding then decoding returns vs, consuming exactly its encoding, if and
      only if every field of vs fits its wire field, no context primitive has 6
      or 7 octets, and the nesting fits the limit. */
  lemma RoundTripExactly(vs: seq<Value>, depth: nat, tail: bytes)
    requires depth <= 16 && Stops(tail)
    requires |ValuesBytes(vs)| + |tail| < TWO_TO_32
    ensures RunReads(vs, ValuesBytes(vs), depth, tail)
       <==> ValuesOk(vs) && Height(vs) + depth <= 16
  {
    hide ReadHeader, ReadValues, ValuesOk, ValuesBytes, Height;
    if ValuesOk(vs) && Height(vs) + depth <= MAX_NESTING {
      RunRoundTrip(vs, depth, tail);
    } else if RunReads(vs, ValuesBytes(vs), depth, tail) {
      RunInDomain(ValuesBytes(vs) + tail, depth);
    }
  }

  /** decodeValues after encoding after decodeValues changes nothing, however
      the accepted octets were written: foreign character sets, over-long
      integers and non-canonical headers are all normalised away. */
  lemma Normalises(buf: bytes)
    requires |buf| < 0x800_0000 && ReadValues(buf, 0).Ok?
    ensures var vs := ReadValues(buf, 0).value.0;
            ReadValues(ValuesBytes(vs), 0) == Ok((vs, |ValuesBytes(vs)|))
  {
    hide ReadHeader, ReadValues, ValuesOk, ValuesBytes, Height;
    var vs := ReadValues(buf, 0).value.0;
    RunInDomain(buf, 0);
    RoundTripExactly(vs, 0, []);
    assert ValuesBytes(vs) + [] == ValuesBytes(vs);
  }

  /** The smallest failing case: [2] with six octets is taken for an opening tag. */
  lemma SixOctetContextPrimitiveFails()
    ensures var v := ContextPrimitive(2, [1, 2, 3, 4, 5, 6]);
            ReadValues(ValuesBytes([v]), 0) != Ok(([v], |ValuesBytes([v])|))
  {
    hide ReadHeader, ReadValues, ValuesBytes;
    var v := ContextPrimitive(2, [1, 2, 3, 4, 5, 6]);
    assert !ValueOk(v) && !ValuesOk([v]);
    if ReadValues(ValuesBytes([v]), 0) == Ok(([v], |ValuesBytes([v])|)) {
      RunInDomain(ValuesBytes([v]), 0);
    }
  }

  // ----- the imperative encoder and decoders

  /** AppendValue: grows buf item by item. */
  method AppendValue(buf: bytes, v: Value) returns (out: bytes)
    ensures out == buf + ValueBytes(v)
    decreases v
  {
    hide DataHeader, Marker, PrimitiveBytes;
    if v.ContextPrimitive? {
      out := AppendTagHeader(buf, v.tag, true, |v.data| % TWO_TO_32);
      out := out + v.data;
      assert out == buf + (DataHeader(v.tag, true, |v.data| % TWO_TO_32) + v.data);
    } else if v.Constructed? {
      out := AppendMarkerTag(buf, v.tag, OPENING_LVT);
      ghost var all := out + ValuesBytes(v.items);
      for i := 0 to |v.items|
        invariant out + ValuesBytes(v.items[i..]) == all
      {
        assert v.items[i..][1..] == v.items[i + 1..];
        out := AppendValue(out, v.items[i]);
      }
      assert out == all;
      out := AppendMarkerTag(out, v.tag, CLOSING_LVT);
      assert out == buf + ValueBytes(v);
    } else {
      out := AppendContextValue(buf, false, ApplicationTag(v), v);
    }
  }

  /** The loops that append a property's values. */
  method AppendValues(buf: bytes, vs: seq<Value>) returns (out: bytes)
    ensures out == buf + ValuesBytes(vs)
  {
    hide ValueBytes;
    out := buf;
    for i := 0 to |vs|
      invariant out + ValuesBytes(vs[i..]) == buf + ValuesBytes(vs)
    {
      ghost var start := out;
      out := AppendValue(out, vs[i]);
      assert vs[i..][1..] == vs[i + 1..];
      assert start + ValuesBytes(vs[i..]) == start + (ValueBytes(vs[i]) + ValuesBytes(vs[i + 1..]));
    }
  }

  /** Puts what was read so far before the result of reading on. */
  function After<T>(done: seq<T>, pos: nat, r: Result<(seq<T>, nat)>): (a: Result<(seq<T>, nat)>)
    ensures r.Err? ==> a == r
  {
    if r.Err? then r else Ok((done + r.value.0, pos + r.value.1))
  }

  predicate AfterSame<T(==)>(a: seq<T>, m: nat, r: Result<(seq<T>, nat)>, b: seq<T>, n: nat, s: Result<(seq<T>, nat)>) {
    After(a, m, r) == After(b, n, s)
  }

  lemma AfterNothing<T>(done: seq<T>, pos: nat, r: Result<(seq<T>, nat)>)
    ensures After([], 0, r) == r
    ensures After(done, pos, Ok(([], 0))) == Ok((done, pos))
  {
    assert done + [] == done;
    if r.Ok? { assert [] + r.value.0 == r.value.0; }
  }

  /** How the loop of decodeNestedValues ends. */
  lemma ReadValuesCases(buf: bytes, depth: nat)
    ensures ReadHeader(buf).Err? && buf != [] ==> ReadValues(buf, depth) == Err(ReadHeader(buf).error)
    ensures buf == [] || (ReadHeader(buf).Ok? && ReadHeader(buf).value.IsClosing()) ==>
      ReadValues(buf, depth) == Ok(([], 0))
    ensures StartsItem(buf) && ReadItem(buf, depth).Err? ==> ReadValues(buf, depth) == Err(ReadItem(buf, depth).error)
  {
    hide ReadHeader, ReadItem;
  }

  /** decodeNestedValues: a cursor over buf. */
  method DecodeNestedValues(buf: bytes, depth: nat) returns (r: Result<(seq<Value>, nat)>)
    ensures r == ReadValues(buf, depth)
    decreases |buf|, 1
  {
    hide ReadHeader, After, ReadValues, ReadItem, Stops;
    var values: seq<Value> := [];
    var pos := 0;
    assert buf[0..] == buf;
    AfterNothing(values, pos, ReadValues(buf, depth));
    while pos < |buf|
      invariant pos <= |buf|
      invariant ReadValues(buf, depth) == After(values, pos, ReadValues(buf[pos..], depth))
    {
      ghost var rest := buf[pos..];
      ReadValuesCases(rest, depth);
      AfterNothing(values, pos, ReadValues(rest, depth));
      var h := DecodeTagHeader(buf[pos..]);
      if h.Err? { return Err(h.error); }
      if h.value.IsClosing() { return Ok((values, pos)); }
      AfterStep(rest, depth, values, pos);
      var x := DecodeItem(buf[pos..], depth, h.value);
      if x.Err? { return Err(x.error); }
      values := values + [x.value.0];
      pos := pos + x.value.1;
      assert buf[pos..] == rest[x.value.1..];
    }
    AfterNothing(values, pos, ReadValues(buf, depth));
    ReadValuesCases(buf[pos..], depth);
    return Ok((values, pos));
  }

  /** One turn of that loop, below a header that is no closing tag. */
  method DecodeItem(buf: bytes, depth: nat, th: TagInfo) returns (r: Result<(Value, nat)>)
    requires ReadHeader(buf) == Ok(th) && !th.IsClosing()
    ensures r == ReadItem(buf, depth)
    decreases |buf|, 0
  {
    hide ReadHeader, ReadApplication, ReadValues, ExpectClosing;
    if !th.context {
      return ReadApplication(buf);
    } else if th.IsOpening() {
      if depth >= MAX_NESTING { return Err(NestedTooDeep); }
      var pos := th.header;
      var inner := DecodeNestedValues(buf[pos..], depth + 1);
      if inner.Err? { return Err(inner.error); }
      pos := pos + inner.value.1;
      assert buf[pos..] == buf[th.header..][inner.value.1..];
      var c := ExpectClosing(buf[pos..], th.number);
      if c.Err? { return Err(c.error); }
      return Ok((Constructed(th.number, inner.value.0), pos + c.value));
    } else {
      if (|buf| - th.header) % TWO_TO_32 < th.lvt { return Err(TruncatedData); }
      return Ok((ContextPrimitive(th.number, buf[th.header..th.header + th.lvt]), th.header + th.lvt));
    }
  }

  lemma AfterStep(rest: bytes, depth: nat, done: seq<Value>, pos: nat)
    requires StartsItem(rest)
    ensures ReadItem(rest, depth).Ok? ==> var (v, n) := ReadItem(rest, depth).value;
            AfterSame(done, pos, ReadValues(rest, depth), done + [v], pos + n, ReadValues(rest[n..], depth))
  {
    hide ReadHeader, ReadItem;
    if ReadItem(rest, depth).Ok? {
      var (v, n) := ReadItem(rest, depth).value;
      var r := ReadValues(rest[n..], depth);
      if r.Ok? { assert done + ([v] + r.value.0) == done + [v] + r.value.0; }
    }
  }
}
