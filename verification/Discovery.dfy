/** Who-Is and I-Am (services.go), and runs of application-tagged values (value.go). */
module Discovery {
  import opened Octets
  import opened Tag
  import opened Values
  import opened Nested
  import opened Services

  /** decodeApplicationValues: stops at the end of the data or at a context tag. */
  function ReadApplications(buf: bytes): (r: Result<(seq<Value>, nat)>)
    ensures r.Ok? ==> r.value.1 <= |buf|
    decreases |buf|
  {
    if buf == [] then Ok(([], 0))
    else
      var th :- ReadHeader(buf);
      if th.context then Ok(([], 0))
      else
        var x :- ReadApplication(buf);
        Prepend(x, ReadApplications(buf[x.1..]))
  }

  /** EncodeWhoIsRequest: a half-open range is sent as no range at all. */
  function EncodeWhoIs(r: WhoIsRequest): bytes {
    if r.low.None? || r.high.None? then []
    else UnsignedField(0, r.low.value) + UnsignedField(1, r.high.value)
  }

  function DecodeWhoIs(buf: bytes): Result<WhoIsRequest> {
    if buf == [] then Ok(WhoIsRequest(None, None))
    else
      var (low, n) :- ContextUnsigned(buf, 0);
      var (high, _) :- ContextUnsigned(buf[n..], 1);
      Ok(WhoIsRequest(Some(low % TWO_TO_32), Some(high % TWO_TO_32)))
  }

  /** EncodeIAm */
  function IAmValues(v: IAm): seq<Value> {
    [ObjectID(v.device), UnsignedInt(v.maxAPDULength), Enumerated(v.segmentation), UnsignedInt(v.vendorID)]
  }

  /** The Unsigned and Enum fields of a Go Value are zero in values of another kind. */
  function UnsignedOf(v: Value): uint64 { if v.UnsignedInt? then v.u else 0 }

  function EnumOf(v: Value): uint32 { if v.Enumerated? then v.e else 0 }

  function DecodeIAm(buf: bytes): Result<IAm> {
    var (vs, _) :- ReadApplications(buf);
    if |vs| != 4 then Err(WrongValueCount)
    else if !vs[0].ObjectID? then Err(WrongValueKind)
    else Ok(IAm(vs[0].oid, UnsignedOf(vs[1]) % TWO_TO_32, EnumOf(vs[2]), UnsignedOf(vs[3]) % TWO_TO_32))
  }

  /** A Who-Is survives exactly when its limits come in pairs. */
  lemma WhoIsRoundTrip(r: WhoIsRequest)
    ensures DecodeWhoIs(EncodeWhoIs(r)) == Ok(r) <==> (r.low.None? <==> r.high.None?)
  {
    hide ContextUnsigned, UnsignedField;
    if r.low.Some? && r.high.Some? {
      var a, b := UnsignedField(0, r.low.value), UnsignedField(1, r.high.value);
      UnsignedFieldReads(1, r.high.value, []);
      UnsignedFieldReads(0, r.low.value, b);
      Cut(a, b);
      assert b + [] == b;
    }
  }

  predicate AllPrimitiveOk(vs: seq<Value>) { forall v <- vs :: v.Primitive() && PrimitiveOk(v) }

  lemma {:induction false} ApplicationsRead(vs: seq<Value>)
    requires AllPrimitiveOk(vs) && |ValuesBytes(vs)| < TWO_TO_32
    ensures ReadApplications(ValuesBytes(vs)) == Ok((vs, |ValuesBytes(vs)|))
  {
    hide ReadHeader, ReadApplication, ValueBytes, PrimitiveOk;
    if vs != [] {
      var e, rest := ValueBytes(vs[0]), ValuesBytes(vs[1..]);
      PrimitiveValueReads(vs[0], rest);
      ReadApplicationHeader(e + rest);
      ApplicationsRead(vs[1..]);
      Cut(e, rest);
      assert [vs[0]] + vs[1..] == vs;
    }
  }

  lemma {:induction false} ReadApplicationsOk(buf: bytes)
    requires ReadApplications(buf).Ok?
    ensures AllPrimitiveOk(ReadApplications(buf).value.0)
    decreases |buf|
  {
    hide ReadHeader, ReadApplication, PrimitiveOk;
    if buf != [] && !ReadHeader(buf).value.context {
      ApplicationInDomain(buf);
      ReadApplicationsOk(buf[ReadApplication(buf).value.1..]);
    }
  }

  lemma SmallValueBytes(v: Value)
    requires v.UnsignedInt? || v.Enumerated? || v.ObjectID?
    ensures |ValueBytes(v)| <= 15
  {
    hide DataHeader, Integers.MinUnsigned;
    if v.UnsignedInt? { Integers.MinUnsignedExact(v.u); }
    if v.Enumerated? { Integers.MinUnsignedExact(v.e); }
  }

  lemma IAmBytes(v: IAm)
    ensures |ValuesBytes(IAmValues(v))| <= 60
  {
    hide ValueBytes;
    var vs := IAmValues(v);
    SmallValueBytes(vs[0]);
    SmallValueBytes(vs[1]);
    SmallValueBytes(vs[2]);
    SmallValueBytes(vs[3]);
    assert |ValuesBytes(vs[3..])| <= 15;
    assert |ValuesBytes(vs[2..])| <= 30 by { assert vs[2..][1..] == vs[3..]; }
    assert |ValuesBytes(vs[1..])| <= 45 by { assert vs[1..][1..] == vs[2..]; }
  }

  /** An I-Am survives exactly when its device identifier fits its wire fields. */
  lemma IAmRoundTrip(v: IAm)
    ensures DecodeIAm(ValuesBytes(IAmValues(v))) == Ok(v) <==> ObjectOk(v.device)
  {
    hide ReadApplications, ValuesBytes, ObjectOk;
    var vs, buf := IAmValues(v), ValuesBytes(IAmValues(v));
    IAmBytes(v);
    if DecodeIAm(buf) == Ok(v) {
      ReadApplicationsOk(buf);
      assert PrimitiveOk(ReadApplications(buf).value.0[0]);
    }
    if ObjectOk(v.device) {
      ApplicationsRead(vs);
    }
  }

  /** Which octets are an I-Am, and whose: exactly four application values up to
      the first context tag, an object identifier first; a field whose value is of
      another kind than expected is zero. */
  lemma IAmMeaning(buf: bytes, v: IAm)
    ensures DecodeIAm(buf) == Ok(v) <==>
      exists vs: seq<Value>, n: nat ::
        && ReadApplications(buf) == Ok((vs, n)) && |vs| == 4 && vs[0] == ObjectID(v.device)
        && v.maxAPDULength == (if vs[1].UnsignedInt? then vs[1].u % 0x1_0000_0000 else 0)
        && v.segmentation == (if vs[2].Enumerated? then vs[2].e else 0)
        && v.vendorID == (if vs[3].UnsignedInt? then vs[3].u % 0x1_0000_0000 else 0)
  {
    hide ReadApplications;
    if ReadApplications(buf).Ok? {
      var (vs, n) := ReadApplications(buf).value;
      assert ReadApplications(buf) == Ok((vs, n));
    }
  }

  /** A Who-Is without limits is empty, one with limits has both. */
  lemma WhoIsMeaning(buf: bytes)
    requires DecodeWhoIs(buf).Ok?
    ensures var r := DecodeWhoIs(buf).value;
            if buf == [] then r.low == r.high == None
            else r.low.Some? && r.high.Some? && ContextUnsigned(buf, 0).Ok?
  {
  }

  /** decodeApplicationValues: a cursor over buf. */
  method DecodeApplicationValues(buf: bytes) returns (r: Result<(seq<Value>, nat)>)
    ensures r == ReadApplications(buf)
  {
    hide ReadHeader, ReadApplication, After, ReadApplications;
    var values: seq<Value> := [];
    var pos := 0;
    assert buf[0..] == buf;
    AfterNothing(values, pos, ReadApplications(buf));
    while pos < |buf|
      invariant pos <= |buf|
      invariant ReadApplications(buf) == After(values, pos, ReadApplications(buf[pos..]))
    {
      ghost var rest := buf[pos..];
      AfterApplication(rest, values, pos);
      AfterNothing(values, pos, ReadApplications(rest));
      var h := DecodeTagHeader(buf[pos..]);
      if h.Err? { return Err(h.error); }
      if h.value.context { break; }
      var x := ReadApplication(buf[pos..]);
      if x.Err? { return Err(x.error); }
      values := values + [x.value.0];
      pos := pos + x.value.1;
      assert buf[pos..] == rest[x.value.1..];
    }
    AfterNothing(values, pos, ReadApplications(buf));
    ApplicationsStop(buf[pos..]);
    return Ok((values, pos));
  }

  lemma ApplicationsStop(buf: bytes)
    ensures buf == [] || (ReadHeader(buf).Ok? && ReadHeader(buf).value.context) ==> ReadApplications(buf) == Ok(([], 0))
  {
    hide ReadHeader, ReadApplication;
  }

  lemma AfterApplication(rest: bytes, done: seq<Value>, pos: nat)
    requires rest != []
    ensures ReadHeader(rest).Err? ==> ReadApplications(rest) == Err(ReadHeader(rest).error)
    ensures ReadHeader(rest).Ok? && !ReadHeader(rest).value.context && ReadApplication(rest).Err? ==>
              ReadApplications(rest) == Err(ReadApplication(rest).error)
    ensures ReadHeader(rest).Ok? && !ReadHeader(rest).value.context && ReadApplication(rest).Ok? ==>
              var (v, n) := ReadApplication(rest).value;
              AfterSame(done, pos, ReadApplications(rest), done + [v], pos + n, ReadApplications(rest[n..]))
  {
    hide ReadHeader, ReadApplication;
    if ReadHeader(rest).Ok? && !ReadHeader(rest).value.context && ReadApplication(rest).Ok? {
      var (v, n) := ReadApplication(rest).value;
      var r := ReadApplications(rest[n..]);
      if r.Ok? { assert done + ([v] + r.value.0) == done + [v] + r.value.0; }
    }
  }
}
