/** The layers below the services: APDU (apdu.go; ASHRAE 135 clause 20.1.2),
    NPDU (npdu.go; clause 6.2) and BACnet/IP BVLC (bvlc.go; Annex J). */
module Stack {
  import opened Octets
  import opened Services
  import opened ReadMultiple
  import opened ReadMultipleAck

  const CONFIRMED_REQUEST: uint8 := 0
  const UNCONFIRMED_REQUEST: uint8 := 1
  const SIMPLE_ACK: uint8 := 2
  const COMPLEX_ACK: uint8 := 3
  const ERROR_PDU: uint8 := 5
  const REJECT_PDU: uint8 := 6
  const ABORT_PDU: uint8 := 7

  const READ_PROPERTY_MULTIPLE: uint8 := 14
  const WRITE_PROPERTY: uint8 := 15

  /** A decoded APDU; fields its type does not have are zero. */
  datatype APDU = APDU(
    kind: uint8, invokeID: uint8, serviceChoice: uint8, rejectReason: uint8, abortReason: uint8, params: bytes)

  // ----- APDU

  function EncodeConfirmedRequest(invokeID: uint8, service: uint8, params: bytes): bytes {
    [0x00, 0x05, invokeID, service] + params
  }

  function EncodeUnconfirmedRequest(service: uint8, params: bytes): bytes { [0x10, service] + params }

  function EncodeSimpleACK(invokeID: uint8, service: uint8): bytes { [0x20, invokeID, service] }

  function EncodeComplexACK(invokeID: uint8, service: uint8, params: bytes): bytes {
    [0x30, invokeID, service] + params
  }

  function EncodeErrorAPDU(invokeID: uint8, service: uint8, e: BACnetError): bytes {
    [0x50, invokeID, service] + ErrorBytes(e)
  }

  function EncodeReject(invokeID: uint8, reason: uint8): bytes { [0x60, invokeID, reason] }

  function EncodeAbort(invokeID: uint8, reason: uint8): bytes { [0x71, invokeID, reason] }

  function DecodeAPDU(buf: bytes): Result<APDU> {
    if |buf| < 1 then Err(EmptyAPDU)
    else
      var kind := buf[0] / 16;
      var segmented := buf[0] / 8 % 2 == 1;
      if kind == CONFIRMED_REQUEST then
        if segmented then Err(SegmentedAPDU)
        else if |buf| < 4 then Err(TruncatedAPDU)
        else Ok(APDU(kind, buf[2], buf[3], 0, 0, buf[4..]))
      else if kind == UNCONFIRMED_REQUEST then
        if |buf| < 2 then Err(TruncatedAPDU) else Ok(APDU(kind, 0, buf[1], 0, 0, buf[2..]))
      else if kind == COMPLEX_ACK && segmented then Err(SegmentedAPDU)
      else if kind == SIMPLE_ACK || kind == COMPLEX_ACK || kind == ERROR_PDU || kind == REJECT_PDU
              || kind == ABORT_PDU then
        if |buf| < 3 then Err(TruncatedAPDU)
        else if kind == SIMPLE_ACK then Ok(APDU(kind, buf[1], buf[2], 0, 0, []))
        else if kind == REJECT_PDU then Ok(APDU(kind, buf[1], 0, buf[2], 0, []))
        else if kind == ABORT_PDU then Ok(APDU(kind, buf[1], 0, 0, buf[2], []))
        else Ok(APDU(kind, buf[1], buf[2], 0, 0, buf[3..]))
      else Err(UnsupportedAPDU)
  }

  // ----- NPDU

  /** Version 1, and the data-expecting-reply bit for confirmed requests. */
  function EncodeNPDU(apdu: bytes): bytes {
    [0x01, if |apdu| > 0 && apdu[0] / 16 == CONFIRMED_REQUEST then 0x04 else 0x00] + apdu
  }

  /** Steps over a network number, an address length and the address. */
  function SkipAddress(buf: bytes, pos: nat): Result<nat> {
    if |buf| < pos + 3 then Err(TruncatedAddress) else Ok(pos + 3 + buf[pos + 2])
  }

  function DecodeNPDU(buf: bytes): Result<bytes> {
    if |buf| < 2 then Err(TruncatedNPDU)
    else
      var control := buf[1];
      var destination := control / 32 % 2 == 1;
      var source := control / 8 % 2 == 1;
      if control / 128 == 1 then Err(NetworkLayerMessage)
      else
        var p :- (if destination then SkipAddress(buf, 2) else Ok(2));
        var q :- (if source then SkipAddress(buf, p) else Ok(p));
        var pos := if destination then q + 1 else q;
        if |buf| < pos + 1 then Err(NoAPDU) else Ok(buf[pos..])
  }

  /** decodeNPDU: a cursor stepping over the optional fields. */
  method StripNPDU(buf: bytes) returns (r: Result<bytes>)
    ensures r == DecodeNPDU(buf)
  {
    if |buf| < 2 {
      return Err(TruncatedNPDU);
    }
    var control := buf[1];
    var pos: nat := 2;
    if control / 128 == 1 {
      return Err(NetworkLayerMessage);
    }
    if control / 32 % 2 == 1 {
      if |buf| < pos + 3 {
        return Err(TruncatedAddress);
      }
      pos := pos + 3 + buf[pos + 2];
    }
    if control / 8 % 2 == 1 {
      if |buf| < pos + 3 {
        return Err(TruncatedAddress);
      }
      pos := pos + 3 + buf[pos + 2];
    }
    if control / 32 % 2 == 1 {
      pos := pos + 1;
    }
    if |buf| < pos + 1 {
      return Err(NoAPDU);
    }
    return Ok(buf[pos..]);
  }

  // ----- BVLC

  function Length(total: nat): bytes { [total / 256 % 256, total % 256] }

  function EncodeUnicastPacket(apdu: bytes): bytes {
    [0x81, 0x0A] + Length(4 + |EncodeNPDU(apdu)|) + EncodeNPDU(apdu)
  }

  function DecodeIncomingPacket(pkt: bytes): Result<APDU> {
    if |pkt| < 4 then Err(TruncatedBVLC)
    else if pkt[0] != 0x81 then Err(UnsupportedBVLCType)
    else if pkt[1] != 0x0A && pkt[1] != 0x0B && pkt[1] != 0x04 then Err(UnsupportedBVLCFunction)
    else
      var header := if pkt[1] == 0x04 then 10 else 4;
      if pkt[2] as int * 256 + pkt[3] as int != |pkt| then Err(BVLCLengthMismatch)
      else if |pkt| < header then Err(TruncatedBVLC)
      else
        var apdu :- DecodeNPDU(pkt[header..]);
        DecodeAPDU(apdu)
  }

  // ----- APDU round trips

  lemma APDURoundTrip(id: uint8, service: uint8, params: bytes, reason: uint8, e: BACnetError)
    ensures DecodeAPDU(EncodeConfirmedRequest(id, service, params))
         == Ok(APDU(CONFIRMED_REQUEST, id, service, 0, 0, params))
    ensures DecodeAPDU(EncodeUnconfirmedRequest(service, params))
         == Ok(APDU(UNCONFIRMED_REQUEST, 0, service, 0, 0, params))
    ensures DecodeAPDU(EncodeSimpleACK(id, service)) == Ok(APDU(SIMPLE_ACK, id, service, 0, 0, []))
    ensures DecodeAPDU(EncodeComplexACK(id, service, params)) == Ok(APDU(COMPLEX_ACK, id, service, 0, 0, params))
    ensures DecodeAPDU(EncodeErrorAPDU(id, service, e)) == Ok(APDU(ERROR_PDU, id, service, 0, 0, ErrorBytes(e)))
    ensures DecodeAPDU(EncodeReject(id, reason)) == Ok(APDU(REJECT_PDU, id, 0, reason, 0, []))
    ensures DecodeAPDU(EncodeAbort(id, reason)) == Ok(APDU(ABORT_PDU, id, 0, 0, reason, []))
  {
    hide ErrorBytes;
    assert EncodeConfirmedRequest(id, service, params)[4..] == params;
    assert EncodeUnconfirmedRequest(service, params)[2..] == params;
    assert EncodeComplexACK(id, service, params)[3..] == params;
    assert EncodeErrorAPDU(id, service, e)[3..] == ErrorBytes(e);
  }

  /** What an APDU decodes to, by the ranges of its first octet: the low half
      holds flags, of which only "segmented" (0x08) is looked at. */
  lemma APDUMeaning(buf: bytes, a: APDU)
    ensures DecodeAPDU(buf) == Ok(a) <==>
      || (|buf| >= 4 && buf[0] < 0x08 && a == APDU(0, buf[2], buf[3], 0, 0, buf[4..]))
      || (|buf| >= 2 && 0x10 <= buf[0] < 0x20 && a == APDU(1, 0, buf[1], 0, 0, buf[2..]))
      || (|buf| >= 3 && 0x20 <= buf[0] < 0x30 && a == APDU(2, buf[1], buf[2], 0, 0, []))
      || (|buf| >= 3 && 0x30 <= buf[0] < 0x38 && a == APDU(3, buf[1], buf[2], 0, 0, buf[3..]))
      || (|buf| >= 3 && 0x50 <= buf[0] < 0x60 && a == APDU(5, buf[1], buf[2], 0, 0, buf[3..]))
      || (|buf| >= 3 && 0x60 <= buf[0] < 0x70 && a == APDU(6, buf[1], 0, buf[2], 0, []))
      || (|buf| >= 3 && 0x70 <= buf[0] < 0x80 && a == APDU(7, buf[1], 0, 0, buf[2], []))
  {
    if buf != [] {
      var b: int := buf[0];
      assert b == b / 16 * 16 + b / 8 % 2 * 8 + b % 8;
    }
  }

  /** A segmented request or acknowledgement is refused, whatever else it holds. */
  lemma SegmentedIsRefused(buf: bytes)
    requires buf != [] && (0x08 <= buf[0] < 0x10 || 0x38 <= buf[0] < 0x40)
    ensures DecodeAPDU(buf) == Err(SegmentedAPDU)
  {
    var b: int := buf[0];
    assert b == b / 16 * 16 + b / 8 % 2 * 8 + b % 8;
  }

  // ----- routing

  /** Everything a packet may carry around its APDU: a BVLC function, with the
      origin's six octets in a Forwarded-NPDU; an NPDU version; control bits that
      announce no further fields; destination (network, address, hop count) and
      source (network, address). */
  datatype Routing = Routing(
    function_: byte, origin: bytes, version: byte, flags: byte,
    destination: Option<(bytes, bytes, byte)>, source: Option<(bytes, bytes)>)
  {
    predicate Valid() {
      && (function_ == 0x0A || function_ == 0x0B || function_ == 0x04)
      && |origin| == (if function_ == 0x04 then 6 else 0)
      && flags / 128 == 0 && flags / 32 % 2 == 0 && flags / 8 % 2 == 0
      && (destination.Some? ==> |destination.value.0| == 2 && |destination.value.1| < 256)
      && (source.Some? ==> |source.value.0| == 2 && |source.value.1| < 256)
    }

    function Control(): int {
      flags as int + (if destination.Some? then 32 else 0) + (if source.Some? then 8 else 0)
    }
  }

  function AddressBytes(network: bytes, address: bytes): bytes
    requires |address| < 256
  {
    network + [|address|] + address
  }

  function DestinationBytes(r: Routing): bytes requires r.Valid() {
    if r.destination.None? then [] else AddressBytes(r.destination.value.0, r.destination.value.1)
  }

  function SourceBytes(r: Routing): bytes requires r.Valid() {
    if r.source.None? then [] else AddressBytes(r.source.value.0, r.source.value.1)
  }

  function HopBytes(r: Routing): bytes {
    if r.destination.None? then [] else [r.destination.value.2]
  }

  lemma ControlBits(r: Routing)
    requires r.Valid()
    ensures 0 <= r.Control() < 128
    ensures (r.Control() / 32 % 2 == 1 <==> r.destination.Some?) && (r.Control() / 8 % 2 == 1 <==> r.source.Some?)
  {
    var f: int := r.flags;
    var high, mid, low := f / 32, f / 16 % 2, f % 8;
    assert f == high * 32 + mid * 16 + low;
    assert high % 2 == 0 && 0 <= high < 4;
  }

  function RoutedNPDU(r: Routing, apdu: bytes): bytes
    requires r.Valid()
  {
    ControlBits(r);
    [r.version, r.Control()] + DestinationBytes(r) + SourceBytes(r) + HopBytes(r) + apdu
  }

  function RoutedPacket(r: Routing, apdu: bytes): bytes
    requires r.Valid()
  {
    var npdu := RoutedNPDU(r, apdu);
    [0x81, r.function_] + Length(4 + |r.origin| + |npdu|) + r.origin + npdu
  }

  lemma SkipAddressReads(before: bytes, network: bytes, address: bytes, tail: bytes)
    requires |network| == 2 && |address| < 256
    ensures SkipAddress(before + AddressBytes(network, address) + tail, |before|)
         == Ok(|before + AddressBytes(network, address)|)
  {
    var buf := before + AddressBytes(network, address) + tail;
    assert buf[|before| + 2] == AddressBytes(network, address)[2] == |address|;
  }

  lemma RoutedNPDUDecodes(r: Routing, apdu: bytes)
    requires r.Valid() && apdu != []
    ensures DecodeNPDU(RoutedNPDU(r, apdu)) == Ok(apdu)
  {
    hide AddressBytes;
    ControlBits(r);
    var head, d, s, h := [r.version, r.Control()], DestinationBytes(r), SourceBytes(r), HopBytes(r);
    var buf := RoutedNPDU(r, apdu);
    assert buf[1] == r.Control();
    if r.destination.Some? {
      SkipAddressReads(head, r.destination.value.0, r.destination.value.1, s + h + apdu);
      assert buf == head + d + (s + h + apdu);
    }
    assert head + [] == head;
    if r.source.Some? {
      SkipAddressReads(head + d, r.source.value.0, r.source.value.1, h + apdu);
      assert buf == head + d + s + (h + apdu);
    }
    var pos := |head| + |d| + |s| + |h|;
    assert buf[pos..] == apdu;
  }

  lemma LengthDecodes(total: nat)
    ensures var l := Length(total); l[0] as int * 256 + l[1] as int == total <==> total < 65536
  {
    var h := total / 256;
    assert total == 256 * h + total % 256;
    assert h < 256 <==> total < 65536;
  }

  /** Routing is transparent: a Forwarded-NPDU origin and destination, source and
      hop-count fields never change the APDU that is decoded. */
  lemma RoutingIsTransparent(r: Routing, apdu: bytes)
    requires r.Valid() && apdu != [] && |RoutedPacket(r, apdu)| <= 65535
    ensures DecodeIncomingPacket(RoutedPacket(r, apdu)) == DecodeAPDU(apdu)
  {
    hide DecodeAPDU, DecodeNPDU, RoutedNPDU;
    var npdu, pkt := RoutedNPDU(r, apdu), RoutedPacket(r, apdu);
    var header := 4 + |r.origin|;
    LengthDecodes(header + |npdu|);
    assert pkt[header..] == npdu;
    RoutedNPDUDecodes(r, apdu);
  }

  /** The encoder's own packets decode to their APDU exactly when they fit the
      16-bit BVLC length. */
  lemma UnicastRoundTrip(apdu: bytes)
    requires apdu != []
    ensures DecodeIncomingPacket(EncodeUnicastPacket(apdu)) == DecodeAPDU(apdu) <==> |apdu| + 6 <= 65535
    ensures |apdu| + 6 > 65535 ==> DecodeIncomingPacket(EncodeUnicastPacket(apdu)) == Err(BVLCLengthMismatch)
  {
    var flags := if apdu[0] / 16 == CONFIRMED_REQUEST then 0x04 else 0x00;
    var r := Routing(0x0A, [], 0x01, flags, None, None);
    var pkt := EncodeUnicastPacket(apdu);
    assert EncodeNPDU(apdu) == RoutedNPDU(r, apdu);
    assert pkt == RoutedPacket(r, apdu);
    LengthDecodes(|pkt|);
    if |apdu| + 6 <= 65535 {
      RoutingIsTransparent(r, apdu);
    }
  }

  lemma SourceOctets(version: byte, from: bytes, at: bytes, apdu: bytes)
    requires |from| == 2 && |at| < 256 && apdu != []
    ensures DecodeNPDU([version, 0x08] + from + [|at|] + at + apdu) == Ok(apdu)
  {
    hide DecodeNPDU;
    var r := Routing(0x0A, [], version, 0, None, Some((from, at)));
    RoutedNPDUDecodes(r, apdu);
    assert RoutedNPDU(r, apdu) == [version, 0x08] + from + [|at|] + at + apdu;
  }

  lemma DestinationOctets(version: byte, to: bytes, via: bytes, hops: byte, apdu: bytes)
    requires |to| == 2 && |via| < 256 && apdu != []
    ensures DecodeNPDU([version, 0x20] + to + [|via|] + via + [hops] + apdu) == Ok(apdu)
  {
    hide DecodeNPDU;
    var r := Routing(0x0A, [], version, 0, Some((to, via, hops)), None);
    RoutedNPDUDecodes(r, apdu);
    assert RoutedNPDU(r, apdu) == [version, 0x20] + to + [|via|] + via + [hops] + apdu;
  }

  lemma BothOctets(version: byte, to: bytes, via: bytes, from: bytes, at: bytes, hops: byte, apdu: bytes)
    requires |to| == |from| == 2 && |via| < 256 && |at| < 256 && apdu != []
    ensures DecodeNPDU([version, 0x28] + to + [|via|] + via + from + [|at|] + at + [hops] + apdu) == Ok(apdu)
  {
    hide DecodeNPDU;
    var r := Routing(0x0A, [], version, 0, Some((to, via, hops)), Some((from, at)));
    RoutedNPDUDecodes(r, apdu);
    var h: bytes := [version, 0x28];
    var g := h + to + [|via|] + via;
    assert h + AddressBytes(to, via) == g;
    assert g + AddressBytes(from, at) == g + from + [|at|] + at;
    hide AddressBytes;
    assert RoutedNPDU(r, apdu) == h + AddressBytes(to, via) + AddressBytes(from, at) + [hops] + apdu;
  }

  /** The routed NPDUs in octets: control bit 0x20 announces a destination, whose
      hop count comes last, and 0x08 a source. */
  lemma RoutedOctets(version: byte, to: bytes, via: bytes, from: bytes, at: bytes, hops: byte, apdu: bytes)
    requires |to| == |from| == 2 && |via| < 256 && |at| < 256 && apdu != []
    ensures DecodeNPDU([version, 0x08] + from + [|at|] + at + apdu) == Ok(apdu)
    ensures DecodeNPDU([version, 0x20] + to + [|via|] + via + [hops] + apdu) == Ok(apdu)
    ensures DecodeNPDU([version, 0x28] + to + [|via|] + via + from + [|at|] + at + [hops] + apdu) == Ok(apdu)
  {
    hide DecodeNPDU;
    SourceOctets(version, from, at, apdu);
    DestinationOctets(version, to, via, hops, apdu);
    BothOctets(version, to, via, from, at, hops, apdu);
  }

  /** Accepted packets are exactly the routed forms of accepted APDUs: there is
      no other way through BVLC and NPDU, and network-layer messages, whose
      control octet has its top bit set, have none. */
  lemma AcceptedIsRouted(pkt: bytes, a: APDU)
    ensures DecodeIncomingPacket(pkt) == Ok(a) <==>
      exists r: Routing, apdu: bytes ::
        r.Valid() && apdu != [] && pkt == RoutedPacket(r, apdu) && |pkt| <= 65535 && DecodeAPDU(apdu) == Ok(a)
  {
    hide DecodeAPDU, RoutedPacket;
    if DecodeIncomingPacket(pkt) == Ok(a) {
      var r, apdu := RoutingOf(pkt);
      assert r.Valid() && apdu != [] && pkt == RoutedPacket(r, apdu) && DecodeAPDU(apdu) == Ok(a);
    } else {
      forall r: Routing, apdu: bytes
        | r.Valid() && apdu != [] && pkt == RoutedPacket(r, apdu) && |pkt| <= 65535
        ensures DecodeAPDU(apdu) != Ok(a)
      {
        RoutingIsTransparent(r, apdu);
      }
    }
  }

  lemma FlagsOf(control: byte)
    requires control < 128
    ensures var d, s := control / 32 % 2 == 1, control / 8 % 2 == 1;
            var flags := control - (if d then 32 else 0) - (if s then 8 else 0);
            0 <= flags < 128 && flags / 32 % 2 == 0 && flags / 8 % 2 == 0
  {
    var c: int := control;
    var q := c / 8;
    assert c / 32 == q / 4 && c == q * 8 + c % 8;
  }

  /** The routing fields of an accepted packet, and its APDU. */
  lemma RoutingOf(pkt: bytes) returns (r: Routing, apdu: bytes)
    requires DecodeIncomingPacket(pkt).Ok?
    ensures r.Valid() && apdu != [] && pkt == RoutedPacket(r, apdu) && |pkt| <= 65535
    ensures DecodeIncomingPacket(pkt) == DecodeAPDU(apdu)
  {
    hide DecodeAPDU, DecodeNPDU, RoutedNPDU;
    var header := if pkt[1] == 0x04 then 10 else 4;
    var origin := pkt[4..header];
    var npdu := pkt[header..];
    r, apdu := NPDURoutingOf(pkt[1], origin, npdu);
    var n: int := pkt[2] as int * 256 + pkt[3] as int;
    assert n / 256 % 256 == pkt[2] && n % 256 == pkt[3];
    assert pkt == [0x81, pkt[1]] + Length(|pkt|) + origin + npdu;
  }

  lemma AddressAt(npdu: bytes, p: nat, q: nat)
    requires p + 3 <= q <= |npdu| && q - p == npdu[p + 2] as int + 3
    ensures npdu[p..q] == AddressBytes(npdu[p..p + 2], npdu[p + 3..q])
  {
  }

  lemma NPDUPieces(r: Routing, npdu: bytes, p: nat, q: nat, pos: nat)
    requires r.Valid() && 2 <= p <= q <= pos <= |npdu|
    requires npdu[0] == r.version && npdu[1] == r.Control()
    requires npdu[2..p] == DestinationBytes(r) && npdu[p..q] == SourceBytes(r) && npdu[q..pos] == HopBytes(r)
    ensures npdu == RoutedNPDU(r, npdu[pos..])
  {
    hide DestinationBytes, SourceBytes, HopBytes;
    assert npdu[..2] == [npdu[0], npdu[1]];
    assert npdu == npdu[..2] + npdu[2..p] + npdu[p..q] + npdu[q..pos] + npdu[pos..];
  }

  lemma NPDURoutingOf(function_: byte, origin: bytes, npdu: bytes) returns (r: Routing, apdu: bytes)
    requires function_ == 0x0A || function_ == 0x0B || function_ == 0x04
    requires |origin| == (if function_ == 0x04 then 6 else 0)
    requires DecodeNPDU(npdu).Ok?
    ensures r.Valid() && r.function_ == function_ && r.origin == origin
    ensures apdu != [] && npdu == RoutedNPDU(r, apdu) && DecodeNPDU(npdu) == Ok(apdu)
  {
    hide AddressBytes, RoutedNPDU;
    var control := npdu[1];
    FlagsOf(control);
    var d, s := control / 32 % 2 == 1, control / 8 % 2 == 1;
    var p := if d then SkipAddress(npdu, 2).value else 2;
    var q := if s then SkipAddress(npdu, p).value else p;
    var pos := if d then q + 1 else q;
    var flags := control - (if d then 32 else 0) - (if s then 8 else 0);
    apdu := npdu[pos..];
    assert 2 <= p <= q <= pos < |npdu|;
    if d {
      assert p == 5 + npdu[4] as int;
      AddressAt(npdu, 2, p);
    }
    if s {
      assert q == p + 3 + npdu[p + 2] as int;
      AddressAt(npdu, p, q);
    }
    var destination := if d then Some((npdu[2..4], npdu[5..p], npdu[q])) else None;
    var source := if s then Some((npdu[p..p + 2], npdu[p + 3..q])) else None;
    r := Routing(function_, origin, npdu[0], flags, destination, source);
    NPDUPieces(r, npdu, p, q, pos);
  }

  // ----- octets on the wire

  /** A confirmed request of one unicast packet, octet by octet: BVLC type and
      function, length, NPDU version, expecting a reply, then the request, which
      offers unsegmented replies of up to 1476 octets. */
  lemma RequestOctets(id: uint8, service: uint8, params: bytes)
    requires |params| + 10 <= 65535
    ensures EncodeUnicastPacket(EncodeConfirmedRequest(id, service, params))
         == [0x81, 0x0A, (|params| + 10) / 256, (|params| + 10) % 256, 0x01, 0x04, 0x00, 0x05, id, service] + params
  {
  }

  /** An unconfirmed request expects no reply. */
  lemma UnconfirmedOctets(service: uint8, params: bytes)
    requires |params| + 8 <= 65535
    ensures EncodeUnicastPacket(EncodeUnconfirmedRequest(service, params))
         == [0x81, 0x0A, (|params| + 8) / 256, (|params| + 8) % 256, 0x01, 0x00, 0x10, service] + params
  {
  }

  // ----- the whole stack

  /** A confirmed request with any parameters arrives as it was sent. */
  lemma RequestDelivered(id: uint8, service: uint8, params: bytes)
    requires |params| + 10 <= 65535
    ensures DecodeIncomingPacket(EncodeUnicastPacket(EncodeConfirmedRequest(id, service, params)))
         == Ok(APDU(CONFIRMED_REQUEST, id, service, 0, 0, params))
  {
    hide DecodeIncomingPacket, EncodeUnicastPacket;
    UnicastRoundTrip(EncodeConfirmedRequest(id, service, params));
    APDURoundTrip(id, service, params, 0, BACnetError(0, 0));
  }

  /** A ReadPropertyMultiple request survives service, APDU, NPDU and BVLC encoding. */
  lemma ReadMultipleRequestDelivered(id: uint8, specs: seq<ReadAccessSpec>)
    requires SpecsOk(specs) && |SpecsBytes(specs)| + 10 <= 65535
    ensures var r := DecodeIncomingPacket(EncodeUnicastPacket(
              EncodeConfirmedRequest(id, READ_PROPERTY_MULTIPLE, SpecsBytes(specs))));
            && r.Ok? && r.value.invokeID == id && r.value.serviceChoice == READ_PROPERTY_MULTIPLE
            && ReadSpecs(r.value.params) == Ok((specs, |r.value.params|))
  {
    hide DecodeIncomingPacket, EncodeUnicastPacket, ReadSpecs, SpecsBytes, SpecsOk;
    RequestDelivered(id, READ_PROPERTY_MULTIPLE, SpecsBytes(specs));
    RequestRoundTrip(specs);
  }

  lemma WritePropertyDelivered(id: uint8, w: WritePropertyRequest)
    requires Values.ObjectOk(w.target.obj) && w.value.Primitive() && Values.PrimitiveOk(w.value)
    requires |EncodeWritePropertyRequest(w)| + 10 <= 65535
    ensures var r := DecodeIncomingPacket(EncodeUnicastPacket(
              EncodeConfirmedRequest(id, WRITE_PROPERTY, EncodeWritePropertyRequest(w))));
            && r.Ok? && r.value.invokeID == id && r.value.serviceChoice == WRITE_PROPERTY
            && DecodeWritePropertyRequest(r.value.params) == Ok(w)
  {
    hide DecodeIncomingPacket, EncodeUnicastPacket, DecodeWritePropertyRequest, Nested.ValueBytes, TargetBytes;
    RequestDelivered(id, WRITE_PROPERTY, EncodeWritePropertyRequest(w));
    WritePropertyRoundTrip(w);
  }

  /** A ReadPropertyMultiple acknowledgement arrives as it was sent, through any
      routers and broadcast relays on the way. */
  lemma ReadMultipleAckDelivered(id: uint8, accesses: seq<ReadAccessResult>, route: Routing)
    requires AccessesOk(accesses) && route.Valid()
    requires |RoutedPacket(route, EncodeComplexACK(id, READ_PROPERTY_MULTIPLE, AccessesBytes(accesses)))| <= 65535
    ensures var r := DecodeIncomingPacket(RoutedPacket(route,
              EncodeComplexACK(id, READ_PROPERTY_MULTIPLE, AccessesBytes(accesses))));
            && r.Ok? && r.value.kind == COMPLEX_ACK && r.value.invokeID == id
            && r.value.serviceChoice == READ_PROPERTY_MULTIPLE
            && ReadAccesses(r.value.params) == Ok((accesses, |r.value.params|))
  {
    hide DecodeIncomingPacket, ReadAccesses, AccessesBytes, AccessesOk, DecodeAPDU, DestinationBytes, SourceBytes;
    var apdu := EncodeComplexACK(id, READ_PROPERTY_MULTIPLE, AccessesBytes(accesses));
    RoutingIsTransparent(route, apdu);
    APDURoundTrip(id, READ_PROPERTY_MULTIPLE, AccessesBytes(accesses), 0, BACnetError(0, 0));
    AckRoundTrip(accesses);
  }
}
