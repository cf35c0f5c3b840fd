/** Go strings hold UTF-8 octets. This module is the part of Go's unicode/utf8,
    unicode/utf16 and strings.ToValidUTF8 that CharacterString decoding uses,
    so that "decoded text is valid UTF-8" is a theorem and not an assumption. */
module Text {
  import opened Octets

  const REPLACEMENT: bytes := [0xEF, 0xBF, 0xBD]

  predicate Continuation(b: byte) { 0x80 <= b < 0xC0 }

  /** The range the second octet of a multi-octet sequence must lie in. */
  predicate SecondOk(first: byte, b: byte) {
    (if first == 0xE0 then 0xA0 else if first == 0xF0 then 0x90 else 0x80) <= b
    && b < (if first == 0xED then 0xA0 else if first == 0xF4 then 0x90 else 0xC0)
  }

  /** Octets of the well-formed sequence s starts with, or 0 if there is none. */
  function RuneLen(s: bytes): (n: nat)
    ensures n <= |s| && n <= 4
  {
    if s == [] then 0
    else if s[0] < 0x80 then 1
    else if |s| < 2 || !SecondOk(s[0], s[1]) then 0
    else if 0xC2 <= s[0] < 0xE0 then 2
    else if |s| < 3 || !Continuation(s[2]) then 0
    else if 0xE0 <= s[0] < 0xF0 then 3
    else if |s| < 4 || !Continuation(s[3]) then 0
    else if 0xF0 <= s[0] < 0xF5 then 4
    else 0
  }

  predicate ValidText(s: bytes) {
    s == [] || (RuneLen(s) > 0 && ValidText(s[RuneLen(s)..]))
  }

  /** strings.ToValidUTF8: each run of invalid octets becomes one replacement
      character. inBad says that the previous octet was part of such a run. */
  function ToValid(s: bytes, inBad: bool): bytes {
    if s == [] then []
    else if RuneLen(s) > 0 then s[..RuneLen(s)] + ToValid(s[RuneLen(s)..], false)
    else (if inBad then [] else REPLACEMENT) + ToValid(s[1..], true)
  }

  /** The UTF-8 encoding of a code point; surrogates and out-of-range numbers
      become the replacement character. */
  function EncodeRune(r: int): bytes {
    if 0 <= r < 0x80 then [r]
    else if 0x80 <= r < 0x800 then [0xC0 + r / 0x40, 0x80 + r % 0x40]
    else if 0x800 <= r < 0x1_0000 && !(0xD800 <= r < 0xE000) then
      [0xE0 + r / 0x1000, 0x80 + r / 0x40 % 0x40, 0x80 + r % 0x40]
    else if 0x1_0000 <= r < 0x11_0000 then
      [0xF0 + r / 0x4_0000, 0x80 + r / 0x1000 % 0x40, 0x80 + r / 0x40 % 0x40, 0x80 + r % 0x40]
    else REPLACEMENT
  }

  function EncodeRunes(rs: seq<int>): bytes {
    if rs == [] then [] else EncodeRune(rs[0]) + EncodeRunes(rs[1..])
  }

  /** utf16.Decode: surrogate pairs are combined, lone surrogates replaced. */
  function DecodeUTF16(u: seq<uint16>): (rs: seq<int>)
    ensures |rs| <= |u|
  {
    if u == [] then []
    else if u[0] < 0xD800 || 0xE000 <= u[0] then [u[0]] + DecodeUTF16(u[1..])
    else if u[0] < 0xDC00 && |u| > 1 && 0xDC00 <= u[1] < 0xE000 then
      [(u[0] - 0xD800) * 0x400 + (u[1] - 0xDC00) + 0x1_0000] + DecodeUTF16(u[2..])
    else [0xFFFD] + DecodeUTF16(u[1..])
  }

  lemma RuneLenPrefix(s: bytes, t: bytes)
    requires RuneLen(s) > 0
    ensures RuneLen(s[..RuneLen(s)] + t) == RuneLen(s)
  {
    var p := s[..RuneLen(s)];
    assert forall i :: 0 <= i < |p| ==> (p + t)[i] == s[i];
  }

  lemma ValidAfterRune(s: bytes, t: bytes)
    requires RuneLen(s) > 0 && ValidText(t)
    ensures ValidText(s[..RuneLen(s)] + t)
  {
    hide RuneLen;
    RuneLenPrefix(s, t);
    assert (s[..RuneLen(s)] + t)[RuneLen(s)..] == t;
  }

  /** Repaired text is valid, however broken the input was. */
  lemma {:induction false} ToValidIsValid(s: bytes, inBad: bool)
    ensures ValidText(ToValid(s, inBad))
    ensures |ToValid(s, inBad)| <= 3 * |s|
    decreases |s|
  {
    if s == [] {
    } else if RuneLen(s) > 0 {
      ToValidIsValid(s[RuneLen(s)..], false);
      ValidAfterRune(s, ToValid(s[RuneLen(s)..], false));
    } else {
      var t := ToValid(s[1..], true);
      ToValidIsValid(s[1..], true);
      assert RuneLen(REPLACEMENT) == 3 && REPLACEMENT[..3] == REPLACEMENT;
      ValidAfterRune(REPLACEMENT, t);
      assert [] + t == t;
    }
  }

  /** Repair changes nothing exactly when there is nothing to repair. */
  lemma {:induction false} ToValidIdentity(s: bytes)
    ensures ToValid(s, false) == s <==> ValidText(s)
    decreases |s|
  {
    ToValidIsValid(s, false);
    if ValidText(s) && s != [] {
      var n := RuneLen(s);
      ToValidIdentity(s[n..]);
      assert ToValid(s, false) == s[..n] + s[n..];
    }
  }

  lemma EncodeRuneIsRune(r: int)
    ensures 0 < RuneLen(EncodeRune(r)) == |EncodeRune(r)| <= 4
  {
  }

  lemma {:induction false} EncodeRunesIsValid(rs: seq<int>)
    ensures ValidText(EncodeRunes(rs))
    ensures |EncodeRunes(rs)| <= 4 * |rs|
  {
    hide EncodeRune, RuneLen;
    if rs != [] {
      EncodeRunesIsValid(rs[1..]);
      EncodeRuneIsRune(rs[0]);
      var e := EncodeRune(rs[0]);
      assert e[..|e|] == e;
      ValidAfterRune(e, EncodeRunes(rs[1..]));
    }
  }

  // ----- what the octets say

  /** The code points a text denotes: the first octet tells the length of a
      sequence, and each octet holds its payload above 0xC0, 0xE0, 0xF0 or 0x80. */
  function Runes(s: bytes): seq<int> {
    if s == [] then []
    else if s[0] < 0x80 then [s[0] as int] + Runes(s[1..])
    else if s[0] < 0xE0 && |s| >= 2 then [(s[0] - 0xC0) * 0x40 + (s[1] - 0x80)] + Runes(s[2..])
    else if s[0] < 0xF0 && |s| >= 3 then
      [(s[0] - 0xE0) * 0x1000 + (s[1] - 0x80) * 0x40 + (s[2] - 0x80)] + Runes(s[3..])
    else if |s| >= 4 then
      [(s[0] - 0xF0) * 0x4_0000 + (s[1] - 0x80) * 0x1000 + (s[2] - 0x80) * 0x40 + (s[3] - 0x80)] + Runes(s[4..])
    else []
  }

  /** A code point that UTF-8 can carry: neither a surrogate nor out of range. */
  predicate Scalar(r: int) { 0 <= r < 0xD800 || 0xE000 <= r <= 0x10_FFFF }

  /** What a Go string made of rs shows: U+FFFD in place of what it cannot carry. */
  function Shown(rs: seq<int>): (t: seq<int>)
    ensures |t| == |rs|
    ensures forall i :: 0 <= i < |rs| ==> t[i] == if Scalar(rs[i]) then rs[i] else 0xFFFD
  {
    if rs == [] then [] else [if Scalar(rs[0]) then rs[0] else 0xFFFD] + Shown(rs[1..])
  }

  lemma Sextets(r: int)
    requires 0 <= r
    ensures r == r / 0x40 * 0x40 + r % 0x40
    ensures r / 0x40 == r / 0x1000 * 0x40 + r / 0x40 % 0x40
    ensures r / 0x1000 == r / 0x4_0000 * 0x40 + r / 0x1000 % 0x40
  {
    var a := r / 0x40;
    var b := a / 0x40;
    assert r / 0x1000 == b;
    assert r / 0x4_0000 == b / 0x40;
  }

  lemma ReadsTwo(p: byte, q: byte, t: bytes)
    requires 0x80 <= p < 0xE0
    ensures Runes([p, q] + t) == [(p - 0xC0) * 0x40 + (q - 0x80)] + Runes(t)
  {
    assert ([p, q] + t)[2..] == t;
  }

  lemma ReadsThree(p: byte, q: byte, x: byte, t: bytes)
    requires 0xE0 <= p < 0xF0
    ensures Runes([p, q, x] + t) == [(p - 0xE0) * 0x1000 + (q - 0x80) * 0x40 + (x - 0x80)] + Runes(t)
  {
    assert ([p, q, x] + t)[3..] == t;
  }

  lemma ReadsFour(p: byte, q: byte, x: byte, y: byte, t: bytes)
    requires 0xF0 <= p
    ensures Runes([p, q, x, y] + t)
         == [(p - 0xF0) * 0x4_0000 + (q - 0x80) * 0x1000 + (x - 0x80) * 0x40 + (y - 0x80)] + Runes(t)
  {
    assert ([p, q, x, y] + t)[4..] == t;
  }

  lemma RuneIsRead(r: int, t: bytes)
    ensures Runes(EncodeRune(r) + t) == [if Scalar(r) then r else 0xFFFD] + Runes(t)
  {
    if 0 <= r < 0x80 {
      assert ([r] + t)[1..] == t;
    } else {
      hide Runes;
      if 0x80 <= r { Sextets(r); }
      var e := EncodeRune(r);
      if |e| == 2 {
        ReadsTwo(e[0], e[1], t);
      } else if |e| == 3 {
        ReadsThree(e[0], e[1], e[2], t);
      } else {
        ReadsFour(e[0], e[1], e[2], e[3], t);
      }
    }
  }

  /** A text made of code points reads as those code points. */
  lemma {:induction false} RunesOfEncoded(rs: seq<int>)
    ensures Runes(EncodeRunes(rs)) == Shown(rs)
  {
    if rs != [] {
      hide EncodeRune, Runes;
      RunesOfEncoded(rs[1..]);
      RuneIsRead(rs[0], EncodeRunes(rs[1..]));
    }
  }

  lemma WritesTwo(a: int, b: int)
    requires 0x02 <= a < 0x20 && 0 <= b < 0x40
    ensures EncodeRune(a * 0x40 + b) == [0xC0 + a, 0x80 + b] && Scalar(a * 0x40 + b)
  {
  }

  lemma WritesThree(a: int, b: int, c: int)
    requires 0 <= a < 0x10 && 0 <= b < 0x40 && 0 <= c < 0x40
    requires (a == 0 ==> b >= 0x20) && (a == 0x0D ==> b < 0x20)
    ensures EncodeRune(a * 0x1000 + b * 0x40 + c) == [0xE0 + a, 0x80 + b, 0x80 + c]
    ensures Scalar(a * 0x1000 + b * 0x40 + c)
  {
    var r := a * 0x1000 + b * 0x40 + c;
    assert r / 0x40 == a * 0x40 + b && r % 0x40 == c;
    assert r / 0x1000 == a;
  }

  lemma WritesFour(a: int, b: int, c: int, d: int)
    requires 0 <= a < 0x05 && 0 <= b < 0x40 && 0 <= c < 0x40 && 0 <= d < 0x40
    requires (a == 0 ==> b >= 0x10) && (a == 0x04 ==> b < 0x10)
    ensures EncodeRune(a * 0x4_0000 + b * 0x1000 + c * 0x40 + d) == [0xF0 + a, 0x80 + b, 0x80 + c, 0x80 + d]
    ensures Scalar(a * 0x4_0000 + b * 0x1000 + c * 0x40 + d)
  {
    var r := a * 0x4_0000 + b * 0x1000 + c * 0x40 + d;
    assert r / 0x40 == a * 0x1000 + b * 0x40 + c && r % 0x40 == d;
    assert r / 0x1000 == a * 0x40 + b;
    assert r / 0x4_0000 == a;
  }

  /** The first n octets of s are the code point s reads as first. */
  predicate StartsEncoded(s: bytes, n: nat)
    requires n <= |s|
  {
    && Runes(s) != [] && Scalar(Runes(s)[0])
    && EncodeRune(Runes(s)[0]) == s[..n] && Runes(s)[1..] == Runes(s[n..])
  }

  lemma OneIsEncoded(s: bytes)
    requires RuneLen(s) == 1
    ensures StartsEncoded(s, 1)
  {
    assert s[..1] == [s[0]];
  }

  lemma TwoIsEncoded(s: bytes)
    requires RuneLen(s) == 2
    ensures StartsEncoded(s, 2)
  {
    hide EncodeRune, Scalar;
    WritesTwo(s[0] - 0xC0, s[1] - 0x80);
    assert s[..2] == [s[0], s[1]];
  }

  lemma ThreeIsEncoded(s: bytes)
    requires RuneLen(s) == 3
    ensures StartsEncoded(s, 3)
  {
    hide EncodeRune, Scalar;
    WritesThree(s[0] - 0xE0, s[1] - 0x80, s[2] - 0x80);
    assert s[..3] == [s[0], s[1], s[2]];
  }

  lemma FourIsEncoded(s: bytes)
    requires RuneLen(s) == 4
    ensures StartsEncoded(s, 4)
  {
    hide EncodeRune, Scalar;
    WritesFour(s[0] - 0xF0, s[1] - 0x80, s[2] - 0x80, s[3] - 0x80);
    assert s[..4] == [s[0], s[1], s[2], s[3]];
  }

  /** What starts a well-formed sequence is the encoding of a code point. */
  lemma RuneIsEncoded(s: bytes)
    requires RuneLen(s) > 0
    ensures StartsEncoded(s, RuneLen(s))
  {
    hide StartsEncoded, RuneLen;
    var n := RuneLen(s);
    if n == 1 {
      OneIsEncoded(s);
    } else if n == 2 {
      TwoIsEncoded(s);
    } else if n == 3 {
      ThreeIsEncoded(s);
    } else {
      FourIsEncoded(s);
    }
  }

  /** Text is valid exactly when it is the encoding of code points: those it reads as. */
  lemma {:induction false} ValidIffEncoded(s: bytes)
    ensures ValidText(s) <==> (forall r :: r in Runes(s) ==> Scalar(r)) && EncodeRunes(Runes(s)) == s
    decreases |s|
  {
    EncodeRunesIsValid(Runes(s));
    if ValidText(s) && s != [] {
      hide EncodeRune, RuneLen, Scalar;
      var n, rs := RuneLen(s), Runes(s);
      RuneIsEncoded(s);
      ValidIffEncoded(s[n..]);
      assert rs == [rs[0]] + rs[1..];
      assert s == s[..n] + s[n..];
    }
  }

  // ----- repair

  lemma RuneLenAppend(s: bytes, t: bytes)
    requires RuneLen(s) > 0
    ensures RuneLen(s + t) == RuneLen(s)
  {
    assert forall i :: 0 <= i < |s| ==> (s + t)[i] == s[i];
  }

  /** Repair keeps valid text as it is and goes on after it. */
  lemma {:induction false} RepairKeepsValid(s: bytes, t: bytes)
    requires ValidText(s)
    ensures ToValid(s + t, false) == s + ToValid(t, false)
    decreases |s|
  {
    hide RuneLen;
    if s == [] {
      assert s + t == t && [] + ToValid(t, false) == ToValid(t, false);
    } else {
      var n := RuneLen(s);
      RuneLenAppend(s, t);
      RepairKeepsValid(s[n..], t);
      assert (s + t)[n..] == s[n..] + t && (s + t)[..n] == s[..n];
      assert s[..n] + (s[n..] + ToValid(t, false)) == s + ToValid(t, false);
    }
  }

  /** Within a run of octets that start no code point, nothing is written. */
  lemma {:induction false} RunIsSkipped(s: bytes, k: nat)
    requires k <= |s| && forall j :: 0 <= j < k ==> RuneLen(s[j..]) == 0
    ensures ToValid(s, true) == ToValid(s[k..], true)
    decreases k
  {
    hide RuneLen;
    if k > 0 {
      assert s[0..] == s;
      assert forall j :: 0 <= j < k - 1 ==> s[1..][j..] == s[j + 1..];
      RunIsSkipped(s[1..], k - 1);
      assert s[1..][k - 1..] == s[k..];
    } else {
      assert s[0..] == s;
    }
  }

  lemma RunBegins(s: bytes)
    requires s != [] && RuneLen(s) == 0
    ensures ToValid(s, false) == [0xEF, 0xBF, 0xBD] + ToValid(s[1..], true)
  {
  }

  lemma RunEnds(s: bytes)
    requires s == [] || RuneLen(s) > 0
    ensures ToValid(s, true) == ToValid(s, false)
  {
  }

  /** Repair writes one U+FFFD for the whole run of octets that start no code point. */
  lemma RepairReplacesRun(s: bytes, k: nat)
    requires 0 < k <= |s| && forall j :: 0 <= j < k ==> RuneLen(s[j..]) == 0
    requires k == |s| || RuneLen(s[k..]) > 0
    ensures ToValid(s, false) == [0xEF, 0xBF, 0xBD] + ToValid(s[k..], false)
  {
    hide RuneLen, ToValid;
    assert s[0..] == s;
    RunBegins(s);
    assert forall j :: 0 <= j < k - 1 ==> s[1..][j..] == s[j + 1..];
    RunIsSkipped(s[1..], k - 1);
    assert s[1..][k - 1..] == s[k..];
    RunEnds(s[k..]);
  }

  // ----- UTF-16

  /** No high surrogate stands directly before a low one: such a pair would be
      one code point above 0xFFFF. */
  predicate WellPaired(rs: seq<int>) {
    forall i :: 0 <= i < |rs| - 1 ==> !(0xD800 <= rs[i] < 0xDC00 && 0xDC00 <= rs[i + 1] < 0xE000)
  }

  predicate CodePoints(rs: seq<int>) { forall i :: 0 <= i < |rs| ==> 0 <= rs[i] <= 0x10_FFFF }

  /** The UTF-16 form: a code point above 0xFFFF takes a surrogate pair. */
  function Units(rs: seq<int>): (u: seq<uint16>)
    requires CodePoints(rs)
    ensures rs == [] <==> u == []
  {
    if rs == [] then []
    else if rs[0] < 0x1_0000 then [rs[0]] + Units(rs[1..])
    else [0xD800 + (rs[0] - 0x1_0000) / 0x400, 0xDC00 + (rs[0] - 0x1_0000) % 0x400] + Units(rs[1..])
  }

  lemma UnitDecodes(r: uint16, v: seq<uint16>)
    requires 0xD800 <= r < 0xDC00 && v != [] ==> !(0xDC00 <= v[0] < 0xE000)
    ensures DecodeUTF16([r] + v) == [if Scalar(r) then r else 0xFFFD] + DecodeUTF16(v)
  {
    assert ([r] + v)[1..] == v;
  }

  lemma PairDecodes(r: int, v: seq<uint16>)
    requires 0x1_0000 <= r <= 0x10_FFFF
    ensures var high, low := 0xD800 + (r - 0x1_0000) / 0x400, 0xDC00 + (r - 0x1_0000) % 0x400;
            DecodeUTF16([high, low] + v) == [r] + DecodeUTF16(v)
  {
    var w := r - 0x1_0000;
    var a, b := w / 0x400, w % 0x400;
    assert w == a * 0x400 + b && a < 0x400;
    assert ([0xD800 + a, 0xDC00 + b] + v)[2..] == v;
  }

  lemma TailIsPaired(rs: seq<int>)
    requires rs != [] && CodePoints(rs) && WellPaired(rs)
    ensures CodePoints(rs[1..]) && WellPaired(rs[1..])
  {
    var t := rs[1..];
    forall i | 0 <= i < |t| - 1
      ensures !(0xD800 <= t[i] < 0xDC00 && 0xDC00 <= t[i + 1] < 0xE000)
    {
      assert t[i] == rs[i + 1] && t[i + 1] == rs[i + 2];
    }
  }

  /** Decoding the UTF-16 form of any code points gives them back; a lone
      surrogate becomes U+FFFD. */
  lemma {:induction false} UnitsDecode(rs: seq<int>)
    requires CodePoints(rs) && WellPaired(rs)
    ensures Shown(DecodeUTF16(Units(rs))) == Shown(rs)
  {
    if rs != [] {
      hide DecodeUTF16;
      TailIsPaired(rs);
      var v := Units(rs[1..]);
      UnitsDecode(rs[1..]);
      if rs[0] < 0x1_0000 {
        if |rs| > 1 { assert v[0] == rs[1] || 0xD800 <= v[0] < 0xDC00; }
        UnitDecodes(rs[0], v);
      } else {
        PairDecodes(rs[0], v);
      }
    }
  }

  /** Every sequence of units is the UTF-16 form of such code points. */
  lemma {:induction false} UnitsAreAForm(u: seq<uint16>) returns (rs: seq<int>)
    ensures CodePoints(rs) && WellPaired(rs) && Units(rs) == u
  {
    if u == [] {
      rs := [];
    } else if |u| > 1 && 0xD800 <= u[0] < 0xDC00 && 0xDC00 <= u[1] < 0xE000 {
      var t := UnitsAreAForm(u[2..]);
      var high: int, low: int := u[0] - 0xD800, u[1] - 0xDC00;
      var r := 0x1_0000 + high * 0x400 + low;
      rs := [r] + t;
      assert rs[1..] == t && u == [u[0], u[1]] + u[2..];
      assert (r - 0x1_0000) / 0x400 == high && (r - 0x1_0000) % 0x400 == low;
    } else {
      var t := UnitsAreAForm(u[1..]);
      rs := [u[0] as int] + t;
      assert rs[1..] == t && u == [u[0]] + u[1..];
    }
  }
}
