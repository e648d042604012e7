/** The UTF-8 bytes of a JavaScript string, against a decoder written from the syntax in
    section 4 of RFC 3629. */
module Utf8Text {
  import opened JsText

  predicate IsTail(b: Byte) { 0x80 <= b <= 0xBF }

  /** The code point at the front and the number of its bytes. */
  function FirstPoint(b: seq<Byte>): (r: Option<(int, nat)>)
    ensures r.Some? ==> 1 <= r.value.1 <= |b|
  {
    if b == [] then None
    else if b[0] <= 0x7F then Some((b[0], 1))
    else if 0xC2 <= b[0] <= 0xDF then
      if |b| >= 2 && IsTail(b[1]) then Some((Bits(b[0], 0xC0) * 64 + Bits(b[1], 0x80), 2)) else None
    else if 0xE0 <= b[0] <= 0xEF then
      if && |b| >= 3 && IsTail(b[1]) && IsTail(b[2])
         && (b[0] == 0xE0 ==> b[1] >= 0xA0) && (b[0] == 0xED ==> b[1] <= 0x9F) then
        Some((Bits(b[0], 0xE0) * 4096 + Bits(b[1], 0x80) * 64 + Bits(b[2], 0x80), 3))
      else None
    else if 0xF0 <= b[0] <= 0xF4 then
      if && |b| >= 4 && IsTail(b[1]) && IsTail(b[2]) && IsTail(b[3])
         && (b[0] == 0xF0 ==> b[1] >= 0x90) && (b[0] == 0xF4 ==> b[1] <= 0x8F) then
        Some((Bits(b[0], 0xF0) * 262144 + Bits(b[1], 0x80) * 4096 + Bits(b[2], 0x80) * 64 + Bits(b[3], 0x80), 4))
      else None
    else None
  }

  /** What a byte holds besides its marking bits. */
  function Bits(b: int, mark: int): int { b - mark }

  function Decode(b: seq<Byte>): Option<seq<int>>
    decreases |b|
  {
    if b == [] then Some([])
    else
      match FirstPoint(b)
      case None => None
      case Some((p, n)) =>
        match Decode(b[n..])
        case None => None
        case Some(ps) => Some([p] + ps)
  }

  /** The code points of a string: a surrogate pair is one, and a lone surrogate counts
      as the replacement character. */
  function Points(t: Text): seq<int>
    decreases |t|
  {
    if t == [] then []
    else if |t| > 1 && IsHighSurrogate(t[0]) && IsLowSurrogate(t[1]) then
      [Bits(t[0], 0xD800) * 0x400 + Bits(t[1], 0xDC00) + 0x10000] + Points(t[2..])
    else [if 0xD800 <= t[0] < 0xE000 then 0xFFFD else t[0]] + Points(t[1..])
  }

  lemma TwoBytes(p: int)
    requires 0x80 <= p < 0x800
    ensures 0xC2 <= 0xC0 + p / 64 <= 0xDF && IsTail(0x80 + p % 64)
    ensures p == p / 64 * 64 + p % 64
  {
  }

  lemma ThreeBytes(p: int)
    requires 0x800 <= p < 0x10000
    ensures p == p / 4096 * 4096 + p / 64 % 64 * 64 + p % 64
    ensures 0 <= p / 4096 < 16 && 0 <= p / 64 % 64 < 64 && 0 <= p % 64 < 64
    ensures p / 4096 == 0 ==> p / 64 % 64 >= 0x20
    ensures p / 4096 == 13 && !(0xD800 <= p < 0xE000) ==> p / 64 % 64 <= 0x1F
  {
    var a, b, c := p / 4096, p / 64 % 64, p % 64;
    var q := p / 64;
    assert p == 64 * q + c;
    assert q / 64 == a by { Nested(p); }
    assert q == 64 * a + b;
  }

  lemma Nested(p: nat)
    ensures p / 64 / 64 == p / 4096
    ensures p / 4096 / 64 == p / 262144
  {
    var q, r := p / 4096, p % 4096;
    assert p == 4096 * q + r;
    assert p / 64 == 64 * q + r / 64;
    var s, u := p / 262144, p % 262144;
    assert p == 262144 * s + u;
    assert p / 4096 == 64 * s + u / 4096;
  }

  lemma FourBytes(p: int)
    requires 0x10000 <= p < 0x110000
    ensures p == p / 262144 * 262144 + p / 4096 % 64 * 4096 + p / 64 % 64 * 64 + p % 64
    ensures 0 <= p / 262144 <= 4 && 0 <= p / 4096 % 64 < 64 && 0 <= p / 64 % 64 < 64 && 0 <= p % 64 < 64
    ensures p / 262144 == 0 ==> p / 4096 % 64 >= 0x10
    ensures p / 262144 == 4 ==> p / 4096 % 64 <= 0x0F
  {
    Nested(p);
    var q, r := p / 64, p / 4096;
    assert p == 64 * q + p % 64;
    assert q == 64 * r + q % 64;
    assert r == 64 * (p / 262144) + r % 64;
  }

  lemma PointDecodes(p: int, rest: seq<Byte>)
    requires 0 <= p < 0x110000 && !(0xD800 <= p < 0xE000)
    ensures FirstPoint(Utf8Point(p) + rest) == Some((p, |Utf8Point(p)|))
    ensures (Utf8Point(p) + rest)[|Utf8Point(p)|..] == rest
  {
    if 0x80 <= p < 0x800 {
      TwoBytes(p);
    } else if 0x800 <= p < 0x10000 {
      ThreeBytes(p);
    } else if 0x10000 <= p {
      FourBytes(p);
    }
  }

  /** The UTF-8 bytes of a string are read back as its code points. */
  lemma {:induction false} Utf8Decodes(t: Text)
    ensures Decode(Utf8(t)) == Some(Points(t))
    decreases |t|
  {
    hide Utf8, Points, Decode;
    if t == [] {
      Nothing();
    } else {
      var p, k := FrontPoint(t);
      Utf8Decodes(t[k..]);
      DecodesOn(p, Utf8(t[k..]));
    }
  }

  lemma Nothing()
    ensures Utf8([]) == [] && Points([]) == [] && Decode([]) == Some([])
  {
  }

  /** The code point at the front of a string, and what is left. */
  lemma FrontPoint(t: Text) returns (p: int, k: nat)
    requires t != []
    ensures 0 <= p < 0x110000 && !(0xD800 <= p < 0xE000) && 0 < k <= |t|
    ensures Utf8(t) == Utf8Point(p) + Utf8(t[k..]) && Points(t) == [p] + Points(t[k..])
  {
    hide Utf8Point;
    if |t| > 1 && IsHighSurrogate(t[0]) && IsLowSurrogate(t[1]) {
      p, k := Bits(t[0], 0xD800) * 0x400 + Bits(t[1], 0xDC00) + 0x10000, 2;
    } else {
      p, k := if IsSurrogate(t[0]) then 0xFFFD else t[0], 1;
    }
  }

  lemma DecodesOn(p: int, rest: seq<Byte>)
    requires 0 <= p < 0x110000 && !(0xD800 <= p < 0xE000) && Decode(rest).Some?
    ensures Decode(Utf8Point(p) + rest) == Some([p] + Decode(rest).value)
  {
    hide FirstPoint, Utf8Point;
    PointDecodes(p, rest);
  }
}
