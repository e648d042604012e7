/** Base64 as `Buffer` writes and reads it (section 4 of RFC 4648). */
module Base64 {
  import opened JsText

  const PAD: CodeUnit := 61

  function Digit(n: int): (u: CodeUnit)
    requires 0 <= n < 64
    ensures IsDigit64(u)
  {
    if n < 26 then 65 + n else if n < 52 then 71 + n else if n < 62 then n - 4 else if n == 62 then 43 else 47
  }

  predicate IsDigit64(u: CodeUnit) { 65 <= u <= 90 || 97 <= u <= 122 || IsDigit(u) || u == 43 || u == 47 }

  function DigitValue(u: CodeUnit): (n: int)
    requires IsDigit64(u)
    ensures 0 <= n < 64
    ensures forall k :: 0 <= k < 64 && u == Digit(k) ==> n == k
  {
    if 65 <= u <= 90 then u - 65
    else if 97 <= u <= 122 then u - 71
    else if u >= 48 then u + 4
    else if u == 43 then 62
    else 63
  }

  function Encode(b: seq<Byte>): (t: Text) {
    if b == [] then []
    else if |b| == 1 then [Digit(b[0] / 4), Digit(b[0] % 4 * 16), PAD, PAD]
    else if |b| == 2 then [Digit(b[0] / 4), Digit(b[0] % 4 * 16 + b[1] / 16), Digit(b[1] % 16 * 4), PAD]
    else EncodeGroup(b[0], b[1], b[2]) + Encode(b[3..])
  }

  function EncodeGroup(x: Byte, y: Byte, z: Byte): (t: Text)
    ensures |t| == 4
  {
    [Digit(x / 4), Digit(x % 4 * 16 + y / 16), Digit(y % 16 * 4 + z / 64), Digit(z % 64)]
  }

  /** `/^(?:[A-Za-z0-9+/]{4})*(?:[A-Za-z0-9+/]{2}==|[A-Za-z0-9+/]{3}=)?$/` */
  predicate IsBase64Text(t: Text) {
    t == [] ||
    (|t| >= 4 && IsDigit64(t[0]) && IsDigit64(t[1]) &&
     if |t| == 4 && t[3] == PAD then t[2] == PAD || IsDigit64(t[2])
     else IsDigit64(t[2]) && IsDigit64(t[3]) && IsBase64Text(t[4..]))
  }

  /** The bytes that the six bits of neighbouring digits make. */
  function First(p: int, q: int): Byte
    requires 0 <= p < 64 && 0 <= q < 64
  {
    p * 4 + q / 16
  }

  function Second(q: int, r: int): Byte
    requires 0 <= q < 64 && 0 <= r < 64
  {
    q % 16 * 16 + r / 4
  }

  function Third(r: int, s: int): Byte
    requires 0 <= r < 64 && 0 <= s < 64
  {
    r % 4 * 64 + s
  }

  function Decode(t: Text): (b: seq<Byte>)
    requires IsBase64Text(t)
  {
    if t == [] then []
    else
      var p, q := DigitValue(t[0]), DigitValue(t[1]);
      if t[3] == PAD && t[2] == PAD then [First(p, q)]
      else
        var r := DigitValue(t[2]);
        if t[3] == PAD then [First(p, q), Second(q, r)]
        else DecodeGroup(p, q, r, DigitValue(t[3])) + Decode(t[4..])
  }

  function DecodeGroup(p: int, q: int, r: int, s: int): (b: seq<Byte>)
    requires 0 <= p < 64 && 0 <= q < 64 && 0 <= r < 64 && 0 <= s < 64
    ensures |b| == 3
  {
    [First(p, q), Second(q, r), Third(r, s)]
  }

  /** The texts that are what their own bytes are written as. */
  predicate IsCanonical(t: Text) { IsBase64Text(t) && Encode(Decode(t)) == t }

  lemma NotPad(u: CodeUnit)
    requires IsDigit64(u)
    ensures u != PAD
  {
  }

  lemma FirstBack(x: Byte, y: Byte)
    ensures First(x / 4, x % 4 * 16 + y / 16) == x
  {
  }

  lemma SecondBack(x: Byte, y: Byte, z: Byte)
    ensures Second(x % 4 * 16 + y / 16, y % 16 * 4 + z / 64) == y
  {
    var q, r: int := x % 4 * 16 + y / 16, y % 16 * 4 + z / 64;
    assert q % 16 == y / 16;
    assert r / 4 == y % 16;
  }

  lemma ThirdBack(y: Byte, z: Byte)
    ensures Third(y % 16 * 4 + z / 64, z % 64) == z
  {
  }

  lemma GroupRoundTrip(x: Byte, y: Byte, z: Byte)
    ensures DecodeGroup(x / 4, x % 4 * 16 + y / 16, y % 16 * 4 + z / 64, z % 64) == [x, y, z]
  {
    hide First, Second, Third;
    FirstBack(x, y);
    SecondBack(x, y, z);
    ThirdBack(y, z);
  }

  lemma OnePadded(t: Text, p: int, q: int)
    requires 0 <= p < 64 && 0 <= q < 64 && t == [Digit(p), Digit(q), PAD, PAD]
    ensures IsBase64Text(t) && Decode(t) == [First(p, q)]
  {
    hide Digit, DigitValue, First, Second;
  }

  lemma TwoPadded(t: Text, p: int, q: int, r: int)
    requires 0 <= p < 64 && 0 <= q < 64 && 0 <= r < 64 && t == [Digit(p), Digit(q), Digit(r), PAD]
    ensures IsBase64Text(t) && Decode(t) == [First(p, q), Second(q, r)]
  {
    hide Digit, DigitValue, First, Second;
    NotPad(t[2]);
  }

  /** A text that begins with a whole group. */
  lemma WholeGroup(t: Text, rest: Text, p: int, q: int, r: int, s: int)
    requires 0 <= p < 64 && 0 <= q < 64 && 0 <= r < 64 && 0 <= s < 64
    requires t == [Digit(p), Digit(q), Digit(r), Digit(s)] + rest && IsBase64Text(rest)
    ensures IsBase64Text(t) && Decode(t) == DecodeGroup(p, q, r, s) + Decode(rest)
  {
    hide Digit, DigitValue, DecodeGroup;
    NotPad(t[2]);
    NotPad(t[3]);
    assert t[4..] == rest;
  }

  lemma OneByte(x: Byte)
    ensures IsBase64Text(Encode([x])) && Decode(Encode([x])) == [x]
  {
    hide Digit, IsBase64Text, Decode, First;
    FirstBack(x, 0);
    OnePadded(Encode([x]), x / 4, x % 4 * 16);
  }

  lemma TwoBytes(x: Byte, y: Byte)
    ensures IsBase64Text(Encode([x, y])) && Decode(Encode([x, y])) == [x, y]
  {
    hide Digit, IsBase64Text, Decode, First, Second;
    FirstBack(x, y);
    SecondBack(x, y, 0);
    TwoPadded(Encode([x, y]), x / 4, x % 4 * 16 + y / 16, y % 16 * 4);
  }

  /** The values of the digits of a whole group. */
  predicate Digits(x: Byte, y: Byte, z: Byte, p: int, q: int, r: int, s: int) {
    && p == x / 4 && q == x % 4 * 16 + y / 16 && r == y % 16 * 4 + z / 64 && s == z % 64
    && 0 <= p < 64 && 0 <= q < 64 && 0 <= r < 64 && 0 <= s < 64
  }

  lemma GroupText(b: seq<Byte>) returns (p: int, q: int, r: int, s: int)
    requires |b| >= 3
    ensures Digits(b[0], b[1], b[2], p, q, r, s) && 0 <= p < 64 && 0 <= q < 64 && 0 <= r < 64 && 0 <= s < 64
    ensures Encode(b) == [Digit(p), Digit(q), Digit(r), Digit(s)] + Encode(b[3..])
  {
    hide Digit;
    p, q, r, s := b[0] / 4, b[0] % 4 * 16 + b[1] / 16, b[1] % 16 * 4 + b[2] / 64, b[2] % 64;
  }

  lemma GroupBytes(x: Byte, y: Byte, z: Byte, p: int, q: int, r: int, s: int)
    requires Digits(x, y, z, p, q, r, s)
    ensures DecodeGroup(p, q, r, s) == [x, y, z]
  {
    hide DecodeGroup;
    GroupRoundTrip(x, y, z);
  }

  lemma MoreBytes(b: seq<Byte>)
    requires |b| >= 3 && IsBase64Text(Encode(b[3..])) && Decode(Encode(b[3..])) == b[3..]
    ensures IsBase64Text(Encode(b)) && Decode(Encode(b)) == b
  {
    hide Digit, Digits, DecodeGroup, IsBase64Text, Decode, Encode;
    var p, q, r, s := GroupText(b);
    GroupBytes(b[0], b[1], b[2], p, q, r, s);
    WholeGroup(Encode(b), Encode(b[3..]), p, q, r, s);
    assert b == [b[0], b[1], b[2]] + b[3..];
  }

  /** Every byte string is read back from what is written for it. */
  lemma {:induction false} RoundTrip(b: seq<Byte>)
    ensures IsBase64Text(Encode(b)) && Decode(Encode(b)) == b
  {
    hide Encode, Decode, IsBase64Text;
    if |b| >= 3 {
      RoundTrip(b[3..]);
      MoreBytes(b);
    } else if |b| == 2 {
      TwoBytes(b[0], b[1]);
      assert b == [b[0], b[1]];
    } else if |b| == 1 {
      OneByte(b[0]);
      assert b == [b[0]];
    } else {
      NoBytes(b);
    }
  }

  lemma NoBytes(b: seq<Byte>)
    requires b == []
    ensures IsBase64Text(Encode(b)) && Decode(Encode(b)) == b
  {
  }

  lemma EncodingIsCanonical(b: seq<Byte>)
    ensures IsCanonical(Encode(b))
  {
    RoundTrip(b);
  }
}
