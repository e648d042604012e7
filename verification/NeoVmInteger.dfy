/** The Neo VM integer codec of neo-data-tools.ts: signed little-endian two's
    complement of at most 32 bytes, with no bytes for zero. */
module NeoVmInteger {
  import opened JsText
  import opened Numerals

  datatype CodecError = RangeExceeded | TooManyBytes

  // ------------------------------------------------------------ unsigned part

  /** The number a little-endian byte string stands for. */
  function Unsigned(b: seq<Byte>): (n: nat) {
    if b == [] then 0 else b[0] + 256 * Unsigned(b[1..])
  }

  /** The low `width` bytes of a number. */
  function LowBytes(n: nat, width: nat): (b: seq<Byte>)
    ensures |b| == width
  {
    if width == 0 then [] else [n % 256] + LowBytes(n / 256, width - 1)
  }

  lemma Pow2Byte(width: nat)
    requires width > 0
    ensures Pow2(8 * width) == 256 * Pow2(8 * (width - 1))
  {
    Pow2Adds(8, 8 * (width - 1));
    assert Pow2(8) == 256 by {
      assert Pow2(4) == 16;
    }
  }

  lemma {:induction false} UnsignedBound(b: seq<Byte>)
    ensures Unsigned(b) < Pow2(8 * |b|)
  {
    if b != [] {
      UnsignedBound(b[1..]);
      Pow2Byte(|b|);
    }
  }

  lemma {:induction false} UnsignedOfLowBytes(n: nat, width: nat)
    requires n < Pow2(8 * width)
    ensures Unsigned(LowBytes(n, width)) == n
  {
    if width > 0 {
      Pow2Byte(width);
      UnsignedOfLowBytes(n / 256, width - 1);
      assert LowBytes(n, width)[1..] == LowBytes(n / 256, width - 1);
    }
  }

  lemma {:induction false} LowBytesOfUnsigned(b: seq<Byte>)
    ensures LowBytes(Unsigned(b), |b|) == b
  {
    if b != [] {
      LowBytesOfUnsigned(b[1..]);
      assert Unsigned(b) / 256 == Unsigned(b[1..]) && Unsigned(b) % 256 == b[0];
      assert b == [b[0]] + b[1..];
    }
  }

  lemma {:induction false} UnsignedSplit(b: seq<Byte>)
    requires b != []
    ensures Unsigned(b) == Unsigned(b[..|b| - 1]) + b[|b| - 1] * Pow2(8 * (|b| - 1))
  {
    if |b| == 1 {
      assert b[1..] == [] && b[..0] == [];
      assert Pow2(0) == 1;
    } else {
      var tail, last := b[1..], b[|b| - 1];
      UnsignedSplit(tail);
      assert b[..|b| - 1][1..] == tail[..|tail| - 1];
      Pow2Byte(|b| - 1);
      assert 256 * (last * Pow2(8 * (|b| - 2))) == last * (256 * Pow2(8 * (|b| - 2)));
    }
  }

  // --------------------------------------------------------------- the codec

  /** The value fits a width of bytes; no bytes hold only zero. */
  predicate FitsIn(v: int, width: nat) {
    if width == 0 then v == 0 else -Pow2(8 * width - 1) <= v <= Pow2(8 * width - 1) - 1
  }

  /** The range of a Neo VM integer. */
  predicate InRange(v: int) { -Pow2(255) <= v <= Pow2(255) - 1 }

  /** `signedLittleEndianToInteger` on any byte string. */
  function Decode(b: seq<Byte>): int {
    if b == [] then 0
    else Unsigned(b) - if b[|b| - 1] >= 128 then Pow2(8 * |b|) else 0
  }

  /** The first width from `width` on that the value fits; 33 stands for none. */
  function WidthFrom(v: int, width: nat): (w: nat)
    requires 1 <= width <= 33
    ensures width <= w <= 33
    decreases 33 - width
  {
    if width == 33 || FitsIn(v, width) then width else WidthFrom(v, width + 1)
  }

  /** The value as an unsigned number of the least width that holds it. */
  function Raw(v: int): (n: nat)
    requires InRange(v)
  {
    WidthReached(v, 32);
    PowHalf(WidthFrom(v, 1));
    if v < 0 then Pow2(8 * WidthFrom(v, 1)) + v else v
  }

  /** `integerToSignedLittleEndian` on a value in range. */
  function Encode(v: int): seq<Byte>
    requires InRange(v)
  {
    if v == 0 then [] else LowBytes(Raw(v), WidthFrom(v, 1))
  }

  lemma PowHalf(width: nat)
    requires width > 0
    ensures Pow2(8 * width) == 2 * Pow2(8 * width - 1)
  {
  }

  /** The loop that looks for the width. */
  method LeastWidth(value: int) returns (r: Result<nat, CodecError>)
    ensures r == if WidthFrom(value, 1) <= 32 then Ok(WidthFrom(value, 1)) else Err(RangeExceeded)
  {
    hide Pow2;
    var width := 1;
    while value < -Pow2(width * 8 - 1) || value > Pow2(width * 8 - 1) - 1
      invariant 1 <= width <= 32
      invariant WidthFrom(value, 1) == WidthFrom(value, width)
      decreases 32 - width
    {
      width := width + 1;
      if width > 32 { return Err(RangeExceeded); }
    }
    return Ok(width);
  }

  method IntegerToSignedLittleEndian(value: int) returns (r: Result<seq<Byte>, CodecError>)
    ensures r == if InRange(value) then Ok(Encode(value)) else Err(RangeExceeded)
  {
    hide Pow2;
    if value == 0 { return Ok([]); }
    var negative := value < 0;
    WidthReached(value, 32);
    var width := LeastWidth(value);
    if width.Err? { return Err(width.error); }
    PowHalf(width.value);
    var out := Bytes(if negative then Pow2(width.value * 8) + value else value, width.value);
    return Ok(out);
  }

  /** The loop that fills the buffer. */
  method Bytes(number: nat, width: nat) returns (r: seq<Byte>)
    ensures r == LowBytes(number, width)
  {
    var encoded := number;
    var out := new Byte[width];
    for i := 0 to width
      invariant encoded >= 0
      invariant out[..i] + LowBytes(encoded, width - i) == LowBytes(number, width)
    {
      ghost var before := out[..i];
      out[i] := encoded % 256;
      assert out[..i + 1] == before + [encoded % 256];
      encoded := encoded / 256;
    }
    assert out[..] == out[..width];
    r := out[..];
  }

  method SignedLittleEndianToInteger(bytes: seq<Byte>) returns (r: Result<int, CodecError>)
    ensures r == if |bytes| <= 32 then Ok(Decode(bytes)) else Err(TooManyBytes)
  {
    if |bytes| == 0 { return Ok(0); }
    if |bytes| > 32 { return Err(TooManyBytes); }
    var value := 0;
    var i := |bytes|;
    while i > 0
      invariant 0 <= i <= |bytes|
      invariant value == Unsigned(bytes[i..])
    {
      i := i - 1;
      assert bytes[i..] == [bytes[i]] + bytes[i + 1..];
      value := value * 256 + bytes[i];
    }
    assert bytes[0..] == bytes;
    if bytes[|bytes| - 1] >= 128 {
      value := value - Pow2(8 * |bytes|);
    }
    return Ok(value);
  }

  // ------------------------------------------------------------- properties

  lemma FitsMonotone(v: int, m: nat, n: nat)
    requires m <= n && FitsIn(v, m)
    ensures FitsIn(v, n)
  {
    if 0 < m {
      Pow2Grows(8 * m - 1, 8 * n - 1);
    }
  }

  lemma {:induction false} WidthReached(v: int, n: nat)
    requires 1 <= n <= 32
    ensures FitsIn(v, n) <==> WidthFrom(v, 1) <= n
    ensures WidthFrom(v, 1) <= 32 ==> FitsIn(v, WidthFrom(v, 1))
    ensures forall m :: 1 <= m < WidthFrom(v, 1) ==> !FitsIn(v, m)
  {
    WidthLeast(v, 1);
    if FitsIn(v, n) {
    } else if WidthFrom(v, 1) <= n {
      FitsMonotone(v, WidthFrom(v, 1), n);
    }
  }

  lemma {:induction false} WidthLeast(v: int, width: nat)
    requires 1 <= width <= 33
    ensures WidthFrom(v, width) <= 32 ==> FitsIn(v, WidthFrom(v, width))
    ensures forall m :: width <= m < WidthFrom(v, width) ==> !FitsIn(v, m)
    decreases 33 - width
  {
    if width < 33 && !FitsIn(v, width) {
      WidthLeast(v, width + 1);
    }
  }

  /** The top bit tells the upper half of the unsigned range. */
  lemma TopBit(b: seq<Byte>)
    requires b != []
    ensures b[|b| - 1] >= 128 <==> Unsigned(b) >= Pow2(8 * |b| - 1)
    ensures Pow2(8 * |b|) == 2 * Pow2(8 * |b| - 1)
  {
    var unit := Pow2(8 * (|b| - 1));
    UnsignedSplit(b);
    UnsignedBound(b[..|b| - 1]);
    Pow2Byte(|b|);
    PowHalf(|b|);
    TopDigit(Unsigned(b[..|b| - 1]), b[|b| - 1], unit);
  }

  lemma TopDigit(low: int, last: int, unit: int)
    requires 0 <= low < unit && 0 <= last < 256
    ensures last >= 128 <==> low + last * unit >= 128 * unit
  {
    if last >= 128 {
      assert last * unit >= 128 * unit;
    } else {
      assert last * unit <= 127 * unit;
    }
  }

  lemma DecodeFits(b: seq<Byte>)
    ensures FitsIn(Decode(b), |b|)
  {
    if b != [] {
      UnsignedBound(b);
      TopBit(b);
    }
  }

  /** Decoding what was encoded gives the value back, for the whole accepted range. */
  lemma DecodeEncode(v: int)
    requires InRange(v)
    ensures Decode(Encode(v)) == v && |Encode(v)| <= 32
  {
    if v != 0 {
      WidthReached(v, 32);
      var width := WidthFrom(v, 1);
      PowHalf(width);
      UnsignedOfLowBytes(Raw(v), width);
      TopBit(Encode(v));
    }
  }

  /** No shorter byte string decodes to the same value. */
  lemma EncodeShortest(b: seq<Byte>)
    requires InRange(Decode(b))
    ensures |Encode(Decode(b))| <= |b|
  {
    DecodeFits(b);
    var v := Decode(b);
    if v != 0 && |b| <= 32 {
      WidthReached(v, |b|);
    }
  }

  /** The last byte carries more than the sign of the byte before it. */
  predicate IsMinimal(b: seq<Byte>) {
    b == [] ||
    if |b| == 1 then b[0] != 0
    else !(b[|b| - 1] == 0 && b[|b| - 2] < 128) && !(b[|b| - 1] == 255 && b[|b| - 2] >= 128)
  }

  lemma Scaled(a: int, b: int, unit: int)
    requires a <= b && 0 <= unit
    ensures a * unit <= b * unit
  {
  }

  lemma SignExtension(low: int, last: int, unit: int, half: int)
    requires 0 <= low < unit && 0 <= last < 256 && unit == 2 * half
    ensures var v := low + last * unit - (if last >= 128 then 256 * unit else 0);
            (-half <= v <= half - 1) <==> (last == 0 && low < half) || (last == 255 && low >= half)
  {
    var high := last * unit;
    if last >= 128 {
      Scaled(last, if last == 255 then 255 else 254, unit);
      if last == 255 {
        Scaled(255, last, unit);
      }
    } else if last > 0 {
      Scaled(1, last, unit);
    }
    assert last == 0 ==> high == 0;
  }

  /** A byte string is minimal exactly when its value does not fit one byte less. */
  lemma MinimalMeans(b: seq<Byte>)
    requires b != []
    ensures IsMinimal(b) <==> !FitsIn(Decode(b), |b| - 1)
  {
    if |b| == 1 {
      assert Unsigned(b) == b[0] by {
        assert b[1..] == [];
      }
      assert Pow2(8) == 256 by {
        assert Pow2(4) == 16;
      }
    } else {
      var low := b[..|b| - 1];
      UnsignedSplit(b);
      UnsignedBound(low);
      TopBit(low);
      Pow2Byte(|b|);
      SignExtension(Unsigned(low), b[|b| - 1], Pow2(8 * (|b| - 1)), Pow2(8 * (|b| - 1) - 1));
    }
  }

  lemma UnsignedOfDecode(b: seq<Byte>)
    requires b != []
    ensures Unsigned(b) == if Decode(b) < 0 then Pow2(8 * |b|) + Decode(b) else Decode(b)
  {
    UnsignedBound(b);
    TopBit(b);
  }

  /** Encoding what was decoded gives the bytes back exactly when they are minimal. */
  lemma EncodeDecode(b: seq<Byte>)
    requires |b| <= 32
    ensures InRange(Decode(b))
    ensures Encode(Decode(b)) == b <==> IsMinimal(b)
  {
    var v := Decode(b);
    ShortInRange(b);
    if b != [] {
      DecodeFits(b);
      MinimalMeans(b);
      WidthReached(v, |b|);
      if IsMinimal(b) {
        NonZero(b);
        WidthIs(v, |b|);
        UnsignedOfDecode(b);
        LowBytesOfUnsigned(b);
      } else {
        ShorterEncoding(v, |b|);
      }
    }
  }

  lemma ShortInRange(b: seq<Byte>)
    requires |b| <= 32
    ensures InRange(Decode(b))
  {
    DecodeFits(b);
    FitsMonotone(Decode(b), |b|, 32);
  }

  lemma NonZero(b: seq<Byte>)
    requires b != [] && !FitsIn(Decode(b), |b| - 1)
    ensures Decode(b) != 0
  {
    FitsMonotone(0, 0, |b| - 1);
  }

  lemma WidthIs(v: int, width: nat)
    requires 1 <= width <= 32 && FitsIn(v, width) && !FitsIn(v, width - 1)
    ensures WidthFrom(v, 1) == width
  {
    WidthReached(v, width);
    if width > 1 {
      WidthReached(v, width - 1);
    }
  }

  lemma ShorterEncoding(v: int, width: nat)
    requires 1 <= width <= 32 && FitsIn(v, width - 1) && InRange(v)
    ensures |Encode(v)| < width
  {
    if v != 0 {
      WidthReached(v, width - 1);
    }
  }
}
