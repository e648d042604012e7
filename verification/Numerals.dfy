/** Digits and numerals: what `toString(10)`, `toString(16)`, `BigInt(text)`,
    `padStart` and `padEnd` do, and powers of two. */
module Numerals {
  import opened JsText

  function Pow2(n: nat): (p: int)
    ensures p > 0
  {
    if n == 0 then 1 else 2 * Pow2(n - 1)
  }

  lemma {:induction false} Pow2Adds(m: nat, n: nat)
    ensures Pow2(m + n) == Pow2(m) * Pow2(n)
  {
    if m > 0 {
      Pow2Adds(m - 1, n);
      assert Pow2(m + n) == 2 * Pow2(m - 1 + n);
      assert 2 * (Pow2(m - 1) * Pow2(n)) == (2 * Pow2(m - 1)) * Pow2(n);
    }
  }

  lemma Pow2Next(n: nat)
    ensures Pow2(n + 1) == 2 * Pow2(n)
  {
  }

  lemma {:induction false} Pow2Grows(m: nat, n: nat)
    requires m <= n
    ensures Pow2(m) <= Pow2(n)
  {
    if m < n {
      Pow2Grows(m, n - 1);
    }
  }

  /** `'0'.repeat(n)`. */
  function Zeros(n: nat): (t: Text)
    ensures |t| == n && forall i :: 0 <= i < n ==> t[i] == 48
  {
    seq(n, _ => 48)
  }

  /** `padStart(n, '0')` and `padEnd(n, '0')`. */
  function PadStart(t: Text, n: nat): (r: Text)
    ensures |r| == if |t| < n then n else |t|
  {
    if |t| < n then Zeros(n - |t|) + t else t
  }

  function PadEnd(t: Text, n: nat): (r: Text)
    ensures |r| == if |t| < n then n else |t|
  {
    if |t| < n then t + Zeros(n - |t|) else t
  }

  // ------------------------------------------------------------------ hex

  function HexDigit(n: int): (u: CodeUnit)
    requires 0 <= n < 16
    ensures IsLowerHexDigit(u)
  {
    if n < 10 then 48 + n else 87 + n
  }

  function HexValue(u: CodeUnit): (n: int)
    requires IsHexDigit(u)
    ensures 0 <= n < 16
    ensures forall k :: 0 <= k < 16 && u == HexDigit(k) ==> n == k
  {
    if u <= 57 then u - 48 else if u >= 97 then u - 87 else u - 55
  }

  /** `toString(16)` of a non-negative integer. */
  function ToHex(n: nat): (t: Text)
    ensures t != [] && AllHex(t)
  {
    if n < 16 then [HexDigit(n)] else ToHex(n / 16) + [HexDigit(n % 16)]
  }

  function FromHex(t: Text): (n: nat)
    requires AllHex(t)
  {
    if t == [] then 0 else FromHex(t[..|t| - 1]) * 16 + HexValue(t[|t| - 1])
  }

  lemma {:induction false} HexRoundTrip(n: nat)
    ensures FromHex(ToHex(n)) == n
  {
    if n >= 16 {
      HexRoundTrip(n / 16);
      assert ToHex(n)[..|ToHex(n)| - 1] == ToHex(n / 16);
    }
  }

  lemma {:induction false} HexLength(n: nat, k: nat)
    requires k > 0 && n < Pow2(4 * k)
    ensures |ToHex(n)| <= k
  {
    if n >= 16 {
      assert Pow2(4 * k) == 16 * Pow2(4 * k - 4) by {
        assert Pow2(4 * k) == 2 * Pow2(4 * k - 1) == 4 * Pow2(4 * k - 2) == 8 * Pow2(4 * k - 3);
      }
      assert Pow2(0) == 1;
      assert k > 1;
      HexLength(n / 16, k - 1);
    }
  }

  lemma {:induction false} LeadingZeros(k: nat, t: Text)
    requires AllHex(t)
    ensures AllHex(Zeros(k) + t) && FromHex(Zeros(k) + t) == FromHex(t)
  {
    if t != [] {
      LeadingZeros(k, t[..|t| - 1]);
      assert (Zeros(k) + t)[..k + |t| - 1] == Zeros(k) + t[..|t| - 1];
    } else {
      assert Zeros(k) + t == Zeros(k);
      ZerosAreZero(k);
    }
  }

  lemma {:induction false} ZerosAreZero(k: nat)
    ensures AllHex(Zeros(k)) && FromHex(Zeros(k)) == 0
  {
    if k > 0 {
      ZerosAreZero(k - 1);
      assert Zeros(k)[..k - 1] == Zeros(k - 1);
    }
  }

  lemma PaddedHex(t: Text, n: nat)
    requires AllHex(t)
    ensures AllHex(PadStart(t, n)) && FromHex(PadStart(t, n)) == FromHex(t)
  {
    if |t| < n {
      LeadingZeros(n - |t|, t);
    }
  }

  // ----------------------------------------------------------- bytes as hex

  /** Two lower-case digits for each byte. */
  function HexBytes(bs: seq<Byte>): (t: Text)
    ensures |t| == 2 * |bs| && AllHex(t)
  {
    if bs == [] then [] else [HexDigit(bs[0] / 16), HexDigit(bs[0] % 16)] + HexBytes(bs[1..])
  }

  function UnhexBytes(t: Text): (bs: seq<Byte>)
    requires |t| % 2 == 0 && AllHex(t)
    ensures 2 * |bs| == |t|
  {
    if t == [] then [] else [HexValue(t[0]) * 16 + HexValue(t[1])] + UnhexBytes(t[2..])
  }

  lemma {:induction false} BytesRoundTrip(bs: seq<Byte>)
    ensures UnhexBytes(HexBytes(bs)) == bs
  {
    if bs != [] {
      BytesRoundTrip(bs[1..]);
      assert HexBytes(bs)[2..] == HexBytes(bs[1..]);
      assert bs == [bs[0]] + bs[1..];
    }
  }

  /** The same hexadecimal digits in lower case. */
  predicate IsLowerOf(h: Text, d: Text) {
    && AllHex(h) && |d| == |h|
    && forall k :: 0 <= k < |d| ==> IsLowerHexDigit(d[k]) && HexValue(d[k]) == HexValue(h[k])
  }

  lemma LowerIs(h: Text, d: Text)
    requires AllHex(h)
    ensures IsLowerOf(h, d) <==> d == Lower(h)
  {
    if IsLowerOf(h, d) {
      forall k | 0 <= k < |h| ensures d[k] == Lower(h)[k] {
        assert IsHexDigit(h[k]);
      }
    }
  }

  // -------------------------------------------------------------- decimal

  predicate AllDigits(t: Text) { forall i :: 0 <= i < |t| ==> IsDigit(t[i]) }

  /** `toString()` of a non-negative integer. */
  function ToDecimal(n: nat): (t: Text)
    ensures t != [] && AllDigits(t)
  {
    if n < 10 then [48 + n] else ToDecimal(n / 10) + [48 + n % 10]
  }

  /** `toString()` of an integer. */
  function SignedDecimal(n: int): Text { if n < 0 then [45] + ToDecimal(-n) else ToDecimal(n) }

  /** `BigInt` of a string of decimal digits; the empty string is 0. */
  function FromDecimal(t: Text): (n: nat)
    requires AllDigits(t)
  {
    if t == [] then 0 else FromDecimal(t[..|t| - 1]) * 10 + (t[|t| - 1] - 48)
  }

  lemma {:induction false} DecimalRoundTrip(n: nat)
    ensures FromDecimal(ToDecimal(n)) == n
  {
    if n >= 10 {
      DecimalRoundTrip(n / 10);
      assert ToDecimal(n)[..|ToDecimal(n)| - 1] == ToDecimal(n / 10);
    }
  }

  lemma {:induction false} NoLeadingZero(n: nat)
    ensures ToDecimal(n)[0] == 48 <==> n == 0
    ensures |ToDecimal(0)| == 1
  {
    if n >= 10 {
      NoLeadingZero(n / 10);
    }
  }

  // --------------------------------------------------------------- slices

  lemma SliceOfSlice<T>(s: seq<T>, a: nat, b: nat, x: nat, y: nat)
    requires a <= b <= |s| && x <= y <= b - a
    ensures s[a..b][x..y] == s[a + x..a + y]
  {
    forall k | 0 <= k < y - x ensures s[a..b][x..y][k] == s[a + x..a + y][k] {
    }
  }
}
