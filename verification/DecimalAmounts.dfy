/** Exact decimal amounts: `formatUnits`, the two functions named
    `scaleTokenAmount`, and the GAS texts of transaction-preparation.ts. */
module DecimalAmounts {
  import opened JsText
  import opened Numerals

  function Pow10(n: nat): (p: int)
    ensures p > 0
  {
    if n == 0 then 1 else 10 * Pow10(n - 1)
  }

  /** 2^255 - 1 */
  const MAX_VM_INTEGER: int := 0x7FFF_FFFF_FFFF_FFFF_FFFF_FFFF_FFFF_FFFF_FFFF_FFFF_FFFF_FFFF_FFFF_FFFF_FFFF_FFFF

  /** `replace(/0+$/, '')` */
  function TrimZeros(t: Text): (r: Text)
    ensures |r| <= |t| && r == t[..|r|]
    ensures r != [] ==> r[|r| - 1] != 48
  {
    if t != [] && t[|t| - 1] == 48 then TrimZeros(t[..|t| - 1]) else t
  }

  /** Division of magnitudes, as `bigint` does it. */
  function Quotient(n: nat, d: int): (q: nat)
    requires d > 0
  {
    n / d
  }

  function Remainder(n: nat, d: int): (r: nat)
    requires d > 0
    ensures r < d
  {
    n % d
  }

  lemma Divided(n: nat, d: int)
    requires d > 0
    ensures n == Quotient(n, d) * d + Remainder(n, d)
  {
  }

  lemma DivUnique(n: nat, d: int, q: nat, r: nat)
    requires d > 0 && n == q * d + r && r < d
    ensures Quotient(n, d) == q && Remainder(n, d) == r
  {
    Divided(n, d);
    var p, s := Quotient(n, d), Remainder(n, d);
    SameQuotient(p, s, q, r, d);
  }

  lemma SameQuotient(p: int, s: int, q: int, r: int, d: int)
    requires p * d + s == q * d + r && 0 <= r < d && 0 <= s < d
    ensures p == q && s == r
  {
    if p > q {
      Product(p - q, d);
    } else if q > p {
      Product(q - p, d);
    }
  }

  lemma Product(a: int, d: int)
    requires a >= 1 && d > 0
    ensures a * d >= d
  {
  }

  /** `formatUnits`, for any sign. */
  function FormatUnits(value: int, decimals: nat): Text {
    if value < 0 then [45] + FormatMagnitude(-value, decimals) else FormatMagnitude(value, decimals)
  }

  function FormatMagnitude(magnitude: nat, decimals: nat): Text {
    var whole := Quotient(magnitude, Pow10(decimals));
    var fraction := Remainder(magnitude, Pow10(decimals));
    if fraction == 0 then ToDecimal(whole)
    else ToDecimal(whole) + [46] + TrimZeros(PadStart(ToDecimal(fraction), decimals))
  }

  // ---------------------------------------------------------------- scaling

  datatype AmountError = InvalidDecimals | NotDecimal | TooPrecise | NotPositive | RangeExceeded

  /** The position of the first decimal point, or the length. */
  function PointAt(t: Text): (k: nat)
    ensures k <= |t|
    ensures forall i :: 0 <= i < k ==> t[i] != 46
    ensures k < |t| ==> t[k] == 46
  {
    if t == [] || t[0] == 46 then 0 else 1 + PointAt(t[1..])
  }

  function WholePart(t: Text): Text { t[..PointAt(t)] }

  function FractionPart(t: Text): Text { if PointAt(t) < |t| then t[PointAt(t) + 1..] else [] }

  /** `/^\d+(?:\.\d+)?$/` */
  predicate IsDecimalText(t: Text) {
    && WholePart(t) != [] && AllDigits(WholePart(t)) && AllDigits(FractionPart(t))
    && (PointAt(t) < |t| ==> FractionPart(t) != [])
  }

  /** The integer that the digits of an amount make with exactly `decimals` of them
      after the point. */
  function Scaled(t: Text, decimals: nat): nat
    requires IsDecimalText(t)
  {
    PaddedDigits(FractionPart(t), decimals);
    FromDecimal(WholePart(t) + PadEnd(FractionPart(t), decimals))
  }

  lemma PaddedDigits(t: Text, n: nat)
    requires AllDigits(t)
    ensures AllDigits(PadEnd(t, n)) && AllDigits(PadStart(t, n))
  {
  }

  /** What both implementations do with a decimal text. */
  function ScaleText(t: Text, decimals: nat): Result<Text, AmountError>
    requires IsDecimalText(t)
  {
    if |FractionPart(t)| > decimals then Err(TooPrecise)
    else
      var scaled := Scaled(t, decimals);
      if scaled <= 0 then Err(NotPositive)
      else if scaled > MAX_VM_INTEGER then Err(RangeExceeded)
      else Ok(ToDecimal(scaled))
  }

  /** `scaleTokenAmount` of transaction-proposal.ts. */
  function ProposalScale(amount: Text, decimals: int): Result<Text, AmountError> {
    if decimals < 0 || decimals > 255 then Err(InvalidDecimals)
    else if !IsDecimalText(Trim(amount)) then Err(NotDecimal)
    else ScaleText(Trim(amount), decimals)
  }

  /** `validateTokenAmount` */
  function ValidateTokenAmount(amount: Text): Result<Text, AmountError> {
    if amount != Trim(amount) || amount == [] then Err(NotDecimal)
    else if |amount| > 1024 || !IsDecimalText(amount) then Err(NotDecimal)
    else if forall i :: 0 <= i < |amount| ==> !(49 <= amount[i] <= 57) then Err(NotPositive)
    else Ok(amount)
  }

  /** `scaleTokenAmount` of neo-service.ts. */
  function ServiceScale(amount: Text, decimals: int): Result<Text, AmountError> {
    if decimals < 0 || decimals > 255 then Err(InvalidDecimals)
    else
      match ValidateTokenAmount(amount)
      case Err(e) => Err(e)
      case Ok(t) => ScaleText(t, decimals)
  }

  // -------------------------------------------------------------- GAS texts

  /** `formatDatosAsGas`, which cuts the digits of a non-negative amount. */
  function FormatDatosAsGas(value: nat): Text {
    var digits := PadStart(ToDecimal(value), 9);
    var whole := digits[..|digits| - 8];
    var fraction := TrimZeros(digits[|digits| - 8..]);
    if fraction == [] then whole else whole + [46] + fraction
  }

  /** `/^(0|[1-9]\d*)(?:\.(\d{1,8}))?$/` */
  predicate IsGasText(t: Text) {
    IsDecimalText(t) && (WholePart(t)[0] == 48 ==> |WholePart(t)| == 1) && |FractionPart(t)| <= 8
  }

  /** `parseGasAmountToDatos` */
  function ParseGasAmountToDatos(t: Text): Result<nat, AmountError> {
    if !IsGasText(t) then Err(NotDecimal)
    else
      PaddedDigits(FractionPart(t), 8);
      var datos := FromDecimal(WholePart(t)) * Pow10(8) + FromDecimal(PadEnd(FractionPart(t), 8));
      if datos <= 0 then Err(NotPositive) else Ok(datos)
  }

  // ----------------------------------------------------------- decimal facts

  lemma {:induction false} DecimalOfJoin(a: Text, b: Text)
    requires AllDigits(a) && AllDigits(b)
    ensures FromDecimal(a + b) == FromDecimal(a) * Pow10(|b|) + FromDecimal(b)
  {
    if b == [] {
      assert a + b == a;
    } else {
      var c := b[..|b| - 1];
      DecimalOfJoin(a, c);
      assert (a + b)[..|a + b| - 1] == a + c;
      ShiftedSum(FromDecimal(a), Pow10(|c|), FromDecimal(c));
    }
  }

  lemma ShiftedSum(x: int, p: int, y: int)
    ensures (x * p + y) * 10 == x * (10 * p) + y * 10
  {
  }

  lemma {:induction false} DecimalOfZeros(n: nat)
    ensures AllDigits(Zeros(n)) && FromDecimal(Zeros(n)) == 0
  {
    if n > 0 {
      DecimalOfZeros(n - 1);
      assert Zeros(n)[..n - 1] == Zeros(n - 1);
    }
  }

  lemma {:induction false} TrimmedPads(t: Text)
    ensures PadEnd(TrimZeros(t), |t|) == t
  {
    if t != [] && t[|t| - 1] == 48 {
      var c := t[..|t| - 1];
      TrimmedPads(c);
      var r := TrimZeros(c);
      assert Zeros(|t| - |r|) == Zeros(|c| - |r|) + [48];
      assert t == c + [48];
    }
  }

  /** The lowest k decimal digits. */
  function LowDigits(n: nat, k: nat): (t: Text)
    ensures |t| == k && AllDigits(t)
  {
    if k == 0 then [] else LowDigits(n / 10, k - 1) + [48 + n % 10]
  }

  lemma {:induction false} LowDigitsMean(n: nat, k: nat)
    requires n < Pow10(k)
    ensures FromDecimal(LowDigits(n, k)) == n
  {
    if k > 0 {
      LowDigitsMean(n / 10, k - 1);
      assert LowDigits(n, k)[..k - 1] == LowDigits(n / 10, k - 1);
    }
  }

  lemma {:induction false} PaddedIsLowDigits(n: nat, k: nat)
    requires n < Pow10(k) && k > 0
    ensures PadStart(ToDecimal(n), k) == LowDigits(n, k)
  {
    if n < 10 {
      LowDigitsOfZero(k - 1);
      assert LowDigits(n, k) == Zeros(k - 1) + [48 + n];
    } else {
      assert Pow10(0) == 1;
      assert k > 1;
      PaddedIsLowDigits(n / 10, k - 1);
      assert PadStart(ToDecimal(n), k) == PadStart(ToDecimal(n / 10), k - 1) + [48 + n % 10];
    }
  }

  lemma {:induction false} LowDigitsOfZero(k: nat)
    ensures LowDigits(0, k) == Zeros(k)
  {
    if k > 0 {
      LowDigitsOfZero(k - 1);
      assert Zeros(k) == Zeros(k - 1) + [48];
    }
  }

  lemma DivTwice(n: nat, a: int, b: int)
    requires a > 0 && b > 0
    ensures a * b > 0 && Quotient(Quotient(n, a), b) == Quotient(n, a * b)
  {
    Divided(n, a);
    Divided(Quotient(n, a), b);
    var q, r, s := Quotient(Quotient(n, a), b), Remainder(Quotient(n, a), b), Remainder(n, a);
    Nested(n, a, b, q, r, s);
    DivUnique(n, a * b, q, r * a + s);
  }

  lemma Nested(n: int, a: int, b: int, q: int, r: nat, s: nat)
    requires a > 0 && b > 0 && s < a && r < b && n == (q * b + r) * a + s
    ensures a * b > 0 && n == q * (a * b) + (r * a + s) && 0 <= r * a + s < a * b
  {
    assert r * a >= 0;
    assert (b - 1 - r) * a >= 0;
    assert (b - 1 - r) * a == a * b - a - r * a;
    assert (q * b + r) * a == q * (a * b) + r * a;
  }

  /** The digits of a number are those above position k and the k lowest. */
  lemma {:induction false} DigitsSplit(n: nat, k: nat)
    requires n >= Pow10(k)
    ensures ToDecimal(n) == ToDecimal(Quotient(n, Pow10(k))) + LowDigits(n, k)
  {
    if k == 0 {
      assert Quotient(n, 1) == n;
      assert ToDecimal(n) + [] == ToDecimal(n);
    } else {
      DivTwice(n, 10, Pow10(k - 1));
      assert n >= 10;
      DigitsSplit(n / 10, k - 1);
      var above := ToDecimal(Quotient(n, Pow10(k)));
      assert ToDecimal(n) == above + LowDigits(n / 10, k - 1) + [48 + n % 10];
      assert above + LowDigits(n, k) == above + LowDigits(n / 10, k - 1) + [48 + n % 10];
    }
  }

  lemma {:induction false} LowDigitsOfRemainder(n: nat, k: nat)
    ensures LowDigits(Remainder(n, Pow10(k)), k) == LowDigits(n, k)
  {
    if k > 0 {
      var d := Pow10(k - 1);
      var r := Remainder(n, Pow10(k));
      Divided(n, Pow10(k));
      DropDigit(n, Quotient(n, Pow10(k)), d, r);
      DivUnique(n / 10, d, Quotient(n, Pow10(k)), r / 10);
      LowDigitsOfRemainder(n / 10, k - 1);
    }
  }

  lemma DropDigit(n: nat, q: nat, d: int, r: nat)
    requires d > 0 && n == q * (10 * d) + r && r < 10 * d
    ensures n % 10 == r % 10 && n / 10 == q * d + r / 10 && r / 10 < d
  {
    var m := q * d;
    assert q * (10 * d) == 10 * m;
  }

  // -------------------------------------------------- the parts of an amount

  lemma {:induction false} PointOfJoin(w: Text, f: Text)
    requires AllDigits(w)
    ensures PointAt(w) == |w|
    ensures PointAt(w + [46] + f) == |w|
  {
    if w == [] {
      assert w + [46] + f == [46] + f;
    } else {
      PointOfJoin(w[1..], f);
      assert (w + [46] + f)[1..] == w[1..] + [46] + f;
    }
  }

  lemma PartsOfJoin(w: Text, f: Text)
    requires AllDigits(w)
    ensures WholePart(w) == w && FractionPart(w) == []
    ensures var t := w + [46] + f; WholePart(t) == w && FractionPart(t) == f && PointAt(t) < |t|
  {
    PointOfJoin(w, f);
  }

  lemma TrimKeeps(t: Text)
    requires t != [] ==> IsDigit(t[0]) && IsDigit(t[|t| - 1])
    ensures Trim(t) == t
  {
  }

  lemma FractionNonZero(fraction: nat, decimals: nat)
    requires 0 < fraction < Pow10(decimals)
    ensures var digits := PadStart(ToDecimal(fraction), decimals);
            digits == LowDigits(fraction, decimals) && TrimZeros(digits) != []
  {
    assert decimals > 0;
    PaddedIsLowDigits(fraction, decimals);
    LowDigitsMean(fraction, decimals);
    TrimmedPads(LowDigits(fraction, decimals));
    DecimalOfZeros(decimals);
    assert Zeros(decimals) == [] + Zeros(decimals);
  }

  /** What `formatUnits` writes for an amount that is not negative. */
  lemma UnitsParts(value: nat, decimals: nat)
    ensures var t := FormatUnits(value, decimals);
            && IsDecimalText(t) && Trim(t) == t
            && WholePart(t) == ToDecimal(Quotient(value, Pow10(decimals)))
            && |FractionPart(t)| <= decimals
            && PadEnd(FractionPart(t), decimals) == LowDigits(Remainder(value, Pow10(decimals)), decimals)
  {
    hide Pow10, ToDecimal, LowDigits, PointAt, Trim, TrimZeros, Quotient, Remainder, WholePart, FractionPart;
    var whole := ToDecimal(Quotient(value, Pow10(decimals)));
    var fraction := Remainder(value, Pow10(decimals));
    var t := FormatUnits(value, decimals);
    if fraction == 0 {
      PartsOfJoin(whole, []);
      LowDigitsOfZero(decimals);
      assert [] + Zeros(decimals) == Zeros(decimals);
    } else {
      FractionNonZero(fraction, decimals);
      var digits := LowDigits(fraction, decimals);
      PartsOfJoin(whole, TrimZeros(digits));
      TrimmedPads(digits);
    }
    TrimKeeps(t);
  }

  lemma ValueOfParts(value: nat, decimals: nat)
    ensures var low := LowDigits(Remainder(value, Pow10(decimals)), decimals);
            var whole := ToDecimal(Quotient(value, Pow10(decimals)));
            && FromDecimal(whole) * Pow10(decimals) + FromDecimal(low) == value
            && AllDigits(whole + low) && FromDecimal(whole + low) == value
  {
    var whole := Quotient(value, Pow10(decimals));
    var fraction := Remainder(value, Pow10(decimals));
    DecimalRoundTrip(whole);
    LowDigitsMean(fraction, decimals);
    Divided(value, Pow10(decimals));
    DecimalOfJoin(ToDecimal(whole), LowDigits(fraction, decimals));
  }

  // ------------------------------------------------------------- properties

  /** Scaling what `formatUnits` wrote gives the amount back. */
  lemma {:induction false} ScaleUndoesFormat(value: nat, decimals: nat)
    requires 0 < value <= MAX_VM_INTEGER && decimals <= 255
    ensures ProposalScale(FormatUnits(value, decimals), decimals) == Ok(ToDecimal(value))
  {
    UnitsParts(value, decimals);
    ValueOfParts(value, decimals);
  }

  /** No two amounts of either sign are written the same way. */
  lemma FormatUnitsInjective(a: int, b: int, decimals: nat)
    requires FormatUnits(a, decimals) == FormatUnits(b, decimals)
    ensures a == b
  {
    var m, n := if a < 0 then -a else a, if b < 0 then -b else b;
    UnitsParts(m, decimals);
    UnitsParts(n, decimals);
    StartsWithDigit(FormatUnits(m, decimals));
    StartsWithDigit(FormatUnits(n, decimals));
    assert (a < 0) == (FormatUnits(a, decimals)[0] == 45);
    assert (b < 0) == (FormatUnits(b, decimals)[0] == 45);
    assert a < 0 ==> FormatUnits(a, decimals)[1..] == FormatUnits(m, decimals);
    assert b < 0 ==> FormatUnits(b, decimals)[1..] == FormatUnits(n, decimals);
    ValueOfParts(m, decimals);
    ValueOfParts(n, decimals);
  }

  lemma StartsWithDigit(t: Text)
    requires IsDecimalText(t)
    ensures t != [] && IsDigit(t[0])
  {
    assert WholePart(t)[0] == t[0];
  }

  lemma {:induction false} ZeroDigits(t: Text)
    requires AllDigits(t)
    ensures FromDecimal(t) == 0 <==> forall i :: 0 <= i < |t| ==> t[i] == 48
  {
    if t != [] {
      var c := t[..|t| - 1];
      ZeroDigits(c);
      if forall i :: 0 <= i < |c| ==> c[i] == 48 {
        assert forall i :: 0 <= i < |t| - 1 ==> t[i] == c[i];
      } else {
        var i :| 0 <= i < |c| && c[i] != 48;
        assert t[i] == c[i];
      }
    }
  }

  /** The digits of an amount, padded, are its own digits and zeros. */
  lemma SameDigits(t: Text, decimals: nat, all: Text)
    requires IsDecimalText(t) && all == WholePart(t) + PadEnd(FractionPart(t), decimals)
    ensures forall i :: 0 <= i < |all| && all[i] != 48 ==> exists k :: 0 <= k < |t| && t[k] == all[i]
    ensures forall k :: 0 <= k < |t| && t[k] != 46 ==> exists i :: 0 <= i < |all| && all[i] == t[k]
  {
    var w, f := WholePart(t), FractionPart(t);
    forall i | 0 <= i < |all| && all[i] != 48
      ensures exists k :: 0 <= k < |t| && t[k] == all[i]
    {
      if i < |w| {
        assert t[i] == all[i];
      } else {
        assert i - |w| < |f|;
        assert t[i + 1] == f[i - |w|] == all[i];
      }
    }
    forall k | 0 <= k < |t| && t[k] != 46
      ensures exists i :: 0 <= i < |all| && all[i] == t[k]
    {
      if k < |w| {
        assert all[k] == w[k];
      } else {
        assert all[k - 1] == PadEnd(f, decimals)[k - 1 - |w|] == f[k - |w| - 1] == t[k];
      }
    }
  }

  /** An amount scales to zero exactly when it has no digit from 1 to 9. */
  lemma ScaledToZero(t: Text, decimals: nat)
    requires IsDecimalText(t)
    ensures Scaled(t, decimals) == 0 <==> forall i :: 0 <= i < |t| ==> !(49 <= t[i] <= 57)
  {
    PaddedDigits(FractionPart(t), decimals);
    var all := WholePart(t) + PadEnd(FractionPart(t), decimals);
    ZeroDigits(all);
    SameDigits(t, decimals, all);
    hide PadEnd, WholePart, FractionPart, PointAt, IsDecimalText, FromDecimal;
    NonZeroDigit(t, all);
  }

  lemma NonZeroDigit(t: Text, all: Text)
    requires AllDigits(all)
    requires forall i :: 0 <= i < |all| && all[i] != 48 ==> exists k :: 0 <= k < |t| && t[k] == all[i]
    requires forall k :: 0 <= k < |t| && t[k] != 46 ==> exists i :: 0 <= i < |all| && all[i] == t[k]
    ensures (forall i :: 0 <= i < |all| ==> all[i] == 48) <==> forall i :: 0 <= i < |t| ==> !(49 <= t[i] <= 57)
  {
  }

  /** The two scaling functions agree on what they accept and return; the service
      one also wants its input trimmed and no longer than 1024. */
  lemma {:induction false} ScalesAgree(amount: Text, decimals: int)
    ensures ServiceScale(amount, decimals).Ok? <==>
            ProposalScale(amount, decimals).Ok? && amount == Trim(amount) && |amount| <= 1024
    ensures ServiceScale(amount, decimals).Ok? ==>
            ServiceScale(amount, decimals) == ProposalScale(amount, decimals)
  {
    hide Trim, Scaled;
    if 0 <= decimals <= 255 && amount == Trim(amount) && IsDecimalText(amount) {
      StartsWithDigit(amount);
      ScaledToZero(amount, decimals);
    }
  }

  lemma {:induction false} TrimmedZeros(n: nat)
    ensures TrimZeros(Zeros(n)) == []
  {
    if n > 0 {
      TrimmedZeros(n - 1);
      assert Zeros(n)[..n - 1] == Zeros(n - 1);
    }
  }

  /** The padded digits of an amount in datos: its whole GAS, then eight digits. */
  lemma DatosDigits(value: nat)
    ensures PadStart(ToDecimal(value), 9) == ToDecimal(Quotient(value, Pow10(8))) + LowDigits(value, 8)
  {
    var d := Pow10(8);
    if value < d {
      DivUnique(value, d, 0, value);
      PaddedIsLowDigits(value, 8);
      var t := ToDecimal(value);
      assert Zeros(9 - |t|) == [48] + Zeros(8 - |t|);
      assert PadStart(t, 9) == [48] + PadStart(t, 8);
    } else {
      DigitsSplit(value, 8);
    }
  }

  /** Cutting digits gives the same text as dividing. */
  lemma {:induction false} GasTextIsFormatUnits(value: nat)
    ensures FormatDatosAsGas(value) == FormatUnits(value, 8)
  {
    var whole := ToDecimal(Quotient(value, Pow10(8)));
    var fraction := Remainder(value, Pow10(8));
    var digits := PadStart(ToDecimal(value), 9);
    DatosDigits(value);
    assert digits[..|digits| - 8] == whole && digits[|digits| - 8..] == LowDigits(value, 8);
    LowDigitsOfRemainder(value, 8);
    if fraction == 0 {
      LowDigitsOfZero(8);
      TrimmedZeros(8);
    } else {
      FractionNonZero(fraction, 8);
    }
  }

  /** Every amount of at least one dato is read back from its GAS text. */
  lemma ParseUndoesFormat(value: nat)
    requires value >= 1
    ensures ParseGasAmountToDatos(FormatDatosAsGas(value)) == Ok(value)
  {
    hide Pow10, ToDecimal, FromDecimal, LowDigits, FormatDatosAsGas, FormatUnits, Trim, PointAt, PadEnd;
    GasTextIsFormatUnits(value);
    UnitsParts(value, 8);
    ValueOfParts(value, 8);
    NoLeadingZero(Quotient(value, Pow10(8)));
  }

  // --------------------------------------------------- exactly what is read

  /** The text is these digits, with a point between them if there is a fraction. */
  predicate IsAmountText(t: Text, whole: Text, fraction: Text) {
    && whole != [] && AllDigits(whole) && AllDigits(fraction)
    && t == if fraction == [] then whole else whole + [46] + fraction
  }

  /** What an amount of so many whole units and this fraction is in the smallest units. */
  function Amount(whole: Text, fraction: Text, decimals: nat): int
    requires AllDigits(whole) && AllDigits(fraction) && |fraction| <= decimals
  {
    FromDecimal(whole) * Pow10(decimals) + FromDecimal(fraction) * Pow10(decimals - |fraction|)
  }

  lemma {:induction false} PointIs(whole: Text, rest: Text)
    requires AllDigits(whole) && (rest == [] || rest[0] == 46)
    ensures PointAt(whole + rest) == |whole|
  {
    if whole == [] {
      assert whole + rest == rest;
    } else {
      PointIs(whole[1..], rest);
      assert (whole + rest)[1..] == whole[1..] + rest;
    }
  }

  lemma PartsAre(t: Text, whole: Text, fraction: Text)
    ensures IsAmountText(t, whole, fraction) <==>
            IsDecimalText(t) && whole == WholePart(t) && fraction == FractionPart(t)
  {
    hide PointAt;
    if IsAmountText(t, whole, fraction) {
      var rest: Text := if fraction == [] then [] else [46] + fraction;
      assert t == whole + rest;
      PointIs(whole, rest);
    }
    if IsDecimalText(t) && whole == WholePart(t) && fraction == FractionPart(t) {
      var k := PointAt(t);
      assert k < |t| ==> t == t[..k] + [46] + t[k + 1..];
    }
  }

  lemma ScaledIsAmount(whole: Text, fraction: Text, decimals: nat)
    requires AllDigits(whole) && AllDigits(fraction) && |fraction| <= decimals
    ensures AllDigits(PadEnd(fraction, decimals))
    ensures FromDecimal(whole + PadEnd(fraction, decimals)) == Amount(whole, fraction, decimals)
    ensures FromDecimal(PadEnd(fraction, decimals)) == FromDecimal(fraction) * Pow10(decimals - |fraction|)
  {
    hide FromDecimal, Pow10;
    PaddedDigits(fraction, decimals);
    var zeros := Zeros(decimals - |fraction|);
    DecimalOfZeros(decimals - |fraction|);
    assert PadEnd(fraction, decimals) == fraction + zeros;
    DecimalOfJoin(fraction, zeros);
    DecimalOfJoin(whole, PadEnd(fraction, decimals));
  }

  lemma ScaleTextExact(t: Text, decimals: nat, n: nat)
    requires IsDecimalText(t)
    ensures ScaleText(t, decimals) == Ok(ToDecimal(n)) <==>
            && |FractionPart(t)| <= decimals && 0 < n <= MAX_VM_INTEGER
            && n == Amount(WholePart(t), FractionPart(t), decimals)
  {
    hide FromDecimal, Pow10, ToDecimal, PointAt;
    DecimalRoundTrip(n);
    if |FractionPart(t)| <= decimals {
      ScaledIsAmount(WholePart(t), FractionPart(t), decimals);
      DecimalRoundTrip(Scaled(t, decimals));
    }
  }

  /** An amount is scaled to n exactly when, without the white space around it, it is a
      decimal numeral with no more places than the token has and is n of its smallest
      units, with n positive and within the range of the virtual machine. */
  lemma ScalesExactly(amount: Text, decimals: int, n: nat)
    ensures ProposalScale(amount, decimals) == Ok(ToDecimal(n)) <==>
            && 0 <= decimals <= 255 && 0 < n <= MAX_VM_INTEGER
            && exists whole, fraction ::
                 && IsAmountText(Trim(amount), whole, fraction) && |fraction| <= decimals
                 && n == Amount(whole, fraction, decimals)
  {
    hide Amount, ScaleText, IsDecimalText, WholePart, FractionPart, ToDecimal, Trim;
    var t := Trim(amount);
    if 0 <= decimals <= 255 {
      if IsDecimalText(t) {
        PartsAre(t, WholePart(t), FractionPart(t));
        ScaleTextExact(t, decimals, n);
      }
      if whole, fraction :| IsAmountText(t, whole, fraction) && |fraction| <= decimals
                            && n == Amount(whole, fraction, decimals) {
        PartsAre(t, whole, fraction);
      }
    }
  }

  /** A GAS text is read as n datos exactly when it is a decimal numeral without leading
      zeros and with at most eight places and is that many, and n is positive. */
  lemma ParsesExactly(t: Text, n: nat)
    ensures ParseGasAmountToDatos(t) == Ok(n) <==>
            && n > 0
            && exists whole, fraction ::
                 && IsAmountText(t, whole, fraction) && |fraction| <= 8 && (whole[0] == 48 ==> |whole| == 1)
                 && n == Amount(whole, fraction, 8)
  {
    hide FromDecimal, Pow10, PointAt;
    if IsDecimalText(t) {
      PartsAre(t, WholePart(t), FractionPart(t));
      if |FractionPart(t)| <= 8 { ScaledIsAmount(WholePart(t), FractionPart(t), 8); }
    }
    hide IsAmountText, IsDecimalText, WholePart, FractionPart;
    if whole, fraction :| IsAmountText(t, whole, fraction) && |fraction| <= 8 && (whole[0] == 48 ==> |whole| == 1)
                          && n == Amount(whole, fraction, 8) {
      PartsAre(t, whole, fraction);
    }
  }
}
