/** JavaScript strings as sequences of UTF-16 code units, and the few library
    operations on them that the rest of the model needs. */
module JsText {

  type CodeUnit = u: int | 0 <= u < 0x10000

  type Text = seq<CodeUnit>

  /** A string literal as code units. */
  function Ascii(s: string): (t: Text)
    ensures |t| == |s|
  {
    seq(|s|, i requires 0 <= i < |s| => s[i] as int % 0x10000)
  }

  datatype Option<+T> = None | Some(value: T) {
    function GetOr(default: T): T { if Some? then value else default }
  }

  datatype Result<+T, +E> = Ok(value: T) | Err(error: E)

  predicate IsDigit(u: CodeUnit) { 48 <= u <= 57 }

  predicate IsLowerHexDigit(u: CodeUnit) { IsDigit(u) || 97 <= u <= 102 }

  predicate IsHexDigit(u: CodeUnit) { IsLowerHexDigit(u) || 65 <= u <= 70 }

  predicate IsHighSurrogate(u: CodeUnit) { 0xD800 <= u < 0xDC00 }

  predicate IsLowSurrogate(u: CodeUnit) { 0xDC00 <= u < 0xE000 }

  predicate IsSurrogate(u: CodeUnit) { 0xD800 <= u < 0xE000 }

  /** `toLowerCase` on the letters A to Z. Every comparison made with it below has
      a hexadecimal string on one side, and no other code unit lower-cases to a
      hexadecimal digit or to `x`. */
  function LowerUnit(u: CodeUnit): CodeUnit { if 65 <= u <= 90 then u + 32 else u }

  function Lower(t: Text): (r: Text)
    ensures |r| == |t|
    ensures forall i :: 0 <= i < |t| ==> r[i] == LowerUnit(t[i])
  {
    seq(|t|, i requires 0 <= i < |t| => LowerUnit(t[i]))
  }

  /** `/^[0-9a-f]{64}$/`, the form of intent identifiers and fingerprints. */
  predicate IsLowerHex64(t: Text) {
    |t| == 64 && forall i :: 0 <= i < |t| ==> IsLowerHexDigit(t[i])
  }

  predicate AllHex(t: Text) {
    forall i :: 0 <= i < |t| ==> IsHexDigit(t[i])
  }

  type Byte = b: int | 0 <= b < 256

  /** `Number.MAX_SAFE_INTEGER`, `Math.min` and `Math.max`. */
  const MAX_SAFE_INTEGER: int := 0x1F_FFFF_FFFF_FFFF

  function Min(a: int, b: int): int { if a < b then a else b }

  function Max(a: int, b: int): int { if a < b then b else a }

  /** The UTF-8 encoding that `TextEncoder` and `Buffer` produce: surrogate pairs
      become four bytes and a lone surrogate becomes U+FFFD. */
  function Utf8(t: Text): (b: seq<Byte>)
    decreases |t|
  {
    if t == [] then []
    else if IsHighSurrogate(t[0]) && |t| > 1 && IsLowSurrogate(t[1]) then
      var high: int, low: int := t[0], t[1];
      Utf8Point(0x10000 + (high - 0xD800) * 0x400 + (low - 0xDC00)) + Utf8(t[2..])
    else
      Utf8Point(if IsSurrogate(t[0]) then 0xFFFD else t[0]) + Utf8(t[1..])
  }

  function Utf8Point(p: int): (b: seq<Byte>)
    requires 0 <= p < 0x110000
    ensures 1 <= |b| <= 4
  {
    if p < 0x80 then [p]
    else if p < 0x800 then [0xC0 + p / 0x40, 0x80 + p % 0x40]
    else if p < 0x10000 then [0xE0 + p / 0x1000, 0x80 + p / 0x40 % 0x40, 0x80 + p % 0x40]
    else [0xF0 + p / 0x40000, 0x80 + p / 0x1000 % 0x40, 0x80 + p / 0x40 % 0x40, 0x80 + p % 0x40]
  }

  /** The white space and line ends that `trim` removes. */
  predicate IsTrimmed(u: CodeUnit) {
    u == 32 || 9 <= u <= 13 || u == 0xA0 || u == 0x1680 || 0x2000 <= u <= 0x200A
    || u == 0x2028 || u == 0x2029 || u == 0x202F || u == 0x205F || u == 0x3000 || u == 0xFEFF
  }

  /** `String.prototype.trim`. */
  function Trim(t: Text): (r: Text)
    ensures |r| <= |t|
    decreases |t|
  {
    if t == [] then []
    else if IsTrimmed(t[0]) then Trim(t[1..])
    else if IsTrimmed(t[|t| - 1]) then Trim(t[..|t| - 1])
    else t
  }

  predicate AllTrimmed(t: Text) { forall i :: 0 <= i < |t| ==> IsTrimmed(t[i]) }

  /** Neither end of the text is white space. */
  predicate Bare(t: Text) { t != [] ==> !IsTrimmed(t[0]) && !IsTrimmed(t[|t| - 1]) }

  /** What is left of a text is what stands between the white space at its ends. */
  lemma {:induction false} TrimUnpads(left: Text, t: Text, right: Text)
    requires AllTrimmed(left) && AllTrimmed(right) && Bare(t)
    ensures Trim(left + t + right) == t
    decreases |left| + |right|
  {
    var all := left + t + right;
    if left != [] {
      assert all == [left[0]] + (left[1..] + t + right);
      TrimFirst(left[0], left[1..] + t + right);
      TrimUnpads(left[1..], t, right);
    } else if t == [] {
      assert all == right;
      AllWhite(all);
    } else if right != [] {
      var rest := right[..|right| - 1];
      assert all == (left + t + rest) + [right[|right| - 1]];
      TrimLast(left + t + rest, right[|right| - 1]);
      TrimUnpads(left, t, rest);
    } else {
      assert all == t;
    }
  }

  lemma TrimFirst(u: CodeUnit, t: Text)
    requires IsTrimmed(u)
    ensures Trim([u] + t) == Trim(t)
  {
    assert ([u] + t)[1..] == t;
  }

  lemma TrimLast(t: Text, u: CodeUnit)
    requires IsTrimmed(u) && t != [] && !IsTrimmed(t[0])
    ensures Trim(t + [u]) == Trim(t)
  {
    assert (t + [u])[..|t|] == t;
  }

  /** Each text is such a text. */
  lemma {:induction false} TrimLeavesMiddle(t: Text) returns (left: Text, right: Text)
    ensures AllTrimmed(left) && AllTrimmed(right) && Bare(Trim(t)) && t == left + Trim(t) + right
    decreases |t|
  {
    if t == [] {
      left, right := [], [];
    } else if IsTrimmed(t[0]) {
      left, right := TrimLeavesMiddle(t[1..]);
      left := [t[0]] + left;
      assert t == [t[0]] + t[1..];
    } else if IsTrimmed(t[|t| - 1]) {
      left, right := TrimLeavesMiddle(t[..|t| - 1]);
      right := right + [t[|t| - 1]];
      assert t == t[..|t| - 1] + [t[|t| - 1]];
    } else {
      left, right := [], [];
    }
  }

  lemma {:induction false} AllWhite(t: Text)
    requires AllTrimmed(t)
    ensures Trim(t) == []
    decreases |t|
  {
    if t != [] {
      AllWhite(t[1..]);
    }
  }
}
