/** What the argument encoder of evm-abi.ts encodes, said of the JavaScript arguments
    themselves: what a type name and an argument stand for, which arguments are accepted
    and what the decoder of the standard finds. */
module EvmAbiMeaning {
  import opened JsText
  import opened Numerals
  import opened EvmAbi

  // ---------------------------------------- what names and arguments stand for

  /** The name is the prefix and the digits of a number. */
  predicate Suffixed(name: Text, prefix: Text, n: nat) {
    && |name| > |prefix| && name[..|prefix|] == prefix
    && AllDigits(name[|prefix|..]) && FromDecimal(name[|prefix|..]) == n
  }

  /** The name is one of the type's. */
  predicate Names(name: Text, t: AbiType): (r: bool)
    ensures r ==> ValidType(t)
  {
    ValidType(t) &&
    match t
    case Address => name == Ascii("address")
    case Bool => name == Ascii("bool")
    case Uint(bits) => Suffixed(name, Ascii("uint"), bits) || (bits == 256 && name == Ascii("uint"))
    case Int(bits) => Suffixed(name, Ascii("int"), bits) || (bits == 256 && name == Ascii("int"))
    case FixedBytes(size) => Suffixed(name, Ascii("bytes"), size)
    case Bytes => name == Ascii("bytes")
    case String => name == Ascii("string")
  }

  /** The text is a decimal numeral, perhaps with a minus sign, or a hexadecimal one. */
  predicate IsNumeralOf(t: Text, n: int) {
    || (t != [] && AllDigits(t) && n == FromDecimal(t))
    || (|t| > 1 && t[0] == 45 && AllDigits(t[1..]) && n == 0 - FromDecimal(t[1..]))
    || (|t| > 2 && t[0] == 48 && t[1] == 120 && AllHex(t[2..]) && n == FromHex(t[2..]))
  }

  predicate DenotesInteger(a: Arg, n: int) {
    match a
    case BigIntArg(m) => m == n
    case NumberArg(m) => m == n && -MAX_SAFE_INTEGER <= n <= MAX_SAFE_INTEGER
    case StringArg(s) => IsNumeralOf(Trim(s), n)
    case _ => false
  }

  /** The text is these hexadecimal digits, with or without a prefix. */
  predicate IsHexText(t: Text, h: Text) {
    AllHex(h) && (t == h || t == [48, 120] + h || t == [48, 88] + h)
  }

  /** Each byte in two digits. */
  predicate IsHexOf(h: Text, bytes: seq<Byte>) {
    && AllHex(h) && |h| == 2 * |bytes|
    && forall k :: 0 <= k < |bytes| ==> bytes[k] == HexValue(h[2 * k]) * 16 + HexValue(h[2 * k + 1])
  }

  ghost predicate DenotesBytes(a: Arg, v: AbiValue) {
    a.StringArg? && v.BytesValue? && exists h :: IsHexText(a.t, h) && IsHexOf(h, v.bytes)
  }

  /** The argument stands for the value, as an argument of the type. */
  ghost predicate Denotes(t: AbiType, a: Arg, v: AbiValue)
    requires ValidType(t)
  {
    match t
    case Address =>
      a.StringArg? && v.AddressValue? && |v.digits| == 40 && exists h :: IsHexText(a.t, h) && IsLowerOf(h, v.digits)
    case Bool => a.BoolArg? && v == BoolValue(a.b)
    case Uint(bits) => v.UintValue? && DenotesInteger(a, v.n) && v.n < Pow2(bits)
    case Int(bits) => v.IntValue? && DenotesInteger(a, v.i) && -Pow2(bits - 1) <= v.i < Pow2(bits - 1)
    case FixedBytes(size) => DenotesBytes(a, v) && |v.bytes| == size
    case Bytes => DenotesBytes(a, v)
    case String => a.StringArg? && v == BytesValue(Utf8(a.t))
  }

  /** As many arguments as types, and what each of them stands for. */
  ghost predicate Described(names: seq<Text>, args: seq<Arg>, ts: seq<AbiType>, vs: seq<AbiValue>) {
    && |names| == |args| == |ts| == |vs|
    && forall i :: 0 <= i < |names| ==> Names(Trim(names[i]), ts[i]) && Denotes(ts[i], args[i], vs[i])
  }

  // ----------------------------------------- the encoder reads them like that

  lemma PrefixesDiffer()
    ensures |Ascii("uint")| == 4 && Ascii("uint")[0] == 117
    ensures |Ascii("int")| == 3 && Ascii("int")[0] == 105
    ensures |Ascii("bytes")| == 5 && Ascii("bytes")[0] == 98
    ensures |Ascii("address")| == 7 && Ascii("address")[0] == 97
    ensures |Ascii("bool")| == 4 && Ascii("bool")[0] == 98 && Ascii("bool")[1] == 111
    ensures Ascii("bytes")[1] == 121
    ensures |Ascii("string")| == 6 && Ascii("string")[0] == 115
  {
  }

  lemma SuffixIs(name: Text, prefix: Text, n: nat)
    ensures Suffixed(name, prefix, n) <==> Suffix(name, prefix) == Some(n)
    ensures Suffix(name, prefix).Some? ==> |name| > |prefix| && forall i :: 0 <= i < |prefix| ==> name[i] == prefix[i]
  {
    if |name| > |prefix| {
      assert prefix <= name <==> name[..|prefix|] == prefix;
    }
  }

  lemma ParseTypeNames(name: Text, t: AbiType)
    ensures ParseType(name) == Ok(t) <==> Names(name, t)
  {
    hide Suffix, Suffixed, FromDecimal;
    PrefixesDiffer();
    var n := match t case Uint(bits) => bits case Int(bits) => bits case FixedBytes(size) => size case _ => 0;
    SuffixIs(name, Ascii("uint"), n);
    SuffixIs(name, Ascii("int"), n);
    SuffixIs(name, Ascii("bytes"), n);
  }

  lemma ReadIntegerDenotes(a: Arg, n: int)
    ensures ReadInteger(a) == Ok(n) <==> DenotesInteger(a, n)
  {
    hide Trim, FromDecimal, FromHex;
  }

  lemma HexTextIs(t: Text, h: Text)
    ensures IsHexText(t, h) <==> h == StripPrefix(t) && AllHex(h)
  {
    if IsHexText(t, h) {
      assert |h| > 1 ==> IsHexDigit(h[1]);
      if t != h {
        assert t[2..] == h;
      }
    }
    assert |t| > 1 ==> t == [t[0], t[1]] + t[2..];
  }

  lemma {:induction false} UnhexIsHexOf(h: Text)
    requires AllHex(h) && |h| % 2 == 0
    ensures IsHexOf(h, UnhexBytes(h))
  {
    if h != [] {
      UnhexIsHexOf(h[2..]);
      var bytes := UnhexBytes(h);
      forall k | 0 <= k < |bytes|
        ensures bytes[k] == HexValue(h[2 * k]) * 16 + HexValue(h[2 * k + 1])
      {
        if k > 0 {
          assert bytes[k] == UnhexBytes(h[2..])[k - 1];
          assert h[2..][2 * (k - 1)] == h[2 * k] && h[2..][2 * (k - 1) + 1] == h[2 * k + 1];
        }
      }
    }
  }

  lemma HexOfOne(h: Text, a: seq<Byte>, b: seq<Byte>)
    requires IsHexOf(h, a) && IsHexOf(h, b)
    ensures a == b
  {
  }

  lemma ReadBytesDenotes(a: Arg, v: AbiValue)
    ensures (ReadBytes(a).Ok? && v == BytesValue(ReadBytes(a).value)) <==> DenotesBytes(a, v)
  {
    hide StripPrefix, UnhexBytes, IsHexOf, IsHexText, AllHex;
    if a.StringArg? {
      var h := StripPrefix(a.t);
      HexTextIs(a.t, h);
      if |h| % 2 == 0 && AllHex(h) {
        UnhexIsHexOf(h);
      }
      if DenotesBytes(a, v) {
        var g :| IsHexText(a.t, g) && IsHexOf(g, v.bytes);
        HexTextIs(a.t, g);
        HexOfLength(g, v.bytes);
        UnhexIsHexOf(g);
        HexOfOne(g, v.bytes, UnhexBytes(g));
      }
    }
  }

  lemma HexOfLength(h: Text, bytes: seq<Byte>)
    requires IsHexOf(h, bytes)
    ensures AllHex(h) && |h| == 2 * |bytes|
  {
  }

  lemma ReadAddressDenotes(a: Arg, v: AbiValue)
    ensures ReadArg(Address, a) == Ok(v) <==> Denotes(Address, a, v)
  {
    hide StripPrefix, IsHexText, IsLowerOf, AllHex, Lower;
    if a.StringArg? {
      var h := StripPrefix(a.t);
      HexTextIs(a.t, h);
      if AllHex(h) && v.AddressValue? {
        LowerIs(h, v.digits);
      }
      if v.AddressValue? && |v.digits| == 40 && exists g :: IsHexText(a.t, g) && IsLowerOf(g, v.digits) {
        var g :| IsHexText(a.t, g) && IsLowerOf(g, v.digits);
        HexTextIs(a.t, g);
        LowerIs(g, v.digits);
      }
    }
  }

  lemma ReadArgDenotes(t: AbiType, a: Arg, v: AbiValue)
    requires ValidType(t)
    ensures ReadArg(t, a) == Ok(v) <==> Denotes(t, a, v)
  {
    hide Pow2, ReadInteger, ReadBytes, DenotesInteger, DenotesBytes, StripPrefix, Lower, AllHex, Utf8, IsHexText,
         IsLowerOf;
    match t
    case Address => ReadAddressDenotes(a, v);
    case Uint(bits) =>
      if v.UintValue? { ReadIntegerDenotes(a, v.n); }
    case Int(bits) =>
      if v.IntValue? { ReadIntegerDenotes(a, v.i); }
    case FixedBytes(size) =>
      BytesOnly(a, v);
      ReadBytesDenotes(a, v);
    case Bytes =>
      BytesOnly(a, v);
      ReadBytesDenotes(a, v);
    case _ =>
  }

  lemma BytesOnly(a: Arg, v: AbiValue)
    ensures DenotesBytes(a, v) ==> v.BytesValue?
  {
  }

  /** A type and an argument stand for one value at most, and a name for one type. */
  lemma DescribedOnce(names: seq<Text>, args: seq<Arg>, ts: seq<AbiType>, vs: seq<AbiValue>,
                      ts': seq<AbiType>, vs': seq<AbiValue>)
    requires Described(names, args, ts, vs) && Described(names, args, ts', vs')
    ensures ts == ts' && vs == vs'
  {
    hide Names, Denotes;
    forall i | 0 <= i < |names|
      ensures ts[i] == ts'[i] && vs[i] == vs'[i]
    {
      ParseTypeNames(Trim(names[i]), ts[i]);
      ParseTypeNames(Trim(names[i]), ts'[i]);
      ReadArgDenotes(ts[i], args[i], vs[i]);
      ReadArgDenotes(ts[i], args[i], vs'[i]);
    }
  }

  // ------------------------------------------------- what the encoder accepts

  /** The bytes of a value's tail: its length and its contents, in whole words. */
  function TailSize(t: AbiType, v: AbiValue): nat {
    if IsDynamic(t) && v.BytesValue? then 32 + WholeWords(|v.bytes|) else 0
  }

  /** The bytes of the first k tails. */
  function TailBytes(ts: seq<AbiType>, vs: seq<AbiValue>, k: nat): nat
    requires k <= |ts| == |vs|
  {
    if k == 0 then 0 else TailBytes(ts, vs, k - 1) + TailSize(ts[k - 1], vs[k - 1])
  }

  predicate LengthFits(t: AbiType, v: AbiValue) { IsDynamic(t) && v.BytesValue? ==> |v.bytes| < Pow2(256) }

  /** The length and the offset of every dynamic value are below 2^256. */
  predicate WordsFit(ts: seq<AbiType>, vs: seq<AbiValue>)
    requires |ts| == |vs|
  {
    forall i :: 0 <= i < |ts| ==>
      && LengthFits(ts[i], vs[i])
      && (IsDynamic(ts[i]) ==> 32 * |ts| + TailBytes(ts, vs, i) < Pow2(256))
  }

  predicate AllLengthsFit(ts: seq<AbiType>, vs: seq<AbiValue>)
    requires |ts| == |vs|
  {
    forall i :: 0 <= i < |ts| ==> LengthFits(ts[i], vs[i])
  }

  lemma ComponentEncodes(name: Text, a: Arg, t: AbiType, v: AbiValue)
    requires Names(Trim(name), t) && Denotes(t, a, v)
    ensures EncodeComponent(Trim(name), a) == EncodeValue(v, IsDynamic(t)) && ValidValue(t, v)
    ensures EncodeComponent(Trim(name), a).Ok? <==> LengthFits(t, v)
    ensures EncodeComponent(Trim(name), a).Ok? ==>
              var c := EncodeComponent(Trim(name), a).value;
              c.dynamic == IsDynamic(t) && (c.dynamic ==> |c.hex| == 2 * TailSize(t, v))
  {
    hide ParseType, ReadArg, EncodeValue, Pow2, Trim, Names, Denotes, WholeWords;
    ParseTypeNames(Trim(name), t);
    ReadArgDenotes(t, a, v);
    ReadArgValid(t, a);
    ValueEncodes(t, v);
    if EncodeComponent(Trim(name), a).Ok? {
      ComponentFacts(Trim(name), a);
      if IsDynamic(t) {
        DynamicParts(v.bytes);
      }
    }
  }

  lemma {:induction false} ComponentsEncode(names: seq<Text>, args: seq<Arg>, ts: seq<AbiType>, vs: seq<AbiValue>)
    requires Described(names, args, ts, vs)
    ensures Components(names, args).Ok? <==> AllLengthsFit(ts, vs)
  {
    hide EncodeComponent, LengthFits, Names, Denotes;
    if names != [] {
      ComponentEncodes(names[0], args[0], ts[0], vs[0]);
      ComponentsEncode(names[1..], args[1..], ts[1..], vs[1..]);
      assert forall i :: 0 < i < |ts| ==> ts[i] == ts[1..][i - 1] && vs[i] == vs[1..][i - 1];
    }
  }

  lemma {:induction false} TailsSize(names: seq<Text>, args: seq<Arg>, ts: seq<AbiType>, vs: seq<AbiValue>, k: nat)
    requires Described(names, args, ts, vs) && Components(names, args).Ok? && k <= |names|
    ensures |Tails(Components(names, args).value, k)| == 2 * TailBytes(ts, vs, k)
  {
    hide EncodeComponent, Names, Denotes, TailSize, Components;
    if k > 0 {
      TailsSize(names, args, ts, vs, k - 1);
      ComponentIs(names, args, ts, vs, k - 1);
      StaticHasNoTail(ts[k - 1], vs[k - 1]);
    }
  }

  lemma ComponentIs(names: seq<Text>, args: seq<Arg>, ts: seq<AbiType>, vs: seq<AbiValue>, i: nat)
    requires Described(names, args, ts, vs) && Components(names, args).Ok? && i < |names|
    ensures var c := Components(names, args).value[i];
            && Ok(c) == EncodeValue(vs[i], IsDynamic(ts[i])) && ValidValue(ts[i], vs[i])
            && c.dynamic == IsDynamic(ts[i]) && (c.dynamic ==> |c.hex| == 2 * TailSize(ts[i], vs[i]))
  {
    hide EncodeComponent, Names, Denotes, TailSize, Components, LengthFits, EncodeValue, ValidValue;
    ComponentsAt(names, args, i);
    ComponentEncodes(names[i], args[i], ts[i], vs[i]);
  }

  lemma StaticHasNoTail(t: AbiType, v: AbiValue)
    ensures !IsDynamic(t) ==> TailSize(t, v) == 0
  {
  }

  lemma OffsetIs(names: seq<Text>, args: seq<Arg>, ts: seq<AbiType>, vs: seq<AbiValue>, k: nat)
    requires Described(names, args, ts, vs) && Components(names, args).Ok? && k <= |names|
    ensures Offset(Components(names, args).value, k) == 32 * |ts| + TailBytes(ts, vs, k)
  {
    hide Components, Tails, TailBytes, Names, Denotes;
    TailsSize(names, args, ts, vs, k);
    HalfOfDouble(TailBytes(ts, vs, k));
  }

  lemma OffsetsFitWhen(names: seq<Text>, args: seq<Arg>, ts: seq<AbiType>, vs: seq<AbiValue>)
    requires Described(names, args, ts, vs) && Components(names, args).Ok?
    ensures OffsetsFit(Components(names, args).value) <==>
            forall i :: 0 <= i < |ts| && IsDynamic(ts[i]) ==> 32 * |ts| + TailBytes(ts, vs, i) < Pow2(256)
  {
    hide Components, Offset, TailBytes, IsDynamic, ToHex, Pow2, Names, Denotes;
    var cs := Components(names, args).value;
    forall i | 0 <= i < |ts|
      ensures cs[i].dynamic == IsDynamic(ts[i])
      ensures |ToHex(Offset(cs, i))| <= 64 <==> 32 * |ts| + TailBytes(ts, vs, i) < Pow2(256)
    {
      ComponentIs(names, args, ts, vs, i);
      OffsetIs(names, args, ts, vs, i);
      FitsWord(Offset(cs, i));
    }
  }

  lemma EncodesWhen(names: seq<Text>, args: seq<Arg>, ts: seq<AbiType>, vs: seq<AbiValue>)
    requires Described(names, args, ts, vs)
    ensures Encode(names, args).Ok? <==> WordsFit(ts, vs)
  {
    hide Components, TailBytes, Pow2, OffsetsFit, Layout, Names, Denotes, IsDynamic, LengthFits;
    ComponentsEncode(names, args, ts, vs);
    if Components(names, args).Ok? {
      OffsetsFitWhen(names, args, ts, vs);
    }
  }

  /** What the encoder has read, when it has not refused. */
  lemma EncodedIsDescribed(names: seq<Text>, args: seq<Arg>) returns (ts: seq<AbiType>, vs: seq<AbiValue>)
    requires Encode(names, args).Ok?
    ensures Described(names, args, ts, vs)
  {
    hide Trim, ReadArg, ParseType, Denotes, Names, OffsetsFit, Layout, Components, EncodeComponent;
    forall i | 0 <= i < |names|
      ensures EncodeComponent(Trim(names[i]), args[i]).Ok?
    {
      ComponentsAt(names, args, i);
    }
    ts := seq(|names|, i requires 0 <= i < |names| => ReadType(names[i], args[i]));
    vs := seq(|names|, i requires 0 <= i < |names| => ReadValue(names[i], args[i]));
    forall i | 0 <= i < |names|
      ensures Names(Trim(names[i]), ts[i]) && Denotes(ts[i], args[i], vs[i])
    {
      ReadIsDenoted(names[i], args[i]);
    }
  }

  function ReadType(name: Text, a: Arg): AbiType
    requires EncodeComponent(Trim(name), a).Ok?
  {
    ParseType(Trim(name)).value
  }

  function ReadValue(name: Text, a: Arg): AbiValue
    requires EncodeComponent(Trim(name), a).Ok?
  {
    ReadArg(ParseType(Trim(name)).value, a).value
  }

  lemma ReadIsDenoted(name: Text, a: Arg)
    requires EncodeComponent(Trim(name), a).Ok?
    ensures Names(Trim(name), ReadType(name, a)) && Denotes(ReadType(name, a), a, ReadValue(name, a))
  {
    hide Trim, ReadArg, ParseType, Denotes, Names;
    ParseTypeNames(Trim(name), ReadType(name, a));
    ReadArgDenotes(ReadType(name, a), a, ReadValue(name, a));
  }

  /** Exactly the arguments that stand for values of the types they are given with, with
      lengths and offsets that fit a word, are encoded. */
  lemma EncodesExactly(names: seq<Text>, args: seq<Arg>)
    ensures Encode(names, args).Ok? <==> exists ts, vs :: Described(names, args, ts, vs) && WordsFit(ts, vs)
  {
    hide Encode, WordsFit, Names, Denotes;
    if Encode(names, args).Ok? {
      var ts, vs := EncodedIsDescribed(names, args);
      EncodesWhen(names, args, ts, vs);
    }
    if ts, vs :| Described(names, args, ts, vs) && WordsFit(ts, vs) {
      EncodesWhen(names, args, ts, vs);
    }
  }

  lemma {:induction false} TailsAddUp(ts: seq<AbiType>, vs: seq<AbiValue>, i: nat, k: nat)
    requires |ts| == |vs| && i < k <= |ts|
    ensures TailBytes(ts, vs, i) + TailSize(ts[i], vs[i]) <= TailBytes(ts, vs, k)
  {
    hide TailSize;
    if i < k - 1 {
      TailsAddUp(ts, vs, i, k - 1);
    }
  }

  lemma ShortTextFits(ts: seq<AbiType>, vs: seq<AbiValue>)
    requires |ts| == |vs| && 32 * |ts| + TailBytes(ts, vs, |ts|) < Pow2(256)
    ensures WordsFit(ts, vs)
  {
    hide TailBytes, Pow2;
    forall i | 0 <= i < |ts|
      ensures LengthFits(ts[i], vs[i])
      ensures 32 * |ts| + TailBytes(ts, vs, i) < Pow2(256)
    {
      TailsAddUp(ts, vs, i, |ts|);
    }
  }

  lemma TextSize(names: seq<Text>, args: seq<Arg>, ts: seq<AbiType>, vs: seq<AbiValue>)
    requires Described(names, args, ts, vs) && Encode(names, args).Ok?
    ensures |Encode(names, args).value| == 2 * (32 * |ts| + TailBytes(ts, vs, |ts|))
  {
    hide Components, Heads, Tails, TailBytes, OffsetsFit, GoodComponents, Names, Denotes;
    var cs := Components(names, args).value;
    EncodedAreGood(names, args);
    HeadsAreWords(cs, |cs|);
    TailsSize(names, args, ts, vs, |names|);
  }

  /** Decoding what was encoded gives back every argument. Arguments that stand for
      values of their types, with a text shorter than 2^256 bytes, are encoded in just
      that many bytes, and at each position of the text the decoder of the standard
      finds the value that the argument stands for. */
  lemma DecodesEncoded(names: seq<Text>, args: seq<Arg>, ts: seq<AbiType>, vs: seq<AbiValue>, i: nat)
    requires Described(names, args, ts, vs) && i < |names|
    requires 32 * |ts| + TailBytes(ts, vs, |ts|) < Pow2(256)
    ensures Encode(names, args).Ok?
    ensures var d := Encode(names, args).value;
            && AllHex(d) && |d| == 2 * (32 * |ts| + TailBytes(ts, vs, |ts|))
            && DecodeAt(ts[i], d, 32 * i) == Some(vs[i])
  {
    hide TailBytes, Pow2, DecodeAt, AllHex, Names, Denotes, WordsFit, Components, OffsetsFit, Layout, EncodeValue,
         ValidValue, GoodComponents, TailSize;
    ShortTextFits(ts, vs);
    EncodesWhen(names, args, ts, vs);
    TextSize(names, args, ts, vs);
    ComponentIs(names, args, ts, vs, i);
    EncodedAreGood(names, args);
    DecodesInLayout(Components(names, args).value, i, ts[i], vs[i]);
  }

  // -------------------------------------------- how arguments may be written

  /** An integer of either sign in decimal, or a natural number in hexadecimal after
      `0x`, with white space around it or not, stands for that integer. */
  lemma WrittenIntegers(left: Text, n: int, right: Text)
    requires AllTrimmed(left) && AllTrimmed(right)
    ensures DenotesInteger(BigIntArg(n), n)
    ensures -MAX_SAFE_INTEGER <= n <= MAX_SAFE_INTEGER ==> DenotesInteger(NumberArg(n), n)
    ensures DenotesInteger(StringArg(left + SignedDecimal(n) + right), n)
    ensures n >= 0 ==> DenotesInteger(StringArg(left + ([48, 120] + ToHex(n)) + right), n)
  {
    hide Trim, ToDecimal, ToHex, FromHex, FromDecimal;
    var m := if n < 0 then -n else n;
    DecimalRoundTrip(m);
    var digits := ToDecimal(m);
    assert IsDigit(digits[0]) && IsDigit(digits[|digits| - 1]);
    var t := SignedDecimal(n);
    assert n < 0 ==> t[1..] == digits && t[|t| - 1] == digits[|digits| - 1];
    TrimUnpads(left, t, right);
    if n >= 0 {
      HexRoundTrip(n);
      var h := [48, 120] + ToHex(n);
      assert h[2..] == ToHex(n);
      assert IsHexDigit(ToHex(n)[|ToHex(n)| - 1]);
      TrimUnpads(left, h, right);
    }
  }
}
