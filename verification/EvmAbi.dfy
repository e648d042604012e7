/** The argument encoder of evm-abi.ts, and a decoder written from "Formal
    Specification of the Encoding" of the Solidity Contract ABI Specification. The
    decoder recovers every accepted argument from the encoder's text. */
module EvmAbi {
  import opened JsText
  import opened Numerals

  // ------------------------------------------------------------------ types

  datatype AbiType = Address | Bool | Uint(bits: nat) | Int(bits: nat) | FixedBytes(size: nat) | Bytes | String

  datatype AbiError = UnsupportedType | InvalidArgument | OutOfRange | WordOverflow | CountMismatch

  predicate ValidWidth(bits: nat) { 8 <= bits <= 256 && bits % 8 == 0 }

  predicate ValidType(t: AbiType) {
    match t
    case Uint(bits) => ValidWidth(bits)
    case Int(bits) => ValidWidth(bits)
    case FixedBytes(size) => 1 <= size <= 32
    case _ => true
  }

  /** The decimal number after a prefix, if that is all there is. */
  function Suffix(t: Text, prefix: Text): Option<nat> {
    if |t| > |prefix| && prefix <= t && AllDigits(t[|prefix|..]) then Some(FromDecimal(t[|prefix|..])) else None
  }

  /** The type a (trimmed) type name stands for. */
  function ParseType(t: Text): (r: Result<AbiType, AbiError>)
    ensures r.Ok? ==> ValidType(r.value)
  {
    if t == Ascii("address") then Ok(Address)
    else if t == Ascii("bool") then Ok(Bool)
    else if t == Ascii("uint") then Ok(Uint(256))
    else if t == Ascii("int") then Ok(Int(256))
    else if t == Ascii("bytes") then Ok(Bytes)
    else if t == Ascii("string") then Ok(String)
    else
      match (Suffix(t, Ascii("uint")), Suffix(t, Ascii("int")), Suffix(t, Ascii("bytes")))
      case (Some(bits), _, _) => if ValidWidth(bits) then Ok(Uint(bits)) else Err(UnsupportedType)
      case (_, Some(bits), _) => if ValidWidth(bits) then Ok(Int(bits)) else Err(UnsupportedType)
      case (_, _, Some(size)) => if 1 <= size <= 32 then Ok(FixedBytes(size)) else Err(UnsupportedType)
      case _ => Err(UnsupportedType)
  }

  predicate IsDynamic(t: AbiType) { t.Bytes? || t.String? }

  // ----------------------------------------------------------------- values

  /** A JavaScript argument. `NumberArg` is an integral number, `OtherArg` anything
      that no type accepts. */
  datatype Arg = BoolArg(b: bool) | NumberArg(n: int) | BigIntArg(n: int) | StringArg(t: Text) | OtherArg

  /** An accepted argument: what it means for its type. */
  datatype AbiValue =
    | AddressValue(digits: Text)       // 40 lower-case hexadecimal digits
    | BoolValue(b: bool)
    | UintValue(n: nat)
    | IntValue(i: int)
    | BytesValue(bytes: seq<Byte>)

  function StripSign(t: Text): Text { if t != [] && t[0] == 45 then t[1..] else t }

  predicate HasHexPrefix(t: Text) { |t| > 1 && t[0] == 48 && t[1] == 120 }

  /** `toBigIntArg`. Its first pattern lets a signed hexadecimal string through, but
      `BigInt` refuses one. */
  function ReadInteger(a: Arg): Result<int, AbiError> {
    match a
    case BigIntArg(n) => Ok(n)
    case NumberArg(n) => if -MAX_SAFE_INTEGER <= n <= MAX_SAFE_INTEGER then Ok(n) else Err(InvalidArgument)
    case StringArg(s) =>
      var t := Trim(s);
      if |t| > 2 && HasHexPrefix(t) && AllHex(t[2..]) then Ok(FromHex(t[2..]))
      else if StripSign(t) != [] && AllDigits(StripSign(t)) then
        Ok(if t[0] == 45 then -(FromDecimal(StripSign(t)) as int) else FromDecimal(t))
      else Err(InvalidArgument)
    case _ => Err(InvalidArgument)
  }

  /** The text after an optional `0x` or `0X`. */
  function StripPrefix(t: Text): Text {
    if |t| > 1 && t[0] == 48 && (t[1] == 120 || t[1] == 88) then t[2..] else t
  }

  function ReadBytes(a: Arg): Result<seq<Byte>, AbiError> {
    if a.StringArg? && |StripPrefix(a.t)| % 2 == 0 && AllHex(StripPrefix(a.t)) then Ok(UnhexBytes(StripPrefix(a.t)))
    else Err(InvalidArgument)
  }

  /** The value an argument has for a type, or why it is refused. */
  function ReadArg(t: AbiType, a: Arg): Result<AbiValue, AbiError>
    requires ValidType(t)
  {
    match t
    case Address =>
      if a.StringArg? && |StripPrefix(a.t)| == 40 && AllHex(StripPrefix(a.t)) then
        Ok(AddressValue(Lower(StripPrefix(a.t))))
      else Err(InvalidArgument)
    case Bool => if a.BoolArg? then Ok(BoolValue(a.b)) else Err(InvalidArgument)
    case Uint(bits) =>
      (match ReadInteger(a)
       case Err(e) => Err(e)
       case Ok(n) => if 0 <= n <= Pow2(bits) - 1 then Ok(UintValue(n)) else Err(OutOfRange))
    case Int(bits) =>
      (match ReadInteger(a)
       case Err(e) => Err(e)
       case Ok(n) => if -Pow2(bits - 1) <= n <= Pow2(bits - 1) - 1 then Ok(IntValue(n)) else Err(OutOfRange))
    case FixedBytes(size) =>
      (match ReadBytes(a)
       case Err(e) => Err(e)
       case Ok(bs) => if |bs| == size then Ok(BytesValue(bs)) else Err(InvalidArgument))
    case Bytes =>
      (match ReadBytes(a)
       case Err(e) => Err(e)
       case Ok(bs) => Ok(BytesValue(bs)))
    case String => if a.StringArg? then Ok(BytesValue(Utf8(a.t))) else Err(InvalidArgument)
  }

  // ---------------------------------------------------------------- encoder

  datatype Component = Component(dynamic: bool, hex: Text)

  /** `padLeft32` */
  function Word(h: Text): Result<Text, AbiError> {
    if |h| > 64 then Err(WordOverflow) else Ok(PadStart(h, 64))
  }

  /** `padRightToWord` */
  function PadRight(h: Text): (r: Text)
    ensures |r| % 64 == 0 && |h| <= |r| && r[..|h|] == h
  {
    if |h| % 64 == 0 then h else PadEnd(h, |h| + 64 - |h| % 64)
  }

  function Static(w: Result<Text, AbiError>): Result<Component, AbiError> {
    match w case Ok(h) => Ok(Component(false, h)) case Err(e) => Err(e)
  }

  /** `encodeComponent`, from the value of the argument. */
  function EncodeValue(v: AbiValue, dynamic: bool): Result<Component, AbiError> {
    match v
    case AddressValue(digits) => Static(Word(digits))
    case BoolValue(b) => Static(Word(if b then [49] else [48]))
    case UintValue(n) => Static(Word(ToHex(n)))
    case IntValue(i) => Static(Word(ToHex(if i < 0 then (i + Pow2(256)) % Pow2(256) else i)))
    case BytesValue(bs) =>
      if !dynamic then Ok(Component(false, PadRight(HexBytes(bs))))
      else
        match Word(ToHex(|bs|))
        case Err(e) => Err(e)
        case Ok(length) => Ok(Component(true, length + if |bs| == 0 then [] else PadRight(HexBytes(bs))))
  }

  function EncodeComponent(name: Text, a: Arg): Result<Component, AbiError> {
    match ParseType(name)
    case Err(e) => Err(e)
    case Ok(t) =>
      match ReadArg(t, a)
      case Err(e) => Err(e)
      case Ok(v) => EncodeValue(v, IsDynamic(t))
  }

  // ------------------------------------------- the layout of the standard

  /** The tails of the first k components, one after the other. */
  function Tails(cs: seq<Component>, k: nat): (t: Text)
    requires k <= |cs|
  {
    if k == 0 then [] else Tails(cs, k - 1) + if cs[k - 1].dynamic then cs[k - 1].hex else []
  }

  /** The byte offset of the tail of component k: the heads take a word each. */
  function Offset(cs: seq<Component>, k: nat): nat
    requires k <= |cs|
  {
    |cs| * 32 + |Tails(cs, k)| / 2
  }

  function Head(cs: seq<Component>, k: nat): Text
    requires k < |cs|
  {
    if cs[k].dynamic then PadStart(ToHex(Offset(cs, k)), 64) else cs[k].hex
  }

  function Heads(cs: seq<Component>, k: nat): (t: Text)
    requires k <= |cs|
  {
    if k == 0 then [] else Heads(cs, k - 1) + Head(cs, k - 1)
  }

  /** The encoding of the components, as the standard lays it out. */
  function Layout(cs: seq<Component>): Text { Heads(cs, |cs|) + Tails(cs, |cs|) }

  /** Every offset fits a word. */
  predicate OffsetsFit(cs: seq<Component>) {
    forall k :: 0 <= k < |cs| && cs[k].dynamic ==> |ToHex(Offset(cs, k))| <= 64
  }

  /** The loop of `encodeAbiParameters` over the two accumulators produces exactly
      that layout. */
  method LayOut(cs: seq<Component>) returns (r: Result<Text, AbiError>)
    ensures r == if OffsetsFit(cs) then Ok(Layout(cs)) else Err(WordOverflow)
  {
    var headWords := |cs|;
    var head: Text, tail: Text := [], [];
    for k := 0 to |cs|
      invariant head == Heads(cs, k) && tail == Tails(cs, k)
      invariant forall j :: 0 <= j < k && cs[j].dynamic ==> |ToHex(Offset(cs, j))| <= 64
    {
      if cs[k].dynamic {
        var offset := headWords * 32 + |tail| / 2;
        var word := Word(ToHex(offset));
        if word.Err? { return Err(word.error); }
        head := head + word.value;
        tail := tail + cs[k].hex;
      } else {
        head := head + cs[k].hex;
      }
    }
    return Ok(head + tail);
  }

  /** What the components of an argument list are, or the first refusal. */
  function Components(names: seq<Text>, args: seq<Arg>): (r: Result<seq<Component>, AbiError>)
    requires |names| == |args|
    ensures r.Ok? ==> |r.value| == |names|
  {
    if names == [] then Ok([])
    else
      match EncodeComponent(Trim(names[0]), args[0])
      case Err(e) => Err(e)
      case Ok(c) =>
        match Components(names[1..], args[1..])
        case Err(e) => Err(e)
        case Ok(cs) => Ok([c] + cs)
  }

  /** `encodeAbiParameters` without its `0x`. */
  function Encode(names: seq<Text>, args: seq<Arg>): Result<Text, AbiError> {
    if |names| != |args| then Err(CountMismatch)
    else
      match Components(names, args)
      case Err(e) => Err(e)
      case Ok(cs) => if OffsetsFit(cs) then Ok(Layout(cs)) else Err(WordOverflow)
  }

  method EncodeAbiParameters(names: seq<Text>, args: seq<Arg>) returns (r: Result<Text, AbiError>)
    ensures r == match Encode(names, args) case Ok(d) => Ok([48, 120] + d) case Err(e) => Err(e)
  {
    if |names| != |args| { return Err(CountMismatch); }
    var components := Components(names, args);
    if components.Err? { return Err(components.error); }
    var text := LayOut(components.value);
    if text.Err? { return text; }
    return Ok([48, 120] + text.value);
  }

  // ---------------------------------------------------------------- decoder

  /** The 32-byte word that starts at a byte position. */
  function WordAt(d: Text, position: nat): Option<nat>
    requires AllHex(d)
  {
    if 2 * position + 64 <= |d| then Some(FromHex(d[2 * position..2 * position + 64])) else None
  }

  function BytesAt(d: Text, position: nat, n: nat): Option<seq<Byte>>
    requires AllHex(d)
  {
    if 2 * (position + n) <= |d| then Some(UnhexBytes(d[2 * position..2 * (position + n)])) else None
  }

  predicate AllZeros(t: Text) { forall i :: 0 <= i < |t| ==> t[i] == 48 }

  /** The bytes of whole words that hold n of them. */
  function WholeWords(n: nat): (m: nat)
    ensures n <= m && m % 32 == 0
  {
    (n + 31) / 32 * 32
  }

  /** n bytes from a position on, filled up with zero bytes to whole words. */
  function PaddedBytesAt(d: Text, position: nat, n: nat): Option<seq<Byte>>
    requires AllHex(d)
  {
    if 2 * (position + WholeWords(n)) <= |d| && AllZeros(d[2 * (position + n)..2 * (position + WholeWords(n))]) then
      BytesAt(d, position, n)
    else None
  }

  /** The value of the argument whose head is at a byte position. */
  function DecodeAt(t: AbiType, d: Text, position: nat): Option<AbiValue>
    requires ValidType(t) && AllHex(d)
  {
    match WordAt(d, position)
    case None => None
    case Some(w) =>
      match t
      case Address => if w < Pow2(160) then Some(AddressValue(d[2 * position + 24..2 * position + 64])) else None
      case Bool => if w <= 1 then Some(BoolValue(w == 1)) else None
      case Uint(bits) => if w < Pow2(bits) then Some(UintValue(w)) else None
      case Int(bits) =>
        var n := if w < Pow2(255) then w else w - Pow2(256);
        if -Pow2(bits - 1) <= n < Pow2(bits - 1) then Some(IntValue(n)) else None
      case FixedBytes(size) =>
        (match PaddedBytesAt(d, position, size) case Some(bs) => Some(BytesValue(bs)) case None => None)
      case _ =>
        match WordAt(d, w)
        case None => None
        case Some(length) =>
          match PaddedBytesAt(d, w + 32, length) case Some(bs) => Some(BytesValue(bs)) case None => None
  }

  // ------------------------------------------------------------ components

  /** What `ReadArg` accepts. */
  predicate ValidValue(t: AbiType, v: AbiValue)
    requires ValidType(t)
  {
    match t
    case Address => v.AddressValue? && |v.digits| == 40 && AllHex(v.digits)
    case Bool => v.BoolValue?
    case Uint(bits) => v.UintValue? && v.n < Pow2(bits)
    case Int(bits) => v.IntValue? && -Pow2(bits - 1) <= v.i < Pow2(bits - 1)
    case FixedBytes(size) => v.BytesValue? && |v.bytes| == size
    case _ => v.BytesValue?
  }

  lemma ReadArgValid(t: AbiType, a: Arg)
    requires ValidType(t) && ReadArg(t, a).Ok?
    ensures ValidValue(t, ReadArg(t, a).value)
  {
    if t.Address? {
      LowerHex(StripPrefix(a.t));
    }
  }

  lemma LowerHex(t: Text)
    requires AllHex(t)
    ensures AllHex(Lower(t))
  {
  }

  predicate GoodComponent(c: Component) {
    AllHex(c.hex) && |c.hex| % 64 == 0 && (!c.dynamic ==> |c.hex| == 64)
  }

  lemma WordMeans(h: Text)
    requires AllHex(h) && Word(h).Ok?
    ensures |Word(h).value| == 64 && AllHex(Word(h).value) && FromHex(Word(h).value) == FromHex(h)
  {
    PaddedHex(h, 64);
  }

  lemma DynamicIsGood(bs: seq<Byte>)
    requires EncodeValue(BytesValue(bs), true).Ok?
    ensures GoodComponent(EncodeValue(BytesValue(bs), true).value) && EncodeValue(BytesValue(bs), true).value.dynamic
  {
    hide Word, ToHex, PadRight, HexBytes, AllHex;
    WordMeans(ToHex(|bs|));
    PadRightIsHex(HexBytes(bs));
    var length := Word(ToHex(|bs|)).value;
    var tail: Text := if |bs| == 0 then [] else PadRight(HexBytes(bs));
    HexJoins(length, tail);
  }

  lemma PadRightIsHex(h: Text)
    requires AllHex(h)
    ensures AllHex(PadRight(h))
  {
  }

  lemma FixedIsGood(bs: seq<Byte>)
    requires 1 <= |bs| <= 32
    ensures GoodComponent(EncodeValue(BytesValue(bs), false).value)
  {
    PadRightIsHex(HexBytes(bs));
  }

  lemma ComponentIsGood(t: AbiType, v: AbiValue)
    requires ValidType(t) && ValidValue(t, v) && EncodeValue(v, IsDynamic(t)).Ok?
    ensures var c := EncodeValue(v, IsDynamic(t)).value; GoodComponent(c) && c.dynamic == IsDynamic(t)
  {
    hide Pow2, PadRight, HexBytes, ToHex, PadStart, Word;
    match v
    case AddressValue(digits) => WordMeans(digits);
    case BoolValue(b) => WordMeans(if b then [49] else [48]);
    case UintValue(n) => WordMeans(ToHex(n));
    case IntValue(i) => WordMeans(ToHex(if i < 0 then (i + Pow2(256)) % Pow2(256) else i));
    case BytesValue(bs) =>
      if IsDynamic(t) {
        DynamicIsGood(bs);
      } else {
        FixedIsGood(bs);
      }
  }

  /** A static component decodes to its value wherever it stands. */
  lemma StaticDecodes(t: AbiType, v: AbiValue, d: Text, position: nat)
    requires ValidType(t) && ValidValue(t, v) && !IsDynamic(t) && EncodeValue(v, false).Ok?
    requires AllHex(d) && 2 * position + 64 <= |d|
    requires d[2 * position..2 * position + 64] == EncodeValue(v, false).value.hex
    ensures DecodeAt(t, d, position) == Some(v)
  {
    match v
    case AddressValue(digits) => AddressDecodes(digits, d, position);
    case BoolValue(b) =>
      WordMeans(if b then [49] else [48]);
      assert FromHex([]) == 0;
    case UintValue(n) =>
      WordMeans(ToHex(n));
      HexRoundTrip(n);
    case IntValue(i) => IntDecodes(t, i, d, position);
    case BytesValue(bs) => FixedBytesDecode(bs, d, position);
  }

  lemma AddressDecodes(digits: Text, d: Text, position: nat)
    requires |digits| == 40 && AllHex(digits) && AllHex(d) && 2 * position + 64 <= |d|
    requires d[2 * position..2 * position + 64] == PadStart(digits, 64)
    ensures DecodeAt(Address, d, position) == Some(AddressValue(digits))
  {
    PaddedHex(digits, 64);
    HexBelow(digits);
    var word := d[2 * position..2 * position + 64];
    assert d[2 * position + 24..2 * position + 64] == word[24..];
    assert word[24..] == digits;
  }

  lemma {:induction false} HexBelow(t: Text)
    requires AllHex(t)
    ensures FromHex(t) < Pow2(4 * |t|)
  {
    if t != [] {
      HexBelow(t[..|t| - 1]);
      var n := 4 * |t|;
      assert Pow2(n) == 2 * Pow2(n - 1) == 4 * Pow2(n - 2) == 8 * Pow2(n - 3) == 16 * Pow2(n - 4);
    }
  }

  lemma TwosComplement(i: int, half: int, full: int)
    requires full == 2 * half && -half <= i < half
    ensures var m := if i < 0 then (i + full) % full else i;
            0 <= m < full && i == if m < half then m else m - full
  {
  }

  lemma IntDecodes(t: AbiType, i: int, d: Text, position: nat)
    requires t.Int? && ValidType(t) && ValidValue(t, IntValue(i)) && EncodeValue(IntValue(i), false).Ok?
    requires AllHex(d) && 2 * position + 64 <= |d|
    requires d[2 * position..2 * position + 64] == EncodeValue(IntValue(i), false).value.hex
    ensures DecodeAt(t, d, position) == Some(IntValue(i))
  {
    hide Pow2, ToHex, FromHex, PadStart;
    Pow2Grows(t.bits - 1, 255);
    Pow2Next(255);
    TwosComplement(i, Pow2(255), Pow2(256));
    var m := if i < 0 then (i + Pow2(256)) % Pow2(256) else i;
    WordMeans(ToHex(m));
    HexRoundTrip(m);
  }

  lemma BytesSlice(bs: seq<Byte>, d: Text, position: nat)
    requires AllHex(d) && 2 * (position + WholeWords(|bs|)) <= |d|
    requires d[2 * position..2 * (position + WholeWords(|bs|))] == PadRight(HexBytes(bs))
    ensures PaddedBytesAt(d, position, |bs|) == Some(bs)
  {
    hide HexBytes, WholeWords, PadRight, AllHex, AllZeros, PaddedBytesAt;
    PadRightMeans(HexBytes(bs), |bs|);
    var start, end := 2 * position, 2 * (position + WholeWords(|bs|));
    SplitSlice(d, start, 2 * (position + |bs|), end, HexBytes(bs), PadRight(HexBytes(bs)));
    PaddedSlice(bs, d, position);
  }

  lemma PaddedSlice(bs: seq<Byte>, d: Text, position: nat)
    requires AllHex(d) && 2 * (position + WholeWords(|bs|)) <= |d|
    requires d[2 * position..2 * (position + |bs|)] == HexBytes(bs)
    requires AllZeros(d[2 * (position + |bs|)..2 * (position + WholeWords(|bs|))])
    ensures PaddedBytesAt(d, position, |bs|) == Some(bs)
  {
    hide HexBytes, UnhexBytes, WholeWords, AllHex, AllZeros;
    BytesRoundTrip(bs);
  }

  lemma SplitSlice(d: Text, a: nat, b: nat, c: nat, h: Text, padded: Text)
    requires a <= b <= c <= |d| && d[a..c] == padded && b == a + |h| && |h| <= |padded| && padded[..|h|] == h
    ensures d[a..b] == h && d[b..c] == padded[|h|..]
  {
    assert d[a..b] == d[a..c][..b - a];
    assert d[b..c] == d[a..c][b - a..];
  }

  /** `padRightToWord` fills up with zeros to whole words. */
  lemma PadRightMeans(h: Text, n: nat)
    requires |h| == 2 * n
    ensures |PadRight(h)| == 2 * WholeWords(n) && PadRight(h)[..|h|] == h && AllZeros(PadRight(h)[|h|..])
  {
    RoundUp(n);
  }

  lemma RoundUp(n: nat)
    ensures 2 * WholeWords(n) == if 2 * n % 64 == 0 then 2 * n else 2 * n + 64 - 2 * n % 64
  {
    var q, k := n / 32, n % 32;
    assert n == 32 * q + k;
    assert (n + 31) / 32 == if k == 0 then q else q + 1;
    assert 2 * n % 64 == 2 * k;
  }

  lemma OneWord(n: nat)
    requires 1 <= n <= 32
    ensures WholeWords(n) == 32
  {
    assert (n + 31) / 32 == 1;
  }

  lemma FixedBytesDecode(bs: seq<Byte>, d: Text, position: nat)
    requires 1 <= |bs| <= 32 && AllHex(d) && 2 * position + 64 <= |d|
    requires d[2 * position..2 * position + 64] == PadRight(HexBytes(bs))
    ensures DecodeAt(FixedBytes(|bs|), d, position) == Some(BytesValue(bs))
  {
    hide PadRight, HexBytes, UnhexBytes, FromHex, PaddedBytesAt, WholeWords, AllHex;
    OneWord(|bs|);
    BytesSlice(bs, d, position);
  }

  lemma DynamicParts(bs: seq<Byte>)
    requires EncodeValue(BytesValue(bs), true).Ok?
    ensures var hex := EncodeValue(BytesValue(bs), true).value.hex;
            && |hex| == 64 + 2 * WholeWords(|bs|) && AllHex(hex)
            && FromHex(hex[..64]) == |bs| && hex[64..] == PadRight(HexBytes(bs))
  {
    hide FromHex, ToHex, PadStart, HexBytes, PadRight, WholeWords;
    WordMeans(ToHex(|bs|));
    HexRoundTrip(|bs|);
    var length := Word(ToHex(|bs|)).value;
    var h := HexBytes(bs);
    var hex := EncodeValue(BytesValue(bs), true).value.hex;
    DynamicIsGood(bs);
    PadRightMeans(h, |bs|);
    NoBytesNoPadding(h);
    assert hex == length + PadRight(h);
    assert hex[..64] == length && hex[64..] == PadRight(h);
  }

  lemma NoBytesNoPadding(h: Text)
    ensures h == [] ==> PadRight(h) == []
  {
  }

  /** A dynamic component decodes to its value through the offset in its head. */
  lemma DynamicDecodes(t: AbiType, bs: seq<Byte>, d: Text, position: nat, offset: nat)
    requires ValidType(t) && IsDynamic(t) && EncodeValue(BytesValue(bs), true).Ok?
    requires AllHex(d) && WordAt(d, position) == Some(offset)
    requires var hex := EncodeValue(BytesValue(bs), true).value.hex;
             2 * offset + |hex| <= |d| && d[2 * offset..2 * offset + |hex|] == hex
    ensures DecodeAt(t, d, position) == Some(BytesValue(bs))
  {
    hide EncodeValue, FromHex, HexBytes, UnhexBytes, PadRight, WholeWords, PaddedBytesAt;
    var hex := EncodeValue(BytesValue(bs), true).value.hex;
    DynamicParts(bs);
    SliceOfSlice(d, 2 * offset, 2 * offset + |hex|, 0, 64);
    SliceOfSlice(d, 2 * offset, 2 * offset + |hex|, 64, |hex|);
    assert WordAt(d, offset) == Some(|bs|);
    BytesSlice(bs, d, offset + 32);
  }

  // ---------------------------------------------------------------- layout

  predicate GoodComponents(cs: seq<Component>) {
    forall k :: 0 <= k < |cs| ==> GoodComponent(cs[k])
  }

  lemma {:induction false} HeadsAreWords(cs: seq<Component>, k: nat)
    requires k <= |cs| && GoodComponents(cs) && OffsetsFit(cs)
    ensures |Heads(cs, k)| == 64 * k && AllHex(Heads(cs, k))
  {
    hide Head, GoodComponents, OffsetsFit, AllHex;
    if k > 0 {
      HeadsAreWords(cs, k - 1);
      HeadIsWord(cs, k - 1);
      HexJoins(Heads(cs, k - 1), Head(cs, k - 1));
    } else {
      HexJoins([], []);
    }
  }

  lemma HeadIsWord(cs: seq<Component>, k: nat)
    requires k < |cs| && GoodComponents(cs) && OffsetsFit(cs)
    ensures |Head(cs, k)| == 64 && AllHex(Head(cs, k))
  {
    hide ToHex, Offset, AllHex;
    assert GoodComponent(cs[k]);
    PaddedHex(ToHex(Offset(cs, k)), 64);
  }

  lemma HexJoins(a: Text, b: Text)
    ensures AllHex([])
    ensures AllHex(a) && AllHex(b) ==> AllHex(a + b)
  {
  }

  lemma {:induction false} TailsAreWords(cs: seq<Component>, k: nat)
    requires k <= |cs| && GoodComponents(cs)
    ensures |Tails(cs, k)| % 64 == 0 && AllHex(Tails(cs, k))
  {
    if k > 0 {
      TailsAreWords(cs, k - 1);
    }
  }

  lemma {:induction false} HeadIn(cs: seq<Component>, i: nat, k: nat)
    requires i < k <= |cs| && GoodComponents(cs) && OffsetsFit(cs)
    ensures |Heads(cs, k)| == 64 * k && Heads(cs, k)[64 * i..64 * i + 64] == Head(cs, i)
  {
    hide GoodComponents, OffsetsFit, Head;
    HeadsAreWords(cs, k);
    HeadsAreWords(cs, k - 1);
    if i < k - 1 {
      HeadIn(cs, i, k - 1);
      SliceOfPrefix(Heads(cs, k - 1), Head(cs, k - 1), 64 * i, 64 * i + 64);
    }
  }

  lemma SliceOfPrefix(a: Text, b: Text, x: nat, y: nat)
    requires x <= y <= |a|
    ensures (a + b)[x..y] == a[x..y]
  {
  }

  lemma {:induction false} TailIn(cs: seq<Component>, i: nat, k: nat)
    requires i < k <= |cs| && cs[i].dynamic
    ensures |Tails(cs, i)| + |cs[i].hex| <= |Tails(cs, k)|
    ensures Tails(cs, k)[|Tails(cs, i)|..|Tails(cs, i)| + |cs[i].hex|] == cs[i].hex
  {
    if i < k - 1 {
      TailIn(cs, i, k - 1);
      var a := |Tails(cs, i)|;
      assert Tails(cs, k)[a..a + |cs[i].hex|] == Tails(cs, k - 1)[a..a + |cs[i].hex|];
    }
  }

  lemma HeadPlace(cs: seq<Component>, i: nat)
    requires i < |cs| && GoodComponents(cs) && OffsetsFit(cs)
    ensures var d := Layout(cs);
            && AllHex(d) && |d| % 64 == 0 && 64 * i + 64 <= |d|
            && d[64 * i..64 * i + 64] == Head(cs, i)
  {
    hide Head, GoodComponent, GoodComponents, OffsetsFit;
    HeadsAreWords(cs, |cs|);
    TailsAreWords(cs, |cs|);
    HeadIn(cs, i, |cs|);
    assert Layout(cs)[64 * i..64 * i + 64] == Heads(cs, |cs|)[64 * i..64 * i + 64];
  }

  lemma TailPlace(cs: seq<Component>, i: nat)
    requires i < |cs| && GoodComponents(cs) && OffsetsFit(cs) && cs[i].dynamic
    ensures var d := Layout(cs);
            var start := 2 * Offset(cs, i);
            start + |cs[i].hex| <= |d| && d[start..start + |cs[i].hex|] == cs[i].hex
  {
    hide Heads, Tails, Offset, GoodComponents, OffsetsFit, AllHex;
    HeadsAreWords(cs, |cs|);
    TailsAreWords(cs, i);
    TailIn(cs, i, |cs|);
    OffsetMeans(cs, i);
    PlaceBehind(Heads(cs, |cs|), Tails(cs, |cs|), |Tails(cs, i)|, cs[i].hex, 2 * Offset(cs, i));
  }

  lemma OffsetMeans(cs: seq<Component>, i: nat)
    requires i <= |cs| && |Tails(cs, i)| % 64 == 0
    ensures 2 * Offset(cs, i) == 64 * |cs| + |Tails(cs, i)|
  {
    hide Tails;
    WholeHalf(|Tails(cs, i)|);
  }

  lemma WholeHalf(n: nat)
    requires n % 64 == 0
    ensures 2 * (n / 2) == n
  {
    HalfOfDouble(32 * (n / 64));
    assert n == 2 * (32 * (n / 64));
  }

  lemma HalfOfDouble(m: nat)
    ensures 2 * m / 2 == m
  {
  }

  lemma PlaceBehind(heads: Text, tails: Text, a: nat, hex: Text, start: nat)
    requires start == |heads| + a && a + |hex| <= |tails| && tails[a..a + |hex|] == hex
    ensures start + |hex| <= |heads + tails| && (heads + tails)[start..start + |hex|] == hex
  {
    var d := heads + tails;
    forall k | 0 <= k < |hex|
      ensures d[start..start + |hex|][k] == hex[k]
    {
      assert d[start + k] == tails[a + k] == tails[a..a + |hex|][k];
    }
  }

  /** Each head stands at its own word, and the head of a dynamic component is the
      byte offset at which its own tail starts. */
  lemma LayoutPlaces(cs: seq<Component>, i: nat)
    requires i < |cs| && GoodComponents(cs) && OffsetsFit(cs)
    ensures var d := Layout(cs);
            && AllHex(d) && |d| % 64 == 0 && 64 * i + 64 <= |d|
            && (!cs[i].dynamic ==> d[64 * i..64 * i + 64] == cs[i].hex)
            && (cs[i].dynamic ==>
                  WordAt(d, 32 * i) == Some(Offset(cs, i))
                  && 2 * Offset(cs, i) + |cs[i].hex| <= |d|
                  && d[2 * Offset(cs, i)..2 * Offset(cs, i) + |cs[i].hex|] == cs[i].hex)
  {
    hide Layout, Offset, ToHex, FromHex, PadStart, GoodComponents, GoodComponent;
    HeadPlace(cs, i);
    if cs[i].dynamic {
      PaddedHex(ToHex(Offset(cs, i)), 64);
      HexRoundTrip(Offset(cs, i));
      TailPlace(cs, i);
    }
  }

  // ------------------------------------------------------------- round trip

  lemma {:induction false} ComponentsAt(names: seq<Text>, args: seq<Arg>, i: nat)
    requires |names| == |args| && i < |names| && Components(names, args).Ok?
    ensures EncodeComponent(Trim(names[i]), args[i]) == Ok(Components(names, args).value[i])
  {
    hide EncodeComponent;
    if i > 0 {
      ComponentsAt(names[1..], args[1..], i - 1);
    }
  }

  lemma ComponentFacts(name: Text, a: Arg)
    requires EncodeComponent(name, a).Ok?
    ensures ParseType(name).Ok? && ReadArg(ParseType(name).value, a).Ok?
    ensures var t := ParseType(name).value;
            var v := ReadArg(t, a).value;
            var c := EncodeComponent(name, a).value;
            ValidValue(t, v) && EncodeValue(v, IsDynamic(t)) == Ok(c) && GoodComponent(c) && c.dynamic == IsDynamic(t)
  {
    hide EncodeValue, ReadArg, ParseType, GoodComponent;
    var t := ParseType(name).value;
    ReadArgValid(t, a);
    ComponentIsGood(t, ReadArg(t, a).value);
  }

  lemma EncodedAreGood(names: seq<Text>, args: seq<Arg>)
    requires |names| == |args| && Components(names, args).Ok?
    ensures GoodComponents(Components(names, args).value)
  {
    hide GoodComponent, EncodeComponent;
    var cs := Components(names, args).value;
    forall k | 0 <= k < |cs| ensures GoodComponent(cs[k]) {
      ComponentsAt(names, args, k);
      ComponentFacts(Trim(names[k]), args[k]);
    }
  }

  /** A component decodes to its value at its place in the layout. */
  lemma DecodesInLayout(cs: seq<Component>, i: nat, t: AbiType, v: AbiValue)
    requires i < |cs| && GoodComponents(cs) && OffsetsFit(cs)
    requires ValidType(t) && ValidValue(t, v) && EncodeValue(v, IsDynamic(t)) == Ok(cs[i])
    requires cs[i].dynamic == IsDynamic(t)
    ensures var d := Layout(cs); AllHex(d) && |d| % 64 == 0 && DecodeAt(t, d, 32 * i) == Some(v)
  {
    hide EncodeValue, GoodComponent, GoodComponents, Layout, DecodeAt, OffsetsFit, AllHex, Offset, Pow2;
    LayoutPlaces(cs, i);
    if IsDynamic(t) {
      DynamicDecodes(t, v.bytes, Layout(cs), 32 * i, Offset(cs, i));
    } else {
      StaticDecodes(t, v, Layout(cs), 32 * i);
    }
  }

  // ------------------------------------------------- what the encoder accepts

  lemma FitsWord(n: nat)
    ensures |ToHex(n)| <= 64 <==> n < Pow2(256)
  {
    hide Pow2, FromHex;
    if n < Pow2(256) {
      HexLength(n, 64);
    } else {
      HexRoundTrip(n);
      HexBelow(ToHex(n));
      if |ToHex(n)| <= 64 {
        Pow2Grows(4 * |ToHex(n)|, 256);
        assert false;
      }
    }
  }

  /** The encoder refuses the value of a type only where a length does not fit a word. */
  lemma ValueEncodes(t: AbiType, v: AbiValue)
    requires ValidType(t) && ValidValue(t, v)
    ensures EncodeValue(v, IsDynamic(t)).Ok? <==> (IsDynamic(t) ==> |v.bytes| < Pow2(256))
  {
    hide Pow2, ToHex, PadStart, PadRight, HexBytes;
    match t
    case Address =>
    case Bool =>
    case Uint(bits) =>
      Pow2Grows(bits, 256);
      FitsWord(v.n);
    case Int(bits) =>
      Pow2Grows(bits - 1, 255);
      Pow2Next(255);
      TwosComplement(v.i, Pow2(255), Pow2(256));
      FitsWord(if v.i < 0 then (v.i + Pow2(256)) % Pow2(256) else v.i);
    case FixedBytes(size) =>
    case _ => FitsWord(|v.bytes|);
  }
}
