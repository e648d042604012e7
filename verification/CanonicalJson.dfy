/** `canonicalJson` of write-operation-service.ts, `JSON.stringify` as the journal
    uses it, and a JSON reader to test both against.

    The reader gives the round trip; the round trip makes every text
    self-delimiting; and from that the canonical text of two values is the same
    exactly when the values are the same up to the order of object keys. */
module CanonicalJson {
  import opened JsText
  import opened Numerals

  datatype Member<+V> = Member(key: Text, value: V)

  /** A JSON value as JavaScript holds it: object members in insertion order. A
      number is the text JavaScript prints for it. */
  datatype Json =
    | Null
    | Bool(b: bool)
    | Num(digits: Text)
    | Str(text: Text)
    | Arr(items: seq<Json>)
    | Obj(members: seq<Member<Json>>)

  /** What a value means: member order no longer shows. */
  datatype Value =
    | NullValue
    | BoolValue(b: bool)
    | NumValue(digits: Text)
    | StrValue(text: Text)
    | ArrValue(items: seq<Value>)
    | ObjValue(members: map<Text, Value>)

  // ---------------------------------------------------------------- values

  predicate IsNumberUnit(u: CodeUnit) {
    IsDigit(u) || u == 43 || u == 45 || u == 46 || u == 69 || u == 101  // + - . E e
  }

  predicate IsNumberText(t: Text) {
    t != [] && (IsDigit(t[0]) || t[0] == 45) && forall i :: 0 <= i < |t| ==> IsNumberUnit(t[i])
  }

  predicate DistinctKeys<V>(ms: seq<Member<V>>) {
    forall i, j :: 0 <= i < j < |ms| ==> ms[i].key != ms[j].key
  }

  /** What JavaScript guarantees: printed numbers are number texts, and an object
      has each key once. */
  predicate WellFormed(j: Json)
    decreases j
  {
    match j
    case Num(d) => IsNumberText(d)
    case Arr(items) => forall i :: 0 <= i < |items| ==> WellFormed(items[i])
    case Obj(ms) => DistinctKeys(ms) && forall i :: 0 <= i < |ms| ==> WellFormed(ms[i].value)
    case _ => true
  }

  function Meaning(j: Json): Value
    decreases j
  {
    match j
    case Null => NullValue
    case Bool(b) => BoolValue(b)
    case Num(d) => NumValue(d)
    case Str(t) => StrValue(t)
    case Arr(items) => ArrValue(seq(|items|, i requires 0 <= i < |items| => Meaning(items[i])))
    case Obj(ms) => ObjValue(MeaningOf(ms))
  }

  function MeaningOf(ms: seq<Member<Json>>): (m: map<Text, Value>)
    decreases ms
  {
    if ms == [] then map[] else MeaningOf(ms[1..])[ms[0].key := Meaning(ms[0].value)]
  }

  // --------------------------------------------------------------- strings

  function UnicodeEscape(u: CodeUnit): Text {
    [92, 117, HexDigit(u / 0x1000), HexDigit(u / 0x100 % 16), HexDigit(u / 16 % 16), HexDigit(u % 16)]
  }

  /** The unit that stands for `u` in a two-character escape (section 7 of RFC 8259). */
  function ShortEscapeOf(u: CodeUnit): Option<CodeUnit> {
    if u == 34 || u == 92 then Some(u)
    else if u == 8 then Some(98)
    else if u == 9 then Some(116)
    else if u == 10 then Some(110)
    else if u == 12 then Some(102)
    else if u == 13 then Some(114)
    else None
  }

  function EscapeUnit(u: CodeUnit): Text {
    if ShortEscapeOf(u).Some? then [92, ShortEscapeOf(u).value]
    else if u < 32 || IsSurrogate(u) then UnicodeEscape(u)
    else [u]
  }

  predicate StartsWithPair(s: Text) { |s| > 1 && IsHighSurrogate(s[0]) && IsLowSurrogate(s[1]) }

  /** The characters of a string and its closing quote, followed by `rest`. A
      surrogate pair is printed as it stands, a lone surrogate is escaped. */
  function WriteString(s: Text, rest: Text): Text
    decreases |s|
  {
    if s == [] then [34] + rest
    else if StartsWithPair(s) then [s[0]] + ([s[1]] + WriteString(s[2..], rest))
    else EscapeUnit(s[0]) + WriteString(s[1..], rest)
  }

  // ---------------------------------------------------------------- writer

  const NULL: Text := [110, 117, 108, 108]
  const TRUE: Text := [116, 114, 117, 101]
  const FALSE: Text := [102, 97, 108, 115, 101]

  function WriteSpaces(n: nat, rest: Text): Text {
    if n == 0 then rest else [32] + WriteSpaces(n - 1, rest)
  }

  /** The line break and indentation of `JSON.stringify(value, null, 2)`. */
  function WriteBreak(indented: bool, level: nat, rest: Text): Text {
    if indented then [10] + WriteSpaces(2 * level, rest) else rest
  }

  /** The text `JSON.stringify` prints for `j`, compact or with an indent of two,
      followed by `rest`. */
  function Write(j: Json, indented: bool, level: nat, rest: Text): Text
    decreases j
  {
    match j
    case Null => NULL + rest
    case Bool(b) => (if b then TRUE else FALSE) + rest
    case Num(d) => d + rest
    case Str(t) => [34] + WriteString(t, rest)
    case Arr(items) => [91] + if items == [] then [93] + rest else WriteItems(items, indented, level, rest)
    case Obj(ms) => [123] + if ms == [] then [125] + rest else WriteMembers(ms, indented, level, rest)
  }

  function WriteItems(items: seq<Json>, indented: bool, level: nat, rest: Text): Text
    requires items != []
    decreases items
  {
    WriteBreak(indented, level + 1, Write(items[0], indented, level + 1,
      if |items| == 1 then WriteBreak(indented, level, [93] + rest)
      else [44] + WriteItems(items[1..], indented, level, rest)))
  }

  function WriteMembers(ms: seq<Member<Json>>, indented: bool, level: nat, rest: Text): Text
    requires ms != []
    decreases ms
  {
    WriteBreak(indented, level + 1, [34] + WriteString(ms[0].key,
      [58] + WriteSpaces(if indented then 1 else 0, Write(ms[0].value, indented, level + 1,
      if |ms| == 1 then WriteBreak(indented, level, [125] + rest)
      else [44] + WriteMembers(ms[1..], indented, level, rest)))))
  }

  /** `JSON.stringify(j)`, or `JSON.stringify(j, null, 2)` when indented. */
  function Stringify(j: Json, indented: bool): Text { Write(j, indented, 0, []) }

  // ---------------------------------------------------------------- reader

  predicate IsSpace(u: CodeUnit) { u == 32 || u == 9 || u == 10 || u == 13 }

  function SkipSpace(t: Text): (r: Text)
    ensures |r| <= |t|
  {
    if t != [] && IsSpace(t[0]) then SkipSpace(t[1..]) else t
  }

  /** The unit a two-character escape stands for. */
  function ShortEscape(u: CodeUnit): Option<CodeUnit> {
    if u == 34 || u == 92 || u == 47 then Some(u)
    else if u == 98 then Some(8)
    else if u == 116 then Some(9)
    else if u == 110 then Some(10)
    else if u == 102 then Some(12)
    else if u == 114 then Some(13)
    else None
  }

  predicate IsUnicodeEscape(t: Text) {
    |t| >= 6 && t[0] == 92 && t[1] == 117 &&
    IsHexDigit(t[2]) && IsHexDigit(t[3]) && IsHexDigit(t[4]) && IsHexDigit(t[5])
  }

  function UnicodeEscapeValue(t: Text): CodeUnit
    requires IsUnicodeEscape(t)
  {
    HexValue(t[2]) * 0x1000 + HexValue(t[3]) * 0x100 + HexValue(t[4]) * 16 + HexValue(t[5])
  }

  /** Reads one character of a string: the unit it stands for, and how many units
      it takes up. */
  function ReadUnit(t: Text): (r: Option<(CodeUnit, nat)>)
    requires t != []
    ensures r.Some? ==> 1 <= r.value.1 <= |t|
  {
    if t[0] < 32 then None
    else if t[0] != 92 then Some((t[0], 1))
    else if |t| > 1 && ShortEscape(t[1]).Some? then Some((ShortEscape(t[1]).value, 2))
    else if IsUnicodeEscape(t) then Some((UnicodeEscapeValue(t), 6))
    else None
  }

  /** Reads a string after its opening quote. */
  function ReadString(t: Text): (r: Option<(Text, Text)>)
    ensures r.Some? ==> |r.value.1| < |t|
    decreases |t|
  {
    if t == [] then None
    else if t[0] == 34 then Some(([], t[1..]))
    else
      match ReadUnit(t)
      case None => None
      case Some((u, n)) => PrependUnit(u, ReadString(t[n..]))
  }

  function PrependUnit(u: CodeUnit, r: Option<(Text, Text)>): Option<(Text, Text)> {
    match r
    case None => None
    case Some((s, rest)) => Some(([u] + s, rest))
  }

  /** How many number characters the text starts with. */
  function NumberLength(t: Text): (n: nat)
    ensures n <= |t|
  {
    if t != [] && IsNumberUnit(t[0]) then 1 + NumberLength(t[1..]) else 0
  }

  function ReadWord(t: Text, word: Text, j: Json): (r: Option<(Json, Text)>)
    requires word != []
    ensures r.Some? ==> |r.value.1| < |t|
  {
    if word <= t then Some((j, t[|word|..])) else None
  }

  function ReadNumber(t: Text): (r: Option<(Json, Text)>)
    requires t != []
    ensures r.Some? ==> |r.value.1| < |t|
  {
    var n := NumberLength(t);
    if n > 0 && (IsDigit(t[0]) || t[0] == 45) then Some((Num(t[..n]), t[n..])) else None
  }

  /** Reads one JSON value and returns it with the text that follows it. */
  function Read(text: Text): (r: Option<(Json, Text)>)
    ensures r.Some? ==> |r.value.1| < |text|
    decreases |text|, 1
  {
    var t := SkipSpace(text);
    if t == [] then None
    else if t[0] == 110 then ReadWord(t, NULL, Null)
    else if t[0] == 116 then ReadWord(t, TRUE, Bool(true))
    else if t[0] == 102 then ReadWord(t, FALSE, Bool(false))
    else if t[0] == 34 then
      match ReadString(t[1..])
      case None => None
      case Some((s, rest)) => Some((Str(s), rest))
    else if t[0] == 91 then
      var u := SkipSpace(t[1..]);
      if u != [] && u[0] == 93 then Some((Arr([]), u[1..]))
      else
        match ReadItems(t[1..])
        case None => None
        case Some((items, rest)) => Some((Arr(items), rest))
    else if t[0] == 123 then
      var u := SkipSpace(t[1..]);
      if u != [] && u[0] == 125 then Some((Obj([]), u[1..]))
      else
        match ReadMembers(t[1..])
        case None => None
        case Some((ms, rest)) => Some((Obj(ms), rest))
    else ReadNumber(t)
  }

  /** One or more array elements and the closing bracket. */
  function ReadItems(t: Text): (r: Option<(seq<Json>, Text)>)
    ensures r.Some? ==> |r.value.1| < |t|
    decreases |t|, 2
  {
    match Read(t)
    case None => None
    case Some((j, rest)) =>
      var u := SkipSpace(rest);
      if u == [] then None
      else if u[0] == 93 then Some(([j], u[1..]))
      else if u[0] != 44 then None
      else
        match ReadItems(u[1..])
        case None => None
        case Some((items, last)) => Some(([j] + items, last))
  }

  /** One or more object members and the closing brace. */
  function ReadMembers(t: Text): (r: Option<(seq<Member<Json>>, Text)>)
    ensures r.Some? ==> |r.value.1| < |t|
    decreases |t|, 2
  {
    match ReadKey(t)
    case None => None
    case Some((key, afterKey)) =>
      match Read(afterKey)
      case None => None
      case Some((j, rest)) =>
        var u := SkipSpace(rest);
        if u == [] then None
        else if u[0] == 125 then Some(([Member(key, j)], u[1..]))
        else if u[0] != 44 then None
        else
          match ReadMembers(u[1..])
          case None => None
          case Some((ms, last)) => Some(([Member(key, j)] + ms, last))
  }

  /** A member's key and the colon after it. */
  function ReadKey(t: Text): (r: Option<(Text, Text)>)
    ensures r.Some? ==> |r.value.1| < |t|
  {
    var u := SkipSpace(t);
    if u == [] || u[0] != 34 then None
    else
      match ReadString(u[1..])
      case None => None
      case Some((key, rest)) =>
        var v := SkipSpace(rest);
        if v == [] || v[0] != 58 then None else Some((key, v[1..]))
  }

  // ------------------------------------------------------------ round trip

  lemma ReadsEscape(u: CodeUnit, tail: Text)
    ensures var t := EscapeUnit(u) + tail;
            t[0] != 34 && ReadUnit(t) == Some((u, |EscapeUnit(u)|)) && t[|EscapeUnit(u)|..] == tail
  {
    if ShortEscapeOf(u).None? && (u < 32 || IsSurrogate(u)) {
      hide ReadUnit, ShortEscapeOf, UnicodeEscape;
      ReadsUnicodeEscape(u, tail);
    }
  }

  lemma ReadsUnicodeEscape(u: CodeUnit, tail: Text)
    ensures var t := UnicodeEscape(u) + tail;
            t[0] != 34 && ReadUnit(t) == Some((u, |UnicodeEscape(u)|)) && t[|UnicodeEscape(u)|..] == tail
  {
    hide HexDigit, HexValue, IsHexDigit, UnicodeEscapeValue;
    var t := UnicodeEscape(u) + tail;
    assert t[0] == 92 && t[1] == 117;
    FourDigits(u, t);
    NoShortEscape();
  }

  lemma NoShortEscape()
    ensures ShortEscape(117).None?
  {
  }

  lemma FourDigits(u: CodeUnit, t: Text)
    requires |t| >= 6 && t[0] == 92 && t[1] == 117
    requires t[2] == HexDigit(u / 0x1000) && t[3] == HexDigit(u / 0x100 % 16)
    requires t[4] == HexDigit(u / 16 % 16) && t[5] == HexDigit(u % 16)
    ensures IsUnicodeEscape(t) && UnicodeEscapeValue(t) == u
  {
    hide HexDigit, HexValue;
    DigitBack(u / 0x1000);
    DigitBack(u / 0x100 % 16);
    DigitBack(u / 16 % 16);
    DigitBack(u % 16);
    FourNibbles(u);
  }

  lemma FourNibbles(u: CodeUnit)
    ensures u / 0x1000 * 0x1000 + u / 0x100 % 16 * 0x100 + u / 16 % 16 * 16 + u % 16 == u
  {
    var n: int := u;
    assert n == n / 16 * 16 + n % 16;
    assert n / 16 == n / 0x100 * 16 + n / 16 % 16;
    assert n / 0x100 == n / 0x1000 * 16 + n / 0x100 % 16;
  }

  lemma DigitBack(n: int)
    requires 0 <= n < 16
    ensures IsHexDigit(HexDigit(n)) && HexValue(HexDigit(n)) == n
  {
  }

  lemma {:induction false} ReadsString(s: Text, rest: Text)
    ensures ReadString(WriteString(s, rest)) == Some((s, rest))
    decreases |s|
  {
    if s == [] {
    } else if StartsWithPair(s) {
      ReadsString(s[2..], rest);
      var tail := WriteString(s[2..], rest);
      var second := [s[1]] + tail;
      assert ReadString(second) == PrependUnit(s[1], ReadString(tail));
      assert ReadString([s[0]] + second) == PrependUnit(s[0], ReadString(second));
      assert s == [s[0]] + ([s[1]] + s[2..]);
    } else {
      ReadsString(s[1..], rest);
      ReadsEscape(s[0], WriteString(s[1..], rest));
      assert s == [s[0]] + s[1..];
    }
  }

  lemma {:induction false} SkipsSpaces(n: nat, t: Text)
    ensures SkipSpace(WriteSpaces(n, t)) == SkipSpace(t)
  {
    if n > 0 {
      SkipsSpaces(n - 1, t);
    }
  }

  lemma SkipsBreak(indented: bool, level: nat, t: Text)
    ensures SkipSpace(WriteBreak(indented, level, t)) == SkipSpace(t)
  {
    SkipsSpaces(2 * level, t);
  }

  lemma ReadSkips(a: Text, b: Text)
    requires SkipSpace(a) == SkipSpace(b)
    ensures Read(a) == Read(b)
  {
  }

  lemma {:induction false} CountsNumber(d: Text, rest: Text)
    requires forall i :: 0 <= i < |d| ==> IsNumberUnit(d[i])
    requires rest != [] ==> !IsNumberUnit(rest[0])
    ensures NumberLength(d + rest) == |d|
  {
    if d == [] {
      assert d + rest == rest;
    } else {
      CountsNumber(d[1..], rest);
      assert (d + rest)[1..] == d[1..] + rest;
    }
  }

  /** The text after a value never continues a number. */
  predicate Delimits(rest: Text) { rest != [] ==> !IsNumberUnit(rest[0]) }

  /** The first unit of a value's text, which no white space, comma or closing
      bracket can be taken for. */
  predicate StartsValue(t: Text) {
    t != [] && !IsSpace(t[0]) && t[0] != 93 && t[0] != 125 && t[0] != 44
  }

  lemma WriteStartsValue(j: Json, indented: bool, level: nat, rest: Text)
    requires WellFormed(j)
    ensures StartsValue(Write(j, indented, level, rest))
  {
  }

  lemma BreakDelimits(indented: bool, level: nat, t: Text)
    requires Delimits(t)
    ensures Delimits(WriteBreak(indented, level, t))
  {
  }

  /** Reading what `JSON.stringify` printed gives the value back, and stops exactly
      where the text of the value stops. */
  lemma {:induction false} ReadsWritten(j: Json, indented: bool, level: nat, rest: Text)
    requires WellFormed(j) && Delimits(rest)
    ensures Read(Write(j, indented, level, rest)) == Some((j, rest))
    decreases j
  {
    WriteStartsValue(j, indented, level, rest);
    match j
    case Null =>
    case Bool(b) =>
    case Num(d) => ReadsNumber(d, rest);
    case Str(s) => ReadsString(s, rest);
    case Arr(items) =>
      if items != [] {
        ReadsItems(items, indented, level, rest);
      }
    case Obj(ms) =>
      if ms != [] {
        ReadsMembers(ms, indented, level, rest);
      }
  }

  lemma ReadsNumber(d: Text, rest: Text)
    requires IsNumberText(d) && Delimits(rest)
    ensures Read(d + rest) == Some((Num(d), rest))
  {
    CountsNumber(d, rest);
    var t := d + rest;
    assert t[0] == d[0];
    assert t[..|d|] == d && t[|d|..] == rest;
  }

  /** One element is read, and the closing bracket or a comma and the others follow. */
  lemma ReadItemsStep(t: Text, j: Json, after: Text, u: Text)
    requires Read(t) == Some((j, after)) && SkipSpace(after) == u && u != []
    ensures u[0] == 93 ==> ReadItems(t) == Some(([j], u[1..]))
    ensures u[0] == 44 && ReadItems(u[1..]).Some? ==>
              ReadItems(t) == Some(([j] + ReadItems(u[1..]).value.0, ReadItems(u[1..]).value.1))
  {
  }

  lemma {:induction false} ReadsItems(items: seq<Json>, indented: bool, level: nat, rest: Text)
    requires items != [] && forall i :: 0 <= i < |items| ==> WellFormed(items[i])
    ensures var t := WriteItems(items, indented, level, rest);
            ReadItems(t) == Some((items, rest)) && StartsValue(SkipSpace(t))
    decreases items
  {
    hide Read, Write, ReadItems, WellFormed;
    var j := items[0];
    var after := if |items| == 1 then WriteBreak(indented, level, [93] + rest)
                 else [44] + WriteItems(items[1..], indented, level, rest);
    var first := Write(j, indented, level + 1, after);
    var t := WriteBreak(indented, level + 1, first);
    assert t == WriteItems(items, indented, level, rest);
    BreakDelimits(indented, level, [93] + rest);
    ReadsWritten(j, indented, level + 1, after);
    WriteStartsValue(j, indented, level + 1, after);
    SkipsBreak(indented, level + 1, first);
    ReadSkips(t, first);
    if |items| == 1 {
      SkipsBreak(indented, level, [93] + rest);
      ReadItemsStep(t, j, after, [93] + rest);
      assert items == [j];
    } else {
      ReadsItems(items[1..], indented, level, rest);
      ReadItemsStep(t, j, after, after);
      assert items == [j] + items[1..];
    }
  }

  lemma ReadsKey(key: Text, rest: Text)
    ensures ReadKey([34] + WriteString(key, [58] + rest)) == Some((key, rest))
  {
    hide WriteString, ReadString, ReadKey;
    ReadsString(key, [58] + rest);
    KeyAndColon([34] + WriteString(key, [58] + rest), key, [58] + rest);
  }

  lemma KeyAndColon(t: Text, key: Text, tail: Text)
    requires t != [] && t[0] == 34 && ReadString(t[1..]) == Some((key, tail))
    requires tail != [] && tail[0] == 58
    ensures ReadKey(t) == Some((key, tail[1..]))
  {
    hide ReadString;
  }

  /** One member is read, and the closing brace or a comma and the others follow. */
  lemma ReadMembersStep(t: Text, afterKey: Text, m: Member<Json>, after: Text, u: Text)
    requires ReadKey(t) == Some((m.key, afterKey)) && Read(afterKey) == Some((m.value, after))
    requires SkipSpace(after) == u && u != []
    ensures u[0] == 125 ==> ReadMembers(t) == Some(([m], u[1..]))
    ensures u[0] == 44 && ReadMembers(u[1..]).Some? ==>
              ReadMembers(t) == Some(([m] + ReadMembers(u[1..]).value.0, ReadMembers(u[1..]).value.1))
  {
  }

  lemma KeySkips(a: Text, b: Text)
    requires SkipSpace(a) == SkipSpace(b)
    ensures ReadKey(a) == ReadKey(b)
  {
  }

  lemma ReadsSpacedValue(j: Json, indented: bool, level: nat, after: Text)
    requires WellFormed(j) && Delimits(after)
    requires Read(Write(j, indented, level, after)) == Some((j, after))
    ensures Read(WriteSpaces(if indented then 1 else 0, Write(j, indented, level, after))) == Some((j, after))
  {
    var value := Write(j, indented, level, after);
    SkipsSpaces(if indented then 1 else 0, value);
    ReadSkips(WriteSpaces(if indented then 1 else 0, value), value);
  }

  lemma {:induction false} ReadsMembers(ms: seq<Member<Json>>, indented: bool, level: nat, rest: Text)
    requires ms != [] && forall i :: 0 <= i < |ms| ==> WellFormed(ms[i].value)
    ensures var t := WriteMembers(ms, indented, level, rest);
            ReadMembers(t) == Some((ms, rest)) && StartsValue(SkipSpace(t))
    decreases ms
  {
    hide Write, WriteString, Read, ReadKey, ReadMembers, WriteSpaces;
    var m := ms[0];
    var after := if |ms| == 1 then WriteBreak(indented, level, [125] + rest)
                 else [44] + WriteMembers(ms[1..], indented, level, rest);
    BreakDelimits(indented, level, [125] + rest);
    ReadsWritten(m.value, indented, level + 1, after);
    ReadsSpacedValue(m.value, indented, level + 1, after);
    var spaced := WriteSpaces(if indented then 1 else 0, Write(m.value, indented, level + 1, after));
    var first := [34] + WriteString(m.key, [58] + spaced);
    var t := WriteBreak(indented, level + 1, first);
    assert t == WriteMembers(ms, indented, level, rest);
    ReadsKey(m.key, spaced);
    SkipsBreak(indented, level + 1, first);
    KeySkips(t, first);
    if |ms| == 1 {
      SkipsBreak(indented, level, [125] + rest);
      ReadMembersStep(t, spaced, m, after, [125] + rest);
      assert ms == [m];
    } else {
      ReadsMembers(ms[1..], indented, level, rest);
      ReadMembersStep(t, spaced, m, after, after);
      assert ms == [m] + ms[1..];
    }
  }

  /** A persisted value is read back as it was, whatever the layout. */
  lemma {:induction false} RoundTrip(j: Json, indented: bool)
    requires WellFormed(j)
    ensures Read(Stringify(j, indented)) == Some((j, []))
  {
    ReadsWritten(j, indented, 0, []);
  }

  // --------------------------------------------------------- key ordering

  /** The default order of `Array.prototype.sort` on strings: by code units. */
  predicate Less(a: Text, b: Text) {
    b != [] && (a == [] || a[0] < b[0] || (a[0] == b[0] && Less(a[1..], b[1..])))
  }

  lemma {:induction false} LessTrichotomy(a: Text, b: Text)
    ensures a == b || Less(a, b) || Less(b, a)
    ensures !(Less(a, b) && Less(b, a)) && !Less(a, a)
  {
    if a != [] && b != [] {
      LessTrichotomy(a[1..], b[1..]);
      assert a == [a[0]] + a[1..] && b == [b[0]] + b[1..];
    }
    if a != [] {
      LessTrichotomy(a[1..], a[1..]);
    }
  }

  lemma {:induction false} LessTransitive(a: Text, b: Text, c: Text)
    requires Less(a, b) && Less(b, c)
    ensures Less(a, c)
  {
    if a != [] && a[0] == b[0] == c[0] {
      LessTransitive(a[1..], b[1..], c[1..]);
    }
  }

  function InsertByKey<V>(m: Member<V>, ms: seq<Member<V>>): (r: seq<Member<V>>)
    ensures |r| == |ms| + 1
  {
    if ms == [] || Less(m.key, ms[0].key) then [m] + ms else [ms[0]] + InsertByKey(m, ms[1..])
  }

  function SortByKey<V>(ms: seq<Member<V>>): (r: seq<Member<V>>)
    ensures |r| == |ms|
  {
    if ms == [] then [] else InsertByKey(ms[0], SortByKey(ms[1..]))
  }

  // ------------------------------------------------------- canonical text

  function Join(ts: seq<Text>): Text {
    if ts == [] then [] else if |ts| == 1 then ts[0] else ts[0] + [44] + Join(ts[1..])
  }

  /** `JSON.stringify` of a string. */
  function Quote(s: Text): Text { [34] + WriteString(s, []) }

  /** `canonicalJson`. */
  function Canonical(j: Json): Text
    decreases j
  {
    match j
    case Arr(items) => [91] + Join(CanonicalItems(items)) + [93]
    case Obj(ms) => [123] + Join(MemberTexts(SortByKey(CanonicalMembers(ms)))) + [125]
    case _ => Stringify(j, false)
  }

  function CanonicalItems(items: seq<Json>): seq<Text>
    decreases items
  {
    if items == [] then [] else [Canonical(items[0])] + CanonicalItems(items[1..])
  }

  function CanonicalMembers(ms: seq<Member<Json>>): seq<Member<Text>>
    decreases ms
  {
    if ms == [] then [] else [Member(ms[0].key, Canonical(ms[0].value))] + CanonicalMembers(ms[1..])
  }

  function MemberTexts(ms: seq<Member<Text>>): seq<Text> {
    if ms == [] then [] else [Quote(ms[0].key) + [58] + ms[0].value] + MemberTexts(ms[1..])
  }

  // ----------------------------------------------------------- sorted form

  /** The value with the members of every object in key order. */
  function Sorted(j: Json): Json
    decreases j
  {
    match j
    case Arr(items) => Arr(SortedItems(items))
    case Obj(ms) => Obj(SortByKey(SortedMembers(ms)))
    case _ => j
  }

  function SortedItems(items: seq<Json>): (r: seq<Json>)
    ensures |r| == |items|
    ensures forall i :: 0 <= i < |r| ==> r[i] == Sorted(items[i])
    decreases items
  {
    if items == [] then [] else [Sorted(items[0])] + SortedItems(items[1..])
  }

  function SortedMembers(ms: seq<Member<Json>>): (r: seq<Member<Json>>)
    ensures |r| == |ms|
    ensures forall i :: 0 <= i < |r| ==> r[i] == Member(ms[i].key, Sorted(ms[i].value))
    decreases ms
  {
    if ms == [] then [] else [Member(ms[0].key, Sorted(ms[0].value))] + SortedMembers(ms[1..])
  }

  ghost predicate StrictlySorted<V>(ms: seq<Member<V>>) {
    forall i, j :: 0 <= i < j < |ms| ==> Less(ms[i].key, ms[j].key)
  }

  ghost predicate InOrder(j: Json)
    decreases j
  {
    match j
    case Arr(items) => forall i :: 0 <= i < |items| ==> InOrder(items[i])
    case Obj(ms) => StrictlySorted(ms) && forall i :: 0 <= i < |ms| ==> InOrder(ms[i].value)
    case _ => true
  }

  lemma {:induction false} InsertKeeps<V>(m: Member<V>, ms: seq<Member<V>>)
    ensures multiset(InsertByKey(m, ms)) == multiset(ms)[m := multiset(ms)[m] + 1]
  {
    if ms == [] || Less(m.key, ms[0].key) {
      assert multiset([m] + ms) == multiset([m]) + multiset(ms);
    } else {
      InsertKeeps(m, ms[1..]);
      assert ms == [ms[0]] + ms[1..];
    }
  }

  lemma {:induction false} InsertSorts<V>(m: Member<V>, ms: seq<Member<V>>)
    requires StrictlySorted(ms) && forall i :: 0 <= i < |ms| ==> ms[i].key != m.key
    ensures StrictlySorted(InsertByKey(m, ms))
  {
    if ms != [] {
      LessTrichotomy(m.key, ms[0].key);
      if Less(m.key, ms[0].key) {
        forall i | 0 < i < |ms| ensures Less(m.key, ms[i].key) {
          LessTransitive(m.key, ms[0].key, ms[i].key);
        }
      } else {
        InsertSorts(m, ms[1..]);
        InsertKeeps(m, ms[1..]);
        var r := InsertByKey(m, ms[1..]);
        forall i | 0 <= i < |r| ensures Less(ms[0].key, r[i].key) {
          assert r[i] in multiset(r);
          assert r[i] == m || r[i] in ms[1..];
        }
      }
    }
  }

  lemma {:induction false} SortKeeps<V>(ms: seq<Member<V>>)
    requires DistinctKeys(ms)
    ensures StrictlySorted(SortByKey(ms)) && multiset(SortByKey(ms)) == multiset(ms)
  {
    if ms != [] {
      SortKeeps(ms[1..]);
      assert ms == [ms[0]] + ms[1..];
      var r := SortByKey(ms[1..]);
      InsertKeeps(ms[0], r);
      forall i | 0 <= i < |r| ensures r[i].key != ms[0].key {
        assert r[i] in multiset(r);
        assert r[i] in ms[1..];
      }
      InsertSorts(ms[0], r);
    }
  }

  // ------------------------------------- the sorted form decides meaning

  /** The text of `j` followed by `rest`, compactly, is its own text and then `rest`. */
  lemma {:induction false} WriteAppends(j: Json, level: nat, rest: Text)
    ensures Write(j, false, level, rest) == Stringify(j, false) + rest
    decreases j, 1
  {
    match j
    case Str(t) =>
      StringAppends(t, rest);
      StringAppends(t, []);
    case Arr(items) =>
      if items != [] {
        ItemsAppend(items, level, rest);
        ItemsAppend(items, 0, []);
      }
    case Obj(ms) =>
      if ms != [] {
        MembersAppend(ms, level, rest);
        MembersAppend(ms, 0, []);
      }
    case _ =>
  }

  lemma {:induction false} StringAppends(s: Text, rest: Text)
    ensures WriteString(s, rest) == WriteString(s, []) + rest
    decreases |s|
  {
    hide EscapeUnit;
    if s != [] {
      if StartsWithPair(s) {
        StringAppends(s[2..], rest);
        PrefixStays([s[0]], [s[1]] + WriteString(s[2..], []), rest);
        PrefixStays([s[1]], WriteString(s[2..], []), rest);
      } else {
        StringAppends(s[1..], rest);
        PrefixStays(EscapeUnit(s[0]), WriteString(s[1..], []), rest);
      }
    }
  }

  lemma PrefixStays(a: Text, b: Text, c: Text)
    ensures a + (b + c) == (a + b) + c
  {
  }

  function Texts(items: seq<Json>): (r: seq<Text>)
    ensures |r| == |items|
  {
    if items == [] then [] else [Stringify(items[0], false)] + Texts(items[1..])
  }

  function TextMembers(ms: seq<Member<Json>>): (r: seq<Member<Text>>)
    ensures |r| == |ms|
    ensures forall i :: 0 <= i < |r| ==> r[i] == Member(ms[i].key, Stringify(ms[i].value, false))
  {
    if ms == [] then [] else [Member(ms[0].key, Stringify(ms[0].value, false))] + TextMembers(ms[1..])
  }

  lemma {:induction false} ItemsAppend(items: seq<Json>, level: nat, rest: Text)
    requires items != []
    ensures WriteItems(items, false, level, rest) == Join(Texts(items)) + [93] + rest
    decreases items, 0
  {
    var first := Stringify(items[0], false);
    if |items| == 1 {
      WriteAppends(items[0], level + 1, [93] + rest);
      assert first + ([93] + rest) == first + [93] + rest;
    } else {
      ItemsAppend(items[1..], level, rest);
      var others := Join(Texts(items[1..]));
      WriteAppends(items[0], level + 1, [44] + (others + [93] + rest));
      assert Texts(items)[1..] == Texts(items[1..]);
      assert first + ([44] + (others + [93] + rest)) == first + [44] + others + [93] + rest;
    }
  }

  lemma MemberAppends(m: Member<Json>, level: nat, end: Text)
    ensures [34] + WriteString(m.key, [58] + Write(m.value, false, level, end)) ==
            (Quote(m.key) + [58] + Stringify(m.value, false)) + end
  {
    var key := WriteString(m.key, []);
    var value := Stringify(m.value, false);
    WriteAppends(m.value, level, end);
    StringAppends(m.key, [58] + Write(m.value, false, level, end));
    Regroup(key, value, end);
  }

  lemma Regroup(key: Text, value: Text, end: Text)
    ensures [34] + (key + ([58] + (value + end))) == (([34] + key) + [58] + value) + end
  {
  }

  lemma {:induction false} MembersAppend(ms: seq<Member<Json>>, level: nat, rest: Text)
    requires ms != []
    ensures WriteMembers(ms, false, level, rest) == Join(MemberTexts(TextMembers(ms))) + [125] + rest
    decreases ms, 0
  {
    var texts := MemberTexts(TextMembers(ms));
    var end := if |ms| == 1 then [125] + rest else [44] + WriteMembers(ms[1..], false, level, rest);
    MemberAppends(ms[0], level + 1, end);
    assert WriteMembers(ms, false, level, rest) == texts[0] + end;
    if |ms| == 1 {
      JoinOne(texts);
      assert texts[0] + end == texts[0] + [125] + rest;
    } else {
      MembersAppend(ms[1..], level, rest);
      JoinMore(texts, MemberTexts(TextMembers(ms[1..])), rest);
    }
  }

  lemma JoinMore(texts: seq<Text>, others: seq<Text>, rest: Text)
    requires |texts| > 1 && texts[1..] == others
    ensures texts[0] + ([44] + (Join(others) + [125] + rest)) == Join(texts) + [125] + rest
  {
    var t := Join(others);
    assert texts[0] + ([44] + (t + [125] + rest)) == texts[0] + [44] + t + [125] + rest;
  }

  lemma JoinOne(ts: seq<Text>)
    requires |ts| == 1
    ensures Join(ts) == ts[0]
  {
  }

  lemma {:induction false} InsertMapped(m: Member<Json>, ms: seq<Member<Json>>)
    ensures InsertByKey(Member(m.key, Stringify(m.value, false)), TextMembers(ms)) == TextMembers(InsertByKey(m, ms))
  {
    if ms != [] {
      assert TextMembers(ms)[1..] == TextMembers(ms[1..]);
      if Less(m.key, ms[0].key) {
        assert ([m] + ms)[1..] == ms;
      } else {
        InsertMapped(m, ms[1..]);
        assert ([ms[0]] + InsertByKey(m, ms[1..]))[1..] == InsertByKey(m, ms[1..]);
      }
    }
  }

  lemma {:induction false} SortMapped(ms: seq<Member<Json>>)
    ensures SortByKey(TextMembers(ms)) == TextMembers(SortByKey(ms))
  {
    if ms != [] {
      assert TextMembers(ms)[1..] == TextMembers(ms[1..]);
      SortMapped(ms[1..]);
      InsertMapped(ms[0], SortByKey(ms[1..]));
    }
  }

  /** `canonicalJson` prints the value with its keys sorted as `JSON.stringify` would. */
  lemma {:induction false} CanonicalIsSorted(j: Json)
    ensures Canonical(j) == Stringify(Sorted(j), false)
    decreases j, 1
  {
    match j
    case Arr(items) =>
      CanonicalItemsSorted(items);
      if items != [] {
        ItemsAppend(SortedItems(items), 0, []);
      }
    case Obj(ms) =>
      CanonicalMembersSorted(ms);
      SortMapped(SortedMembers(ms));
      if ms != [] {
        MembersAppend(SortByKey(SortedMembers(ms)), 0, []);
      }
    case _ =>
  }

  lemma {:induction false} CanonicalItemsSorted(items: seq<Json>)
    ensures CanonicalItems(items) == Texts(SortedItems(items))
    decreases items, 0
  {
    if items != [] {
      CanonicalIsSorted(items[0]);
      CanonicalItemsSorted(items[1..]);
      assert SortedItems(items)[1..] == SortedItems(items[1..]);
    }
  }

  lemma {:induction false} CanonicalMembersSorted(ms: seq<Member<Json>>)
    ensures CanonicalMembers(ms) == TextMembers(SortedMembers(ms))
    decreases ms, 0
  {
    if ms != [] {
      CanonicalIsSorted(ms[0].value);
      CanonicalMembersSorted(ms[1..]);
      assert SortedMembers(ms)[1..] == SortedMembers(ms[1..]);
    }
  }

  // --------------------------------------------------------- main results

  lemma {:induction false} MeaningOfAt(ms: seq<Member<Json>>)
    requires DistinctKeys(ms)
    ensures forall k :: k in MeaningOf(ms) <==> exists i :: 0 <= i < |ms| && ms[i].key == k
    ensures forall i :: 0 <= i < |ms| ==> MeaningOf(ms)[ms[i].key] == Meaning(ms[i].value)
  {
    if ms != [] {
      MeaningOfAt(ms[1..]);
      assert ms == [ms[0]] + ms[1..];
    }
  }

  /** The map an object means depends only on which members it has. */
  lemma SameMembersSameMeaning(a: seq<Member<Json>>, b: seq<Member<Json>>)
    requires DistinctKeys(a) && DistinctKeys(b)
    requires forall i :: 0 <= i < |a| ==>
               exists k :: 0 <= k < |b| && a[i].key == b[k].key && Meaning(a[i].value) == Meaning(b[k].value)
    requires forall k :: 0 <= k < |b| ==> exists i :: 0 <= i < |a| && a[i].key == b[k].key
    ensures MeaningOf(a) == MeaningOf(b)
  {
    MeaningOfAt(a);
    MeaningOfAt(b);
  }

  /** Sorting keys keeps the meaning, and leaves every object in key order. */
  lemma {:induction false} SortedMeansSame(j: Json)
    requires WellFormed(j)
    ensures Meaning(Sorted(j)) == Meaning(j) && InOrder(Sorted(j)) && WellFormed(Sorted(j))
    decreases j
  {
    match j
    case Arr(items) =>
      forall i | 0 <= i < |items|
        ensures Meaning(SortedItems(items)[i]) == Meaning(items[i])
        ensures InOrder(SortedItems(items)[i]) && WellFormed(SortedItems(items)[i])
      {
        SortedMeansSame(items[i]);
      }
    case Obj(ms) =>
      forall i | 0 <= i < |ms|
        ensures Meaning(SortedMembers(ms)[i].value) == Meaning(ms[i].value)
        ensures InOrder(SortedMembers(ms)[i].value) && WellFormed(SortedMembers(ms)[i].value)
      {
        SortedMeansSame(ms[i].value);
      }
      SortedMembersMeanSame(ms, SortedMembers(ms));
    case _ =>
  }

  lemma SortedMembersMeanSame(ms: seq<Member<Json>>, ss: seq<Member<Json>>)
    requires DistinctKeys(ms) && |ss| == |ms|
    requires forall i :: 0 <= i < |ms| ==> ss[i].key == ms[i].key && Meaning(ss[i].value) == Meaning(ms[i].value)
    requires forall i :: 0 <= i < |ss| ==> InOrder(ss[i].value) && WellFormed(ss[i].value)
    ensures MeaningOf(SortByKey(ss)) == MeaningOf(ms)
    ensures InOrder(Obj(SortByKey(ss))) && WellFormed(Obj(SortByKey(ss)))
  {
    var r := SortByKey(ss);
    SortKeeps(ss);
    StrictlySortedDistinct(r);
    forall i | 0 <= i < |r|
      ensures exists k :: 0 <= k < |ms| && r[i].key == ms[k].key && Meaning(r[i].value) == Meaning(ms[k].value)
      ensures InOrder(r[i].value) && WellFormed(r[i].value)
    {
      var k := IndexIn(r, i, ss);
      assert r[i].key == ms[k].key && Meaning(r[i].value) == Meaning(ms[k].value);
    }
    forall k | 0 <= k < |ms| ensures exists i :: 0 <= i < |r| && r[i].key == ms[k].key {
      var i := IndexIn(ss, k, r);
      assert r[i].key == ms[k].key;
    }
    SameMembersSameMeaning(r, ms);
  }

  lemma IndexIn<V>(a: seq<Member<V>>, i: nat, b: seq<Member<V>>) returns (k: nat)
    requires i < |a| && multiset(a) == multiset(b)
    ensures k < |b| && b[k] == a[i]
  {
    assert a[i] in multiset(a);
    assert a[i] in b;
    k :| 0 <= k < |b| && b[k] == a[i];
  }

  /** Two values with every object in key order that mean the same are the same. */
  lemma {:induction false} OrderedFormUnique(a: Json, b: Json)
    requires InOrder(a) && InOrder(b) && Meaning(a) == Meaning(b)
    ensures a == b
    decreases a, 1
  {
    match a
    case Arr(items) =>
      forall i | 0 <= i < |items| ensures items[i] == b.items[i] {
        assert Meaning(items[i]) == Meaning(a).items[i] == Meaning(b).items[i] == Meaning(b.items[i]);
        OrderedFormUnique(items[i], b.items[i]);
      }
    case Obj(ms) => OrderedMembersUnique(ms, b.members);
    case _ =>
  }

  lemma StrictlySortedDistinct<V>(ms: seq<Member<V>>)
    requires StrictlySorted(ms)
    ensures DistinctKeys(ms)
  {
    forall i, j | 0 <= i < j < |ms| ensures ms[i].key != ms[j].key {
      LessTrichotomy(ms[i].key, ms[j].key);
    }
  }

  lemma FirstKeyLeast(a: seq<Member<Json>>, b: seq<Member<Json>>)
    requires StrictlySorted(a) && StrictlySorted(b) && a != [] && MeaningOf(a) == MeaningOf(b)
    ensures b != [] && !Less(a[0].key, b[0].key)
  {
    StrictlySortedDistinct(a);
    StrictlySortedDistinct(b);
    MeaningOfAt(a);
    MeaningOfAt(b);
    assert a[0].key in MeaningOf(b);
    var i :| 0 <= i < |b| && b[i].key == a[0].key;
    LessTrichotomy(b[0].key, b[i].key);
  }

  lemma {:induction false} OrderedMembersUnique(a: seq<Member<Json>>, b: seq<Member<Json>>)
    requires StrictlySorted(a) && StrictlySorted(b) && MeaningOf(a) == MeaningOf(b)
    requires forall i :: 0 <= i < |a| ==> InOrder(a[i].value)
    requires forall i :: 0 <= i < |b| ==> InOrder(b[i].value)
    ensures a == b
    decreases a, 0
  {
    if a == [] {
      if b != [] {
        FirstKeyLeast(b, a);
      }
    } else {
      FirstKeyLeast(a, b);
      FirstKeyLeast(b, a);
      LessTrichotomy(a[0].key, b[0].key);
      StrictlySortedDistinct(a);
      StrictlySortedDistinct(b);
      TailMeaning(a);
      TailMeaning(b);
      OrderedFormUnique(a[0].value, b[0].value);
      OrderedMembersUnique(a[1..], b[1..]);
      assert a == [a[0]] + a[1..] && b == [b[0]] + b[1..];
    }
  }

  lemma TailMeaning(ms: seq<Member<Json>>)
    requires DistinctKeys(ms) && ms != []
    ensures MeaningOf(ms[1..]) == MeaningOf(ms) - {ms[0].key}
    ensures ms[0].key in MeaningOf(ms) && MeaningOf(ms)[ms[0].key] == Meaning(ms[0].value)
  {
    var tail := ms[1..];
    var key := ms[0].key;
    MeaningOfAt(tail);
    assert key !in MeaningOf(tail);
    RemoveAdded(MeaningOf(tail), key, Meaning(ms[0].value));
  }

  lemma RemoveAdded<K, V>(m: map<K, V>, k: K, v: V)
    requires k !in m
    ensures m[k := v] - {k} == m
  {
  }

  /** Two JSON values have the same canonical text exactly when they are the same
      value up to the order of object keys, at every depth. */
  lemma CanonicalDecidesMeaning(a: Json, b: Json)
    requires WellFormed(a) && WellFormed(b)
    ensures Canonical(a) == Canonical(b) <==> Meaning(a) == Meaning(b)
  {
    CanonicalIsSorted(a);
    CanonicalIsSorted(b);
    SortedMeansSame(a);
    SortedMeansSame(b);
    if Canonical(a) == Canonical(b) {
      RoundTrip(Sorted(a), false);
      RoundTrip(Sorted(b), false);
    }
    if Meaning(a) == Meaning(b) {
      OrderedFormUnique(Sorted(a), Sorted(b));
    }
  }

  /** No canonical text is the beginning of a longer one: what follows a text,
      unless it continues a number, can be told from it. */
  lemma CanonicalSelfDelimiting(a: Json, b: Json, afterA: Text, afterB: Text)
    requires WellFormed(a) && WellFormed(b) && Delimits(afterA) && Delimits(afterB)
    requires Canonical(a) + afterA == Canonical(b) + afterB
    ensures Meaning(a) == Meaning(b) && afterA == afterB
  {
    CanonicalIsSorted(a);
    CanonicalIsSorted(b);
    SortedMeansSame(a);
    SortedMeansSame(b);
    WriteAppends(Sorted(a), 0, afterA);
    WriteAppends(Sorted(b), 0, afterB);
    ReadsWritten(Sorted(a), false, 0, afterA);
    ReadsWritten(Sorted(b), false, 0, afterB);
  }

  /** The key order is that of dictionaries: at the first unit in which two keys differ
      the smaller one comes first, and a key comes before what it begins. */
  lemma {:induction false} LessIsLexicographic(a: Text, b: Text)
    ensures Less(a, b) <==>
            exists k :: 0 <= k <= |a| && k < |b| && a[..k] == b[..k] && (k == |a| || a[k] < b[k])
  {
    if Less(a, b) {
      if a == [] || a[0] < b[0] {
        assert a[..0] == b[..0];
      } else {
        LessIsLexicographic(a[1..], b[1..]);
        var k :| 0 <= k <= |a[1..]| && k < |b[1..]| && a[1..][..k] == b[1..][..k]
                 && (k == |a[1..]| || a[1..][k] < b[1..][k]);
        assert a[..k + 1] == [a[0]] + a[1..][..k] && b[..k + 1] == [b[0]] + b[1..][..k];
      }
    }
    if k :| 0 <= k <= |a| && k < |b| && a[..k] == b[..k] && (k == |a| || a[k] < b[k]) {
      if k > 0 {
        assert a[0] == a[..k][0] == b[..k][0] == b[0];
        assert a[1..][..k - 1] == a[..k][1..] == b[..k][1..] == b[1..][..k - 1];
        LessIsLexicographic(a[1..], b[1..]);
      }
    }
  }

  /** The canonical text is what `JSON.stringify` prints of the same value with the keys
      of every object in that order, and it is read back as that value. */
  lemma CanonicalText(j: Json)
    requires WellFormed(j)
    ensures Canonical(j) == Stringify(Sorted(j), false) && Read(Canonical(j)) == Some((Sorted(j), []))
    ensures Meaning(Sorted(j)) == Meaning(j) && InOrder(Sorted(j))
  {
    hide Read, Write, InOrder, Meaning, Canonical;
    CanonicalIsSorted(j);
    SortedMeansSame(j);
    RoundTrip(Sorted(j), false);
  }

  /** Writing a value to the journal and reading it back leaves its canonical text
      as it was, even if the reader puts the keys of objects in another order. */
  lemma {:induction false} CanonicalSurvivesJournal(j: Json, reread: Json)
    requires WellFormed(j) && WellFormed(reread)
    requires Read(Stringify(j, true)).Some? ==> Meaning(reread) == Meaning(Read(Stringify(j, true)).value.0)
    ensures Canonical(reread) == Canonical(j)
  {
    RoundTrip(j, true);
    CanonicalDecidesMeaning(reread, j);
  }

  /** Two strings print alike only if they are the same. */
  lemma QuoteInjective(a: Text, b: Text)
    requires Quote(a) == Quote(b)
    ensures a == b
  {
    ReadsString(a, []);
    ReadsString(b, []);
    assert WriteString(a, []) == Quote(a)[1..] == Quote(b)[1..] == WriteString(b, []);
  }
}
