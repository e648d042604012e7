/** What the canonicaliser of contract-params.ts makes of an argument, said of the
    JavaScript values and the parameters alone: a relation between the two, which holds
    of exactly the parameters that come out. */
module ContractParamsMeaning {
  import opened JsText
  import opened Numerals
  import opened ContractParams
  import opened ContractParamsCanonical
  import opened ContractParamsFixpoint
  import Base64
  import CanonicalJson

  // ---------------------------------------------------------------- leaves

  /** The text is the one way to write the integer, and the virtual machine can hold it. */
  predicate IsIntegerText(t: Text, n: int) { IsCanonicalInteger(t) && IntegerOf(t) == n && InVmRange(n) }

  predicate IsSafeInteger(v: Value, n: int) {
    v == Num(Some(n)) && -MAX_SAFE_INTEGER <= n <= MAX_SAFE_INTEGER
  }

  /** The text is a script hash with or without `0x`, and `h` the hash in lower case. */
  predicate IsScriptHash(t: Text, h: Text) {
    || (IsHex(t, 40) && IsLowerOf(t, h))
    || (|t| == 42 && t[..2] == [48, 120] && IsHex(t[2..], 40) && IsLowerOf(t[2..], h))
  }

  /** The text is an address and no hash, and `h` its script hash in lower case. */
  predicate IsAddressOf(env: Env, t: Text, h: Text) {
    && !IsHash160Text(t)
    && env.scriptHash(t).Some? && IsHex(env.scriptHash(t).value, 40) && IsLowerOf(env.scriptHash(t).value, h)
  }

  /** The value of a typed object means the text of a parameter of that kind. */
  predicate LeafMeans(env: Env, kind: Kind, v: Value, t: Text) {
    match kind
    case IntegerKind =>
      IsCanonicalInteger(t) && InVmRange(IntegerOf(t)) && (v == Str(t) || IsSafeInteger(v, IntegerOf(t)))
    case StringKind => v == Str(t)
    case ByteArrayKind => v == Str(t) && Base64.IsCanonical(t)
    case Hash160Kind => v.Str? && (IsScriptHash(v.text, t) || IsAddressOf(env, v.text, t))
    case Hash256Kind => v.Str? && IsHex(v.text, 64) && IsLowerOf(v.text, t)
    case PublicKeyKind => v.Str? && IsKeyText(v.text) && env.curvePoint(v.text) && IsLowerOf(v.text, t)
    case _ => false
  }

  predicate LooksLikeAddress(t: Text) { |t| == 34 && forall i :: 0 <= i < |t| ==> IsAlphanumeric(t[i]) }

  /** A bare string means a hash if it is one or an address of one, and itself if not. */
  predicate StringMeans(env: Env, t: Text, p: Param) {
    p.Leaf? &&
    match p.kind
    case Hash160Kind => IsScriptHash(t, p.text) || (LooksLikeAddress(t) && IsAddressOf(env, t, p.text))
    case StringKind =>
      p.text == t && !IsHash160Text(t)
      && !(LooksLikeAddress(t) && env.scriptHash(t).Some? && IsHex(env.scriptHash(t).value, 40))
    case _ => false
  }

  /** A value that is not an object means the parameter. */
  predicate PrimitiveMeans(env: Env, v: Value, p: Param) {
    match v
    case Null => p == Any
    case Bool(b) => p == Boolean(b)
    case Num(_) => p.Leaf? && p.kind.IntegerKind? && LeafMeans(env, IntegerKind, v, p.text)
    case Big(n) => p.Leaf? && p.kind.IntegerKind? && IsIntegerText(p.text, n)
    case Str(t) => StringMeans(env, t, p)
    case Bytes(b) => p.Leaf? && p.kind.ByteArrayKind? && Base64.IsCanonical(p.text) && Base64.Decode(p.text) == b
    case _ => false
  }

  // ------------------------------------------------------------- the relation

  /** A value, at its depth, means the parameter. */
  predicate Means(env: Env, v: Value, p: Param, depth: nat)
    decreases Levels(depth), 3, 0
  {
    depth <= MAX_PARAMETER_DEPTH &&
    if IsObject(v) then ObjectMeans(env, ObjectOf(env, v), p, depth) else PrimitiveMeans(env, v, p)
  }

  /** An array means its items in their order, an object with `toJson` what that returns,
      an object with a type what it says, and a plain object its names and what they
      mean, in their order. */
  predicate ObjectMeans(env: Env, o: Object, p: Param, depth: nat)
    requires depth <= MAX_PARAMETER_DEPTH
    decreases Levels(depth), 2, 0
  {
    match o
    case Arr(items) => p.Array? && ListMeans(env, items, p.items, depth + 1)
    case Rec(names, values, plain, toJson) =>
      if toJson.Some? then Means(env, toJson.value, p, depth + 1)
      else if Has(o, Ascii("type")) then
        Property(o, Ascii("type")) == Str(TypeName(KindOf(p))) && TypedMeans(env, Property(o, Ascii("value")), p, depth)
      else plain && p.Map? && PropertiesMean(env, o, 0, p.entries, depth + 1)
  }

  /** The value of a typed object of the parameter's kind means the parameter. */
  predicate TypedMeans(env: Env, v: Value, p: Param, depth: nat)
    requires depth <= MAX_PARAMETER_DEPTH
    decreases Levels(depth), 1, 0
  {
    match p
    case Any => v == Null
    case Boolean(b) => v == Bool(b)
    case Leaf(kind, t) => LeafMeans(env, kind, v, t)
    case Array(items) => IsArray(env, v) && ListMeans(env, ObjectOf(env, v).items, items, depth + 1)
    case Map(entries) =>
      IsArray(env, v) && EntriesMean(env, ObjectOf(env, v).items, entries, depth + 1) && KeysAreDistinct(entries)
  }

  predicate ListMeans(env: Env, vs: seq<Value>, ps: seq<Param>, depth: nat)
    decreases Levels(depth), 4, 0
  {
    |vs| == |ps| && forall i :: 0 <= i < |vs| ==> Means(env, vs[i], ps[i], depth)
  }

  /** The properties from the i-th on. */
  predicate PropertiesMean(env: Env, o: Object, i: nat, es: seq<Entry>, depth: nat)
    requires o.Rec?
    decreases Levels(depth), 4, 0
  {
    i + |es| == |o.names|
    && forall k :: 0 <= k < |es| ==> PropertyMeans(env, o, i + k, es[k], depth)
  }

  predicate PropertyMeans(env: Env, o: Object, i: nat, e: Entry, depth: nat)
    requires o.Rec? && i < |o.names|
    decreases Levels(depth), 3, 1
  {
    e.key == Leaf(StringKind, o.names[i]) && Means(env, ValueAt(o, i), e.value, depth)
  }

  predicate EntriesMean(env: Env, vs: seq<Value>, es: seq<Entry>, depth: nat)
    decreases Levels(depth), 5, 0
  {
    |vs| == |es| && forall i :: 0 <= i < |vs| ==> EntryMeans(env, vs[i], es[i], depth)
  }

  predicate EntryMeans(env: Env, v: Value, e: Entry, depth: nat)
    decreases Levels(depth), 4, 0
  {
    IsEntry(env, v) && IsKeyKind(KindOf(e.key))
    && Means(env, KeyOf(env, v), e.key, depth) && Means(env, ValueOf(env, v), e.value, depth)
  }

  predicate KeysAreDistinct(es: seq<Entry>) { forall i, j :: 0 <= i < j < |es| ==> es[i].key != es[j].key }

  // ---------------------------------------------------------- values visited

  /** How many values are visited, those that `toJson` replaces among them. */
  function Visits(env: Env, v: Value, depth: nat): (n: nat)
    ensures n >= 1
    decreases Levels(depth), 3, 0
  {
    if depth > MAX_PARAMETER_DEPTH || !IsObject(v) then 1 else 1 + VisitsIn(env, ObjectOf(env, v), depth)
  }

  function VisitsIn(env: Env, o: Object, depth: nat): nat
    requires depth <= MAX_PARAMETER_DEPTH
    decreases Levels(depth), 2, 0
  {
    match o
    case Arr(items) => VisitsOfList(env, items, depth + 1)
    case Rec(names, values, plain, toJson) =>
      if toJson.Some? then Visits(env, toJson.value, depth + 1)
      else if Has(o, Ascii("type")) then VisitsInTyped(env, o, depth)
      else VisitsOfProperties(env, o, 0, depth + 1)
  }

  function VisitsInTyped(env: Env, o: Object, depth: nat): nat
    requires o.Rec? && depth <= MAX_PARAMETER_DEPTH
    decreases Levels(depth), 1, 0
  {
    var v := Property(o, Ascii("value"));
    if !IsArray(env, v) then 0
    else if Property(o, Ascii("type")) == Str(TypeName(ArrayKind)) then
      VisitsOfList(env, ObjectOf(env, v).items, depth + 1)
    else if Property(o, Ascii("type")) == Str(TypeName(MapKind)) then
      VisitsOfEntries(env, ObjectOf(env, v).items, depth + 1)
    else 0
  }

  function VisitsOfList(env: Env, vs: seq<Value>, depth: nat): nat
    decreases Levels(depth), 4, |vs|
  {
    if vs == [] then 0 else Visits(env, vs[0], depth) + VisitsOfList(env, vs[1..], depth)
  }

  function VisitsOfProperties(env: Env, o: Object, i: nat, depth: nat): nat
    requires o.Rec? && i <= |o.names|
    decreases Levels(depth), 4, |o.names| - i
  {
    if i == |o.names| then 0 else Visits(env, ValueAt(o, i), depth) + VisitsOfProperties(env, o, i + 1, depth)
  }

  function VisitsOfEntries(env: Env, es: seq<Value>, depth: nat): nat
    decreases Levels(depth), 5, |es|
  {
    if es == [] then 0 else VisitsOfEntry(env, es[0], depth) + VisitsOfEntries(env, es[1..], depth)
  }

  function VisitsOfEntry(env: Env, v: Value, depth: nat): nat
    decreases Levels(depth), 4, 0
  {
    if IsEntry(env, v) then Visits(env, KeyOf(env, v), depth) + Visits(env, ValueOf(env, v), depth) else 0
  }

  // ------------------------------------------------- leaves mean what comes out

  lemma IntegerTextIs(t: Text, n: int)
    ensures t == SignedDecimal(n) <==> IsCanonicalInteger(t) && IntegerOf(t) == n
  {
    hide IsCanonicalInteger, IntegerOf, SignedDecimal;
    SignedDecimalIsCanonical(n);
    if IsCanonicalInteger(t) {
      SignedOfCanonical(t);
    }
  }

  lemma IntegerExact(env: Env, v: Value, t: Text)
    ensures NormalizeInteger(v) == Ok(t) <==> LeafMeans(env, IntegerKind, v, t)
  {
    hide IsCanonicalInteger, IntegerOf, SignedDecimal, InVmRange;
    match v
    case Num(integer) =>
      if integer.Some? { IntegerTextIs(t, integer.value); }
    case Str(s) =>
      if IsCanonicalInteger(s) {
        IntegerTextIs(s, IntegerOf(s));
        IntegerTextIs(t, IntegerOf(s));
      }
    case _ =>
  }

  lemma BigExact(n: int, t: Text)
    ensures BoundedInteger(n) == Ok(t) <==> IsIntegerText(t, n)
  {
    hide IsCanonicalInteger, IntegerOf, SignedDecimal, InVmRange;
    IntegerTextIs(t, n);
  }

  lemma HashTextExact(t: Text, h: Text)
    ensures IsScriptHash(t, h) <==> IsHash160Text(t) && h == Lower(StripPrefix(t))
  {
    hide IsLowerOf, Lower;
    if IsHex(t, 40) {
      assert IsHexDigit(t[1]);
      LowerIs(t, h);
    } else if |t| == 42 && t[..2] == [48, 120] && IsHex(t[2..], 40) {
      assert t[0] == t[..2][0] && t[1] == t[..2][1];
      LowerIs(t[2..], h);
    }
  }

  lemma AddressExact(env: Env, t: Text, h: Text)
    ensures IsAddressOf(env, t, h) <==> !IsHash160Text(t) && AddressHash(env, t) == Some(h)
  {
    hide IsLowerOf, Lower, IsHash160Text;
    if env.scriptHash(t).Some? && IsHex(env.scriptHash(t).value, 40) {
      LowerIs(env.scriptHash(t).value, h);
    }
  }

  lemma TypedLeafExact(env: Env, kind: Kind, v: Value, p: Param)
    requires !kind.ArrayKind? && !kind.MapKind?
    ensures FormatTypedLeaf(env, kind, v) == Ok(p) <==> KindOf(p) == kind && TypedMeans(env, v, p, 0)
  {
    hide NormalizeInteger, StripPrefix, AddressHash, IsHash160Text, IsScriptHash, IsAddressOf, IsLowerOf, IsKeyText,
         IsHex, ListMeans, EntriesMean, KeysAreDistinct, Lower;
    if p.Leaf? {
      match kind
      case IntegerKind => IntegerExact(env, v, p.text);
      case Hash160Kind =>
        if v.Str? {
          HashTextExact(v.text, p.text);
          AddressExact(env, v.text, p.text);
        }
      case Hash256Kind =>
        if v.Str? && IsHex(v.text, 64) { HexLower(v.text, 64, p.text); }
      case PublicKeyKind =>
        if v.Str? && IsKeyText(v.text) {
          KeyIsHex(v.text);
          HexLower(v.text, 66, p.text);
        }
      case _ =>
    }
  }

  lemma HexLower(t: Text, n: nat, h: Text)
    requires IsHex(t, n)
    ensures IsLowerOf(t, h) <==> h == Lower(t)
  {
    LowerIs(t, h);
  }

  lemma KeyIsHex(t: Text)
    requires IsKeyText(t)
    ensures IsHex(t, 66)
  {
  }

  lemma StringExact(env: Env, t: Text, p: Param)
    ensures FormatString(env, t) == p <==> StringMeans(env, t, p)
  {
    hide StripPrefix, IsHash160Text, IsScriptHash, IsAddressOf, Lower, IsAlphanumeric;
    if p.Leaf? {
      HashTextExact(t, p.text);
      AddressExact(env, t, p.text);
    }
  }

  lemma PrimitiveExact(env: Env, v: Value, p: Param)
    requires !IsObject(v)
    ensures FormatPrimitive(env, v) == Ok(p) <==> PrimitiveMeans(env, v, p)
  {
    hide FormatString, StringMeans, NormalizeInteger, BoundedInteger, IsIntegerText, LeafMeans;
    match v
    case Str(t) => StringExact(env, t, p);
    case Num(_) =>
      if p.Leaf? { IntegerExact(env, v, p.text); }
    case Big(n) =>
      if p.Leaf? { BigExact(n, p.text); }
    case Bytes(b) =>
      Base64.EncodingIsCanonical(b);
      Base64.RoundTrip(b);
    case _ =>
  }

  // ------------------------------------------------------ keys and identities

  /** The name of a kind has no colon, so it ends where the first one stands. */
  lemma NoColon(kind: Kind, i: nat)
    requires i < |TypeName(kind)|
    ensures TypeName(kind)[i] != 58
  {
  }

  function KeyText(key: Param): Text
    requires IsKeyKind(KindOf(key))
  {
    if key.Boolean? then if key.b then Ascii("true") else Ascii("false") else CanonicalJson.Quote(key.text)
  }

  lemma IdentityParts(key: Param)
    requires IsKeyKind(KindOf(key))
    ensures KeyIdentity(key) == TypeName(KindOf(key)) + [58] + KeyText(key)
  {
  }

  lemma ColonSplits(a: Text, b: Text, x: Text, y: Text)
    requires a + [58] + x == b + [58] + y && |a| <= |b|
    requires forall i :: 0 <= i < |b| ==> b[i] != 58
    ensures a == b && x == y
  {
    var t := a + [58] + x;
    assert t[|a|] == 58;
    assert |a| == |b|;
    assert a == t[..|a|] == b;
    assert x == t[|a| + 1..] == y;
  }

  lemma KeyTextInjective(a: Param, b: Param)
    requires IsKeyKind(KindOf(a)) && KindOf(a) == KindOf(b) && KeyText(a) == KeyText(b)
    ensures a == b
  {
    assert |Ascii("true")| == 4 && |Ascii("false")| == 5 && Ascii("true")[0] == 116 && Ascii("false")[0] == 102;
    if a.Leaf? { QuoteStarts(a.text); }
    if b.Leaf? { QuoteStarts(b.text); }
    if a.Leaf? && b.Leaf? {
      CanonicalJson.QuoteInjective(a.text, b.text);
    }
  }

  lemma QuoteStarts(t: Text)
    ensures |CanonicalJson.Quote(t)| > 0 && CanonicalJson.Quote(t)[0] == 34
  {
  }

  lemma IdentityInjective(a: Param, b: Param)
    requires IsKeyKind(KindOf(a)) && IsKeyKind(KindOf(b)) && KeyIdentity(a) == KeyIdentity(b)
    ensures a == b
  {
    hide KeyIdentity, TypeName, KeyText;
    IdentityParts(a);
    IdentityParts(b);
    forall k, i | 0 <= i < |TypeName(k)| ensures TypeName(k)[i] != 58 { NoColon(k, i); }
    var x, y := TypeName(KindOf(a)), TypeName(KindOf(b));
    if |x| <= |y| {
      ColonSplits(x, y, KeyText(a), KeyText(b));
    } else {
      ColonSplits(y, x, KeyText(b), KeyText(a));
    }
    KindIsNamed(KindOf(a));
    KindIsNamed(KindOf(b));
    KeyTextInjective(a, b);
  }

  /** The keys of the entries are none of those before, and not one of each other. */
  predicate Fresh(es: seq<Entry>, keys: set<Text>)
    decreases |es|
  {
    es == [] ||
    (IsKeyKind(KindOf(es[0].key)) && KeyIdentity(es[0].key) !in keys
     && Fresh(es[1..], keys + {KeyIdentity(es[0].key)}))
  }

  lemma {:induction false} FreshExact(es: seq<Entry>, keys: set<Text>)
    requires forall i :: 0 <= i < |es| ==> IsKeyKind(KindOf(es[i].key))
    ensures Fresh(es, keys) <==>
            KeysAreDistinct(es) && forall i :: 0 <= i < |es| ==> KeyIdentity(es[i].key) !in keys
    decreases |es|
  {
    hide KeyIdentity, IsKeyKind;
    if es != [] {
      var id := KeyIdentity(es[0].key);
      var rest := es[1..];
      FreshExact(rest, keys + {id});
      assert forall i :: 0 <= i < |rest| ==> rest[i] == es[i + 1];
      assert forall i :: 0 < i < |es| ==> es[i] == rest[i - 1];
      forall i | 0 < i < |es|
        ensures KeyIdentity(es[i].key) == id <==> es[i].key == es[0].key
      {
        if KeyIdentity(es[i].key) == id {
          IdentityInjective(es[i].key, es[0].key);
        }
      }
    }
  }

  lemma AllFresh(es: seq<Entry>)
    requires forall i :: 0 <= i < |es| ==> IsKeyKind(KindOf(es[i].key))
    ensures Fresh(es, {}) <==> KeysAreDistinct(es)
  {
    hide KeyIdentity, IsKeyKind;
    FreshExact(es, {});
  }

  // ------------------------------------------------------------- the recursion

  lemma {:induction false} FormatExact(env: Env, v: Value, nodes: nat, depth: nat, p: Param)
    requires nodes <= MAX_PARAMETER_NODES
    ensures var n := nodes + Visits(env, v, depth);
            && (Format(env, v, nodes, depth) == Ok(Done(p, n)) <==> Means(env, v, p, depth) && n <= MAX_PARAMETER_NODES)
            && (Format(env, v, nodes, depth).Ok? ==> Format(env, v, nodes, depth).value.nodes == n)
    decreases Levels(depth), 3, 0
  {
    hide FormatObject, FormatPrimitive, PrimitiveMeans, ObjectMeans, VisitsIn;
    if nodes + 1 <= MAX_PARAMETER_NODES && depth <= MAX_PARAMETER_DEPTH {
      if IsObject(v) {
        ObjectExact(env, ObjectOf(env, v), nodes + 1, depth, p);
      } else {
        PrimitiveExact(env, v, p);
      }
    }
  }

  lemma {:induction false} ObjectExact(env: Env, o: Object, nodes: nat, depth: nat, p: Param)
    requires depth <= MAX_PARAMETER_DEPTH && nodes <= MAX_PARAMETER_NODES
    ensures var n := nodes + VisitsIn(env, o, depth);
            && (FormatObject(env, o, nodes, depth) == Ok(Done(p, n)) <==>
                ObjectMeans(env, o, p, depth) && n <= MAX_PARAMETER_NODES)
            && (FormatObject(env, o, nodes, depth).Ok? ==> FormatObject(env, o, nodes, depth).value.nodes == n)
    decreases Levels(depth), 2, 0
  {
    hide FormatTyped, FormatList, FormatProperties, Format, Means, ListMeans, PropertiesMean, TypedMeans, Has, Property;
    hide Visits, VisitsOfList, VisitsOfProperties, VisitsInTyped;
    match o
    case Arr(items) => ListExact(env, items, nodes, depth + 1, if p.Array? then p.items else []);
    case Rec(names, values, plain, toJson) =>
      if toJson.Some? {
        FormatExact(env, toJson.value, nodes, depth + 1, p);
      } else if Has(o, Ascii("type")) {
        TypedExact(env, o, nodes, depth, p);
      } else {
        PropertiesExact(env, o, 0, nodes, depth + 1, if p.Map? then p.entries else []);
      }
  }

  lemma {:induction false} TypedExact(env: Env, o: Object, nodes: nat, depth: nat, p: Param)
    requires o.Rec? && depth <= MAX_PARAMETER_DEPTH && nodes <= MAX_PARAMETER_NODES
    ensures var n := nodes + VisitsInTyped(env, o, depth);
            var typed := Property(o, Ascii("type"));
            && (FormatTyped(env, o, nodes, depth) == Ok(Done(p, n)) <==>
                typed == Str(TypeName(KindOf(p))) && TypedMeans(env, Property(o, Ascii("value")), p, depth)
                && n <= MAX_PARAMETER_NODES)
            && (FormatTyped(env, o, nodes, depth).Ok? ==> FormatTyped(env, o, nodes, depth).value.nodes == n)
    decreases Levels(depth), 1, 0
  {
    hide FormatKind, Property, KindNamed, TypeName, TypedMeans, VisitsOfList, VisitsOfEntries;
    var typed := Property(o, Ascii("type"));
    KindIsNamed(KindOf(p));
    KindIsNamed(ArrayKind);
    KindIsNamed(MapKind);
    if typed.Str? && KindNamed(typed.text).Some? {
      var kind := KindNamed(typed.text).value;
      NameOfKind(typed.text);
      KindExact(env, kind, Property(o, Ascii("value")), nodes, depth, p);
    }
  }

  lemma NameOfKind(t: Text)
    requires KindNamed(t).Some?
    ensures TypeName(KindNamed(t).value) == t
  {
  }

  /** The values in the value of a typed object. */
  function VisitsOfKind(env: Env, kind: Kind, v: Value, depth: nat): nat
    requires depth <= MAX_PARAMETER_DEPTH
  {
    if !IsArray(env, v) then 0
    else if kind.ArrayKind? then VisitsOfList(env, ObjectOf(env, v).items, depth + 1)
    else if kind.MapKind? then VisitsOfEntries(env, ObjectOf(env, v).items, depth + 1)
    else 0
  }

  lemma {:induction false} KindExact(env: Env, kind: Kind, v: Value, nodes: nat, depth: nat, p: Param)
    requires depth <= MAX_PARAMETER_DEPTH && nodes <= MAX_PARAMETER_NODES
    ensures var n := nodes + VisitsOfKind(env, kind, v, depth);
            && (FormatKind(env, kind, v, nodes, depth) == Ok(Done(p, n)) <==>
                KindOf(p) == kind && TypedMeans(env, v, p, depth) && n <= MAX_PARAMETER_NODES)
            && (FormatKind(env, kind, v, nodes, depth).Ok? ==> FormatKind(env, kind, v, nodes, depth).value.nodes == n)
    decreases Levels(depth), 0, 0
  {
    hide FormatList, FormatEntries, FormatTypedLeaf, LeafMeans, ListMeans, EntriesMean, KeysAreDistinct;
    hide VisitsOfList, VisitsOfEntries;
    match kind
    case ArrayKind =>
      if IsArray(env, v) {
        ListExact(env, ObjectOf(env, v).items, nodes, depth + 1, if p.Array? then p.items else []);
      }
      LeafIsNoArray(env, v, p);
    case MapKind =>
      if IsArray(env, v) {
        MapExact(env, ObjectOf(env, v).items, nodes, depth + 1, if p.Map? then p.entries else []);
      }
      LeafIsNoArray(env, v, p);
    case _ =>
      TypedLeafExact(env, kind, v, p);
      if KindOf(p) == kind { SameLeaf(env, kind, v, p, depth); }
  }

  lemma LeafIsNoArray(env: Env, v: Value, p: Param)
    ensures p.Leaf? && (p.kind.ArrayKind? || p.kind.MapKind?) ==> !LeafMeans(env, p.kind, v, p.text)
  {
  }

  lemma SameLeaf(env: Env, kind: Kind, v: Value, p: Param, depth: nat)
    requires KindOf(p) == kind && !kind.ArrayKind? && !kind.MapKind? && depth <= MAX_PARAMETER_DEPTH
    ensures TypedMeans(env, v, p, depth) <==> TypedMeans(env, v, p, 0)
  {
    hide LeafMeans;
  }

  lemma {:induction false} ListExact(env: Env, vs: seq<Value>, nodes: nat, depth: nat, ps: seq<Param>)
    requires nodes <= MAX_PARAMETER_NODES
    ensures var n := nodes + VisitsOfList(env, vs, depth);
            && (FormatList(env, vs, nodes, depth) == Ok(Done(ps, n)) <==>
                ListMeans(env, vs, ps, depth) && n <= MAX_PARAMETER_NODES)
            && (FormatList(env, vs, nodes, depth).Ok? ==> FormatList(env, vs, nodes, depth).value.nodes == n)
    decreases Levels(depth), 4, |vs|
  {
    hide Format, Means, Visits;
    if vs != [] {
      var m := nodes + Visits(env, vs[0], depth);
      var first := Format(env, vs[0], nodes, depth);
      FormatBound(env, vs[0], nodes, depth);
      if first.Ok? {
        ListExact(env, vs[1..], m, depth, if ps != [] then ps[1..] else []);
        if ps != [] { ListSplits(env, vs, ps, depth); }
        var rest := FormatList(env, vs[1..], m, depth);
        if rest.Ok? {
          var all := [first.value.value] + rest.value.value;
          assert all[0] == first.value.value && all[1..] == rest.value.value;
          assert ps != [] ==> ps == [ps[0]] + ps[1..];
        }
      }
      if ps != [] { FormatExact(env, vs[0], nodes, depth, ps[0]); ListSplits(env, vs, ps, depth); }
    }
  }

  lemma ListSplits(env: Env, vs: seq<Value>, ps: seq<Param>, depth: nat)
    requires vs != [] && ps != []
    ensures ListMeans(env, vs, ps, depth) <==>
            Means(env, vs[0], ps[0], depth) && ListMeans(env, vs[1..], ps[1..], depth)
  {
    hide Means;
    if |vs| == |ps| {
      assert forall i :: 0 < i < |vs| ==> vs[i] == vs[1..][i - 1] && ps[i] == ps[1..][i - 1];
    }
  }

  lemma FormatBound(env: Env, v: Value, nodes: nat, depth: nat)
    requires nodes <= MAX_PARAMETER_NODES
    ensures Format(env, v, nodes, depth).Ok? ==>
              && Format(env, v, nodes, depth).value.nodes == nodes + Visits(env, v, depth) <= MAX_PARAMETER_NODES
              && Means(env, v, Format(env, v, nodes, depth).value.value, depth)
    decreases Levels(depth), 3, 1
  {
    hide Format, Means, Visits;
    if Format(env, v, nodes, depth).Ok? {
      FormatExact(env, v, nodes, depth, Format(env, v, nodes, depth).value.value);
    }
  }

  lemma {:induction false} PropertiesExact(env: Env, o: Object, i: nat, nodes: nat, depth: nat, es: seq<Entry>)
    requires o.Rec? && i <= |o.names| && nodes <= MAX_PARAMETER_NODES
    ensures var n := nodes + VisitsOfProperties(env, o, i, depth);
            var r := FormatProperties(env, o, i, nodes, depth);
            && (r == Ok(Done(es, n)) <==> PropertiesMean(env, o, i, es, depth) && n <= MAX_PARAMETER_NODES)
            && (r.Ok? ==> r.value.nodes == n)
    decreases Levels(depth), 4, |o.names| - i
  {
    hide Format, Means, Visits;
    if i < |o.names| {
      var m := nodes + Visits(env, ValueAt(o, i), depth);
      var first := Format(env, ValueAt(o, i), nodes, depth);
      FormatBound(env, ValueAt(o, i), nodes, depth);
      if first.Ok? {
        PropertiesExact(env, o, i + 1, m, depth, if es != [] then es[1..] else []);
        var rest := FormatProperties(env, o, i + 1, m, depth);
        if rest.Ok? {
          var all := [Entry(Leaf(StringKind, o.names[i]), first.value.value)] + rest.value.value;
          assert all[0] == Entry(Leaf(StringKind, o.names[i]), first.value.value) && all[1..] == rest.value.value;
          assert es != [] ==> es == [es[0]] + es[1..];
        }
      }
      if es != [] {
        FormatExact(env, ValueAt(o, i), nodes, depth, es[0].value);
        PropertiesSplit(env, o, i, es, depth);
      }
    }
  }

  lemma PropertiesSplit(env: Env, o: Object, i: nat, es: seq<Entry>, depth: nat)
    requires o.Rec? && i < |o.names| && es != []
    ensures PropertiesMean(env, o, i, es, depth) <==>
            PropertyMeans(env, o, i, es[0], depth) && PropertiesMean(env, o, i + 1, es[1..], depth)
  {
    hide PropertyMeans;
    if i + |es| == |o.names| {
      var rest := es[1..];
      assert forall k :: 0 < k < |es| ==> es[k] == rest[k - 1];
      if PropertiesMean(env, o, i + 1, rest, depth) {
        forall k | 0 < k < |es|
          ensures PropertyMeans(env, o, i + k, es[k], depth) <==>
                  PropertyMeans(env, o, i + 1 + (k - 1), rest[k - 1], depth)
        {
        }
      }
    }
  }

  lemma {:induction false} EntriesExact(env: Env, vs: seq<Value>, nodes: nat, depth: nat, keys: set<Text>,
                                        es: seq<Entry>)
    requires nodes <= MAX_PARAMETER_NODES
    ensures var n := nodes + VisitsOfEntries(env, vs, depth);
            var r := FormatEntries(env, vs, nodes, depth, keys);
            && (r == Ok(Done(es, n)) <==>
                EntriesMean(env, vs, es, depth) && Fresh(es, keys) && n <= MAX_PARAMETER_NODES)
            && (r.Ok? ==> r.value.nodes == n)
    decreases Levels(depth), 5, |vs|
  {
    hide FormatEntry, EntryMeans, VisitsOfEntry, KeyIdentity, IsKeyKind;
    if vs != [] {
      var m := nodes + VisitsOfEntry(env, vs[0], depth);
      var first := FormatEntry(env, vs[0], nodes, depth, keys);
      EntryBound(env, vs[0], nodes, depth, keys);
      if first.Ok? {
        var after := keys + {KeyIdentity(first.value.value.key)};
        EntriesExact(env, vs[1..], m, depth, after, if es != [] then es[1..] else []);
        var rest := FormatEntries(env, vs[1..], m, depth, after);
        if rest.Ok? {
          var all := [first.value.value] + rest.value.value;
          assert all[0] == first.value.value && all[1..] == rest.value.value;
          assert es != [] ==> es == [es[0]] + es[1..];
        }
      }
      if es != [] {
        EntryExact(env, vs[0], nodes, depth, keys, es[0]);
        EntriesSplit(env, vs, es, depth);
      }
    }
  }

  lemma EntriesSplit(env: Env, vs: seq<Value>, es: seq<Entry>, depth: nat)
    requires vs != [] && es != []
    ensures EntriesMean(env, vs, es, depth) <==>
            EntryMeans(env, vs[0], es[0], depth) && EntriesMean(env, vs[1..], es[1..], depth)
  {
    hide EntryMeans;
    if |vs| == |es| {
      assert forall i :: 0 < i < |vs| ==> vs[i] == vs[1..][i - 1] && es[i] == es[1..][i - 1];
    }
  }

  lemma {:induction false} EntryExact(env: Env, v: Value, nodes: nat, depth: nat, keys: set<Text>, e: Entry)
    requires nodes <= MAX_PARAMETER_NODES
    ensures var n := nodes + VisitsOfEntry(env, v, depth);
            var r := FormatEntry(env, v, nodes, depth, keys);
            && (r == Ok(Done(e, n)) <==>
                EntryMeans(env, v, e, depth) && IsKeyKind(KindOf(e.key)) && KeyIdentity(e.key) !in keys
                && n <= MAX_PARAMETER_NODES)
            && (r.Ok? ==> r.value.nodes == n)
    decreases Levels(depth), 4, 0
  {
    hide Format, Means, Visits, IsEntry, KeyIdentity, IsKeyKind;
    if IsEntry(env, v) {
      FormatBound(env, KeyOf(env, v), nodes, depth);
      FormatExact(env, KeyOf(env, v), nodes, depth, e.key);
      var m := nodes + Visits(env, KeyOf(env, v), depth);
      if m <= MAX_PARAMETER_NODES {
        FormatBound(env, ValueOf(env, v), m, depth);
        FormatExact(env, ValueOf(env, v), m, depth, e.value);
      }
    }
  }

  lemma EntryBound(env: Env, v: Value, nodes: nat, depth: nat, keys: set<Text>)
    requires nodes <= MAX_PARAMETER_NODES
    ensures var r := FormatEntry(env, v, nodes, depth, keys);
            r.Ok? ==>
              && r.value.nodes == nodes + VisitsOfEntry(env, v, depth) <= MAX_PARAMETER_NODES
              && EntryMeans(env, v, r.value.value, depth)
    decreases Levels(depth), 4, 1
  {
    hide FormatEntry, EntryMeans, VisitsOfEntry;
    var r := FormatEntry(env, v, nodes, depth, keys);
    if r.Ok? {
      EntryExact(env, v, nodes, depth, keys, r.value.value);
    }
  }

  lemma {:induction false} MapExact(env: Env, vs: seq<Value>, nodes: nat, depth: nat, es: seq<Entry>)
    requires nodes <= MAX_PARAMETER_NODES
    ensures var n := nodes + VisitsOfEntries(env, vs, depth);
            var r := FormatEntries(env, vs, nodes, depth, {});
            && (r == Ok(Done(es, n)) <==>
                EntriesMean(env, vs, es, depth) && KeysAreDistinct(es) && n <= MAX_PARAMETER_NODES)
            && (r.Ok? ==> r.value.nodes == n)
    decreases Levels(depth), 5, |vs| + 1
  {
    hide FormatEntries, VisitsOfEntries, Fresh, KeysAreDistinct, Means, IsEntry;
    EntriesExact(env, vs, nodes, depth, {}, es);
    if EntriesMean(env, vs, es, depth) {
      forall i | 0 <= i < |es| ensures IsKeyKind(KindOf(es[i].key)) {
        assert EntryMeans(env, vs[i], es[i], depth);
      }
      AllFresh(es);
    }
  }

  // ------------------------------------------------------------- main result

  /** The arguments are an array that means the parameters, with at most 10,000 values
      to visit. */
  predicate Accepts(env: Env, values: Value, ps: seq<Param>) {
    && IsArray(env, values) && ListMeans(env, ObjectOf(env, values).items, ps, 0)
    && VisitsOfList(env, ObjectOf(env, values).items, 0) <= MAX_PARAMETER_NODES
  }

  /** On any graph of values, arguments are formatted as exactly the parameters that they
      mean, and refused exactly when they mean none or are too many. */
  lemma FormatsExactly(env: Env, values: Value, ps: seq<Param>)
    ensures FormatAll(env, values) == Ok(ps) <==> Accepts(env, values, ps)
  {
    hide FormatList, ListMeans, VisitsOfList;
    if IsArray(env, values) {
      ListExact(env, ObjectOf(env, values).items, 0, 0, ps);
    }
  }
}
