/** What the contract-parameter canonicaliser accepts is canonical, and formatting its
    own output gives it back unless the count of nodes runs out. */
module ContractParamsCanonical {
  import opened JsText
  import opened Numerals
  import opened ContractParams
  import Base64
  import CanonicalJson

  // --------------------------------------------------------- canonical output

  predicate GoodLeaf(env: Env, kind: Kind, t: Text) {
    match kind
    case IntegerKind => IsCanonicalInteger(t) && InVmRange(IntegerOf(t))
    case StringKind => true
    case ByteArrayKind => Base64.IsCanonical(t)
    case Hash160Kind => IsHex(t, 40) && Lower(t) == t
    case Hash256Kind => IsHex(t, 64) && Lower(t) == t
    case PublicKeyKind => IsKeyText(t) && Lower(t) == t && env.curvePoint(t)
    case _ => false
  }

  /** Every part is in its one written form, and the keys of a map are of the kinds a
      map may have and all different. */
  predicate Good(env: Env, p: Param)
    decreases p
  {
    match p
    case Any => true
    case Boolean(_) => true
    case Leaf(kind, t) => GoodLeaf(env, kind, t)
    case Array(items) => GoodAll(env, items)
    case Map(entries) => GoodEntries(env, entries, {})
  }

  predicate GoodAll(env: Env, ps: seq<Param>)
    decreases ps
  {
    ps == [] || (Good(env, ps[0]) && GoodAll(env, ps[1..]))
  }

  predicate GoodEntries(env: Env, es: seq<Entry>, keys: set<Text>)
    decreases es
  {
    es == [] ||
    (&& IsKeyKind(KindOf(es[0].key)) && GoodParts(env, es[0])
     && KeyIdentity(es[0].key) !in keys && GoodEntries(env, es[1..], keys + {KeyIdentity(es[0].key)}))
  }

  predicate GoodParts(env: Env, e: Entry)
    decreases e
  {
    Good(env, e.key) && Good(env, e.value)
  }

  /** No part lies deeper than the limit. */
  predicate Fits(p: Param, depth: nat)
    decreases p
  {
    depth <= MAX_PARAMETER_DEPTH &&
    match p
    case Array(items) => FitsAll(items, depth + 1)
    case Map(entries) => FitsEntries(entries, depth + 1)
    case _ => true
  }

  predicate FitsAll(ps: seq<Param>, depth: nat)
    decreases ps
  {
    ps == [] || (Fits(ps[0], depth) && FitsAll(ps[1..], depth))
  }

  predicate FitsEntries(es: seq<Entry>, depth: nat)
    decreases es
  {
    es == [] || (FitsParts(es[0], depth) && FitsEntries(es[1..], depth))
  }

  predicate FitsParts(e: Entry, depth: nat)
    decreases e
  {
    Fits(e.key, depth) && Fits(e.value, depth)
  }

  /** The number of parameters in a parameter, the keys of its maps among them. */
  function Count(p: Param): (n: nat)
    ensures n >= 1
    decreases p
  {
    match p
    case Array(items) => 1 + CountAll(items)
    case Map(entries) => 1 + CountEntries(entries)
    case _ => 1
  }

  function CountAll(ps: seq<Param>): nat
    decreases ps
  {
    if ps == [] then 0 else Count(ps[0]) + CountAll(ps[1..])
  }

  function CountEntries(es: seq<Entry>): nat
    decreases es
  {
    if es == [] then 0 else CountParts(es[0]) + CountEntries(es[1..])
  }

  function CountParts(e: Entry): nat
    decreases e
  {
    Count(e.key) + Count(e.value)
  }

  // ---------------------------------------------------------- leaves are good

  /** neon-js does not tell a key from the same key in lower case. */
  ghost predicate CaseBlind(env: Env) { forall t :: env.curvePoint(t) ==> env.curvePoint(Lower(t)) }

  lemma LowerOnce(t: Text)
    ensures Lower(Lower(t)) == Lower(t)
    ensures AllHex(t) ==> AllHex(Lower(t))
  {
    forall i | 0 <= i < |t|
      ensures LowerUnit(LowerUnit(t[i])) == LowerUnit(t[i])
    {
    }
    assert Lower(Lower(t)) == Lower(t);
  }

  lemma SignedDecimalIsCanonical(n: int)
    ensures IsCanonicalInteger(SignedDecimal(n)) && IntegerOf(SignedDecimal(n)) == n
  {
    var m := if n < 0 then -n else n;
    NoLeadingZero(m);
    DecimalRoundTrip(m);
    var t := ToDecimal(m);
    assert IsDigit(t[0]);
    if n < 0 {
      assert SignedDecimal(n)[1..] == t;
    } else if n == 0 {
      assert t == [48];
    }
  }

  lemma BoundedIsGood(env: Env, n: int)
    ensures BoundedInteger(n).Ok? ==> GoodLeaf(env, IntegerKind, BoundedInteger(n).value)
  {
    hide IsCanonicalInteger, IntegerOf, SignedDecimal;
    SignedDecimalIsCanonical(n);
  }

  lemma HashIsGood(env: Env, t: Text)
    requires IsHash160Text(t)
    ensures GoodLeaf(env, Hash160Kind, Lower(StripPrefix(t)))
  {
    var s := StripPrefix(t);
    if IsHex(t, 40) {
      assert IsHexDigit(t[1]);
      assert s == t;
    } else {
      assert t[..2][0] == t[0] && t[..2][1] == t[1];
      assert s == t[2..];
    }
    LowerOnce(s);
  }

  lemma AddressHashIsGood(env: Env, t: Text)
    ensures AddressHash(env, t).Some? ==> GoodLeaf(env, Hash160Kind, AddressHash(env, t).value)
  {
    var hash := env.scriptHash(t);
    if hash.Some? {
      LowerOnce(hash.value);
    }
  }

  lemma KeyIsGood(env: Env, t: Text)
    requires CaseBlind(env) && IsKeyText(t) && env.curvePoint(t)
    ensures GoodLeaf(env, PublicKeyKind, Lower(t))
  {
    LowerOnce(t);
  }

  lemma PrimitiveIsGood(env: Env, v: Value)
    requires !IsObject(v)
    ensures FormatPrimitive(env, v).Ok? ==>
              && Good(env, FormatPrimitive(env, v).value)
              && !FormatPrimitive(env, v).value.Array? && !FormatPrimitive(env, v).value.Map?
  {
    match v
    case Str(t) => StringIsGood(env, t);
    case Num(_) => IntegerIsGood(env, v);
    case Big(n) => BoundedIsGood(env, n);
    case Bytes(b) => Base64.EncodingIsCanonical(b);
    case _ =>
  }

  lemma StringIsGood(env: Env, t: Text)
    ensures Good(env, FormatString(env, t)) && FormatString(env, t).Leaf?
  {
    hide GoodLeaf, AddressHash, IsHash160Text, StripPrefix;
    if IsHash160Text(t) {
      HashIsGood(env, t);
    } else if AddressHash(env, t).Some? {
      AddressHashIsGood(env, t);
    }
    AnyStringIsGood(env, t);
  }

  lemma AnyStringIsGood(env: Env, t: Text)
    ensures GoodLeaf(env, StringKind, t)
  {
  }

  lemma IntegerIsGood(env: Env, v: Value)
    ensures NormalizeInteger(v).Ok? ==> GoodLeaf(env, IntegerKind, NormalizeInteger(v).value)
  {
    hide GoodLeaf, BoundedInteger, IsCanonicalInteger, IntegerOf;
    match v
    case Num(integer) =>
      if integer.Some? {
        BoundedIsGood(env, integer.value);
      }
    case Str(t) =>
      if IsCanonicalInteger(t) {
        BoundedIsGood(env, IntegerOf(t));
      }
    case _ =>
  }

  lemma TypedLeafIsGood(env: Env, kind: Kind, v: Value)
    requires CaseBlind(env)
    ensures FormatTypedLeaf(env, kind, v).Ok? ==>
              Good(env, FormatTypedLeaf(env, kind, v).value)
              && !FormatTypedLeaf(env, kind, v).value.Array? && !FormatTypedLeaf(env, kind, v).value.Map?
  {
    hide NormalizeInteger, IsHash160Text, StripPrefix, AddressHash;
    match kind
    case IntegerKind => IntegerIsGood(env, v);
    case Hash160Kind =>
      if v.Str? {
        AddressHashIsGood(env, v.text);
        if IsHash160Text(v.text) {
          HashIsGood(env, v.text);
        }
      }
    case Hash256Kind =>
      if v.Str? {
        LowerOnce(v.text);
      }
    case PublicKeyKind =>
      if v.Str? && IsKeyText(v.text) && env.curvePoint(v.text) {
        KeyIsGood(env, v.text);
      }
    case _ =>
  }

  // ------------------------------------------------------ what is accepted is good

  /** What is known of a result: good, within the depth, and counted within the limit. */
  predicate Accepted(env: Env, r: Result<Done<Param>, Error>, nodes: nat, depth: nat) {
    r.Ok? ==> Good(env, r.value.value) && Fits(r.value.value, depth) && nodes <= r.value.nodes <= MAX_PARAMETER_NODES
  }

  predicate AcceptedAll(env: Env, r: Result<Done<seq<Param>>, Error>, nodes: nat, depth: nat) {
    r.Ok? ==>
      && GoodAll(env, r.value.value) && FitsAll(r.value.value, depth)
      && nodes <= r.value.nodes <= MAX_PARAMETER_NODES
  }

  predicate AcceptedEntries(env: Env, r: Result<Done<seq<Entry>>, Error>, nodes: nat, depth: nat, keys: set<Text>) {
    r.Ok? ==>
      && GoodEntries(env, r.value.value, keys) && FitsEntries(r.value.value, depth)
      && nodes <= r.value.nodes <= MAX_PARAMETER_NODES
  }

  lemma {:induction false} FormatAccepts(env: Env, v: Value, nodes: nat, depth: nat)
    requires CaseBlind(env)
    ensures Accepted(env, Format(env, v, nodes, depth), nodes, depth)
    decreases Levels(depth), 3, 0
  {
    hide FormatObject, FormatPrimitive;
    if nodes + 1 <= MAX_PARAMETER_NODES && depth <= MAX_PARAMETER_DEPTH {
      if IsObject(v) {
        ObjectAccepts(env, ObjectOf(env, v), nodes + 1, depth);
      } else {
        PrimitiveIsGood(env, v);
      }
    }
  }

  lemma {:induction false} ObjectAccepts(env: Env, o: Object, nodes: nat, depth: nat)
    requires CaseBlind(env) && depth <= MAX_PARAMETER_DEPTH && nodes <= MAX_PARAMETER_NODES
    ensures Accepted(env, FormatObject(env, o, nodes, depth), nodes, depth)
    decreases Levels(depth), 2, 0
  {
    hide FormatTyped, FormatList, FormatProperties, Format;
    match o
    case Arr(items) =>
      ListAccepts(env, items, nodes, depth + 1);
      ArrayAccepted(env, FormatList(env, items, nodes, depth + 1), nodes, depth);
    case Rec(names, values, plain, toJson) =>
      if toJson.Some? {
        FormatAccepts(env, toJson.value, nodes, depth + 1);
        Deeper(env, Format(env, toJson.value, nodes, depth + 1), nodes, depth);
      } else if Has(o, Ascii("type")) {
        TypedAccepts(env, o, nodes, depth);
      } else {
        PropertiesAccept(env, o, 0, nodes, depth + 1, {});
        MapAccepted(env, FormatProperties(env, o, 0, nodes, depth + 1), nodes, depth);
      }
  }

  lemma ArrayAccepted(env: Env, r: Result<Done<seq<Param>>, Error>, nodes: nat, depth: nat)
    requires depth <= MAX_PARAMETER_DEPTH && AcceptedAll(env, r, nodes, depth + 1)
    ensures Accepted(env, AsArray(r), nodes, depth)
  {
  }

  lemma MapAccepted(env: Env, r: Result<Done<seq<Entry>>, Error>, nodes: nat, depth: nat)
    requires depth <= MAX_PARAMETER_DEPTH && AcceptedEntries(env, r, nodes, depth + 1, {})
    ensures Accepted(env, AsMap(r), nodes, depth)
  {
  }

  /** What fits a level further down fits here. */
  lemma Deeper(env: Env, r: Result<Done<Param>, Error>, nodes: nat, depth: nat)
    requires Accepted(env, r, nodes, depth + 1)
    ensures Accepted(env, r, nodes, depth)
  {
    if r.Ok? {
      FitsHigher(r.value.value, depth);
    }
  }

  lemma {:induction false} FitsHigher(p: Param, depth: nat)
    requires Fits(p, depth + 1)
    ensures Fits(p, depth)
    decreases p
  {
    match p
    case Array(items) => FitsAllHigher(items, depth + 1);
    case Map(entries) => FitsEntriesHigher(entries, depth + 1);
    case _ =>
  }

  lemma {:induction false} FitsAllHigher(ps: seq<Param>, depth: nat)
    requires FitsAll(ps, depth + 1)
    ensures FitsAll(ps, depth)
    decreases ps
  {
    if ps != [] {
      FitsHigher(ps[0], depth);
      FitsAllHigher(ps[1..], depth);
    }
  }

  lemma {:induction false} FitsEntriesHigher(es: seq<Entry>, depth: nat)
    requires FitsEntries(es, depth + 1)
    ensures FitsEntries(es, depth)
    decreases es
  {
    if es != [] {
      FitsPartsHigher(es[0], depth);
      FitsEntriesHigher(es[1..], depth);
    }
  }

  lemma {:induction false} FitsPartsHigher(e: Entry, depth: nat)
    requires FitsParts(e, depth + 1)
    ensures FitsParts(e, depth)
    decreases e
  {
    FitsHigher(e.key, depth);
    FitsHigher(e.value, depth);
  }

  lemma {:induction false} TypedAccepts(env: Env, o: Object, nodes: nat, depth: nat)
    requires CaseBlind(env) && o.Rec? && depth <= MAX_PARAMETER_DEPTH && nodes <= MAX_PARAMETER_NODES
    ensures Accepted(env, FormatTyped(env, o, nodes, depth), nodes, depth)
    decreases Levels(depth), 1, 0
  {
    hide FormatKind, KindNamed, Property, Accepted;
    var typed := Property(o, Ascii("type"));
    if typed.Str? && KindNamed(typed.text).Some? {
      KindAccepts(env, KindNamed(typed.text).value, Property(o, Ascii("value")), nodes, depth);
    } else {
      ErrorAccepted(env, FormatTyped(env, o, nodes, depth), nodes, depth);
    }
  }

  lemma ErrorAccepted(env: Env, r: Result<Done<Param>, Error>, nodes: nat, depth: nat)
    requires r.Err?
    ensures Accepted(env, r, nodes, depth)
  {
  }

  lemma {:induction false} KindAccepts(env: Env, kind: Kind, v: Value, nodes: nat, depth: nat)
    requires CaseBlind(env) && depth <= MAX_PARAMETER_DEPTH && nodes <= MAX_PARAMETER_NODES
    ensures Accepted(env, FormatKind(env, kind, v, nodes, depth), nodes, depth)
    decreases Levels(depth), 0, 0
  {
    hide FormatList, FormatEntries, FormatTypedLeaf;
    match kind
    case ArrayKind =>
      if IsArray(env, v) {
        ListAccepts(env, ObjectOf(env, v).items, nodes, depth + 1);
        ArrayAccepted(env, FormatList(env, ObjectOf(env, v).items, nodes, depth + 1), nodes, depth);
      }
    case MapKind =>
      if IsArray(env, v) {
        EntriesAccept(env, ObjectOf(env, v).items, nodes, depth + 1, {});
        MapAccepted(env, FormatEntries(env, ObjectOf(env, v).items, nodes, depth + 1, {}), nodes, depth);
      }
    case _ => TypedLeafIsGood(env, kind, v);
  }

  lemma {:induction false} ListAccepts(env: Env, vs: seq<Value>, nodes: nat, depth: nat)
    requires CaseBlind(env) && nodes <= MAX_PARAMETER_NODES
    ensures AcceptedAll(env, FormatList(env, vs, nodes, depth), nodes, depth)
    decreases Levels(depth), 4, |vs|
  {
    hide Format, Good, Fits;
    if vs != [] {
      FormatAccepts(env, vs[0], nodes, depth);
      var first := Format(env, vs[0], nodes, depth);
      if first.Ok? {
        ListAccepts(env, vs[1..], first.value.nodes, depth);
        var rest := FormatList(env, vs[1..], first.value.nodes, depth);
        if rest.Ok? {
          assert ([first.value.value] + rest.value.value)[1..] == rest.value.value;
        }
      }
    }
  }

  /** The identities of the names before the i-th. */
  ghost predicate NamesBefore(o: Object, i: nat, keys: set<Text>)
    requires o.Rec? && i <= |o.names|
  {
    forall k :: k in keys ==> exists j :: 0 <= j < i && k == KeyIdentity(Leaf(StringKind, o.names[j]))
  }

  lemma SameName(a: Text, b: Text)
    requires KeyIdentity(Leaf(StringKind, a)) == KeyIdentity(Leaf(StringKind, b))
    ensures a == b
  {
    var head := TypeName(StringKind) + [58];
    var qa, qb := CanonicalJson.Quote(a), CanonicalJson.Quote(b);
    assert (head + qa)[|head|..] == qa;
    assert (head + qb)[|head|..] == qb;
    CanonicalJson.QuoteInjective(a, b);
  }

  lemma NewName(o: Object, i: nat, keys: set<Text>)
    requires o.Rec? && i < |o.names| && NamesBefore(o, i, keys)
    ensures KeyIdentity(Leaf(StringKind, o.names[i])) !in keys
    ensures NamesBefore(o, i + 1, keys + {KeyIdentity(Leaf(StringKind, o.names[i]))})
  {
    var id := KeyIdentity(Leaf(StringKind, o.names[i]));
    if id in keys {
      var j :| 0 <= j < i && id == KeyIdentity(Leaf(StringKind, o.names[j]));
      SameName(o.names[i], o.names[j]);
    }
    hide KeyIdentity;
    forall k | k in keys + {id}
      ensures exists j :: 0 <= j < i + 1 && k == KeyIdentity(Leaf(StringKind, o.names[j]))
    {
      if k in keys {
        var j :| 0 <= j < i && k == KeyIdentity(Leaf(StringKind, o.names[j]));
        assert 0 <= j < i + 1;
      }
    }
  }

  lemma {:induction false} PropertiesAccept(env: Env, o: Object, i: nat, nodes: nat, depth: nat, keys: set<Text>)
    requires CaseBlind(env) && nodes <= MAX_PARAMETER_NODES && o.Rec? && i <= |o.names| && NamesBefore(o, i, keys)
    ensures AcceptedEntries(env, FormatProperties(env, o, i, nodes, depth), nodes, depth, keys)
    decreases Levels(depth), 4, |o.names| - i
  {
    hide Format, Good, Fits, KeyIdentity, NamesBefore;
    if i < |o.names| {
      FormatAccepts(env, ValueAt(o, i), nodes, depth);
      var first := Format(env, ValueAt(o, i), nodes, depth);
      if first.Ok? {
        NewName(o, i, keys);
        var key := Leaf(StringKind, o.names[i]);
        PropertiesAccept(env, o, i + 1, first.value.nodes, depth, keys + {KeyIdentity(key)});
        KeyAccepted(env, o.names[i], first.value.value, depth);
        var rest := FormatProperties(env, o, i + 1, first.value.nodes, depth);
        if rest.Ok? {
          OneMoreEntry(env, Entry(key, first.value.value), rest.value.value, keys, depth);
        }
      }
    }
  }

  lemma OneMoreEntry(env: Env, e: Entry, rest: seq<Entry>, keys: set<Text>, depth: nat)
    requires IsKeyKind(KindOf(e.key)) && KeyIdentity(e.key) !in keys
    requires Good(env, e.key) && Good(env, e.value) && Fits(e.key, depth) && Fits(e.value, depth)
    requires GoodEntries(env, rest, keys + {KeyIdentity(e.key)}) && FitsEntries(rest, depth)
    ensures GoodEntries(env, [e] + rest, keys) && FitsEntries([e] + rest, depth)
  {
    hide Good, Fits, KeyIdentity;
    var all := [e] + rest;
    assert all[0] == e && all[1..] == rest;
  }

  lemma KeyAccepted(env: Env, name: Text, value: Param, depth: nat)
    requires Fits(value, depth)
    ensures Good(env, Leaf(StringKind, name)) && Fits(Leaf(StringKind, name), depth)
  {
  }

  lemma {:induction false} EntriesAccept(env: Env, es: seq<Value>, nodes: nat, depth: nat, keys: set<Text>)
    requires CaseBlind(env) && nodes <= MAX_PARAMETER_NODES
    ensures AcceptedEntries(env, FormatEntries(env, es, nodes, depth, keys), nodes, depth, keys)
    decreases Levels(depth), 4, |es|
  {
    hide FormatEntry, Good, Fits, KeyIdentity;
    if es != [] {
      EntryAccepts(env, es[0], nodes, depth, keys);
      var first := FormatEntry(env, es[0], nodes, depth, keys);
      if first.Ok? {
        var entry := first.value.value;
        EntriesAccept(env, es[1..], first.value.nodes, depth, keys + {KeyIdentity(entry.key)});
        var rest := FormatEntries(env, es[1..], first.value.nodes, depth, keys + {KeyIdentity(entry.key)});
        if rest.Ok? {
          OneMoreEntry(env, entry, rest.value.value, keys, depth);
        }
      }
    }
  }

  lemma {:induction false} EntryAccepts(env: Env, v: Value, nodes: nat, depth: nat, keys: set<Text>)
    requires CaseBlind(env) && nodes <= MAX_PARAMETER_NODES
    ensures var r := FormatEntry(env, v, nodes, depth, keys);
            r.Ok? ==>
              && Good(env, r.value.value.key) && Good(env, r.value.value.value)
              && Fits(r.value.value.key, depth) && Fits(r.value.value.value, depth)
              && nodes <= r.value.nodes <= MAX_PARAMETER_NODES
    decreases Levels(depth), 4, 0
  {
    hide Format, Good, Fits, IsEntry, KeyIdentity;
    if IsEntry(env, v) {
      FormatAccepts(env, KeyOf(env, v), nodes, depth);
      var key := Format(env, KeyOf(env, v), nodes, depth);
      if key.Ok? {
        FormatAccepts(env, ValueOf(env, v), key.value.nodes, depth);
      }
    }
  }
}
