/** Formatting the canonicaliser's own output again. */
module ContractParamsFixpoint {
  import opened JsText
  import opened Numerals
  import opened ContractParams
  import opened ContractParamsCanonical
  import opened ContractParamsParts

  // ----------------------------------------------- parameters as JavaScript values

  const TYPED_NAMES: Names := [Ascii("type"), Ascii("value")]
  const ENTRY_NAMES: Names := [Ascii("key"), Ascii("value")]

  /** The object `{ type, value }`. */
  function TypedObject(kind: Kind, v: Value): Object { Rec(TYPED_NAMES, [Str(TypeName(kind)), v], true, None) }

  function EntryObject(key: Value, value: Value): Object { Rec(ENTRY_NAMES, [key, value], true, None) }

  /** A formatted parameter is itself a JavaScript value. */
  function ToJs(p: Param): Value
    decreases p
  {
    match p
    case Any => Own(TypedObject(AnyKind, Null))
    case Boolean(b) => Own(TypedObject(BooleanKind, Bool(b)))
    case Leaf(kind, t) => Own(TypedObject(kind, Str(t)))
    case Array(items) => Own(TypedObject(ArrayKind, Own(Arr(ToJsAll(items)))))
    case Map(entries) => Own(TypedObject(MapKind, Own(Arr(EntriesToJs(entries)))))
  }

  function ToJsAll(ps: seq<Param>): seq<Value>
    decreases ps
  {
    if ps == [] then [] else [ToJs(ps[0])] + ToJsAll(ps[1..])
  }

  function EntriesToJs(es: seq<Entry>): seq<Value>
    decreases es
  {
    if es == [] then [] else [EntryToJs(es[0])] + EntriesToJs(es[1..])
  }

  function EntryToJs(e: Entry): Value
    decreases e
  {
    Own(EntryObject(ToJs(e.key), ToJs(e.value)))
  }

  // ------------------------------------------------------------- reading them

  lemma TypedLookup(kind: Kind, v: Value)
    ensures Has(TypedObject(kind, v), Ascii("type"))
    ensures Property(TypedObject(kind, v), Ascii("type")) == Str(TypeName(kind))
    ensures Property(TypedObject(kind, v), Ascii("value")) == v
  {
    assert |Ascii("type")| != |Ascii("value")|;
    assert IndexOf(TYPED_NAMES, Ascii("type")) == 0;
    assert TYPED_NAMES[1..] == [Ascii("value")];
    assert IndexOf(TYPED_NAMES, Ascii("value")) == 1;
  }

  lemma EntryLookup(key: Value, value: Value)
    ensures var o := EntryObject(key, value);
            && Has(o, Ascii("key")) && Property(o, Ascii("key")) == key
            && Has(o, Ascii("value")) && Property(o, Ascii("value")) == value
  {
    assert |Ascii("key")| != |Ascii("value")|;
    assert IndexOf(ENTRY_NAMES, Ascii("key")) == 0;
    assert ENTRY_NAMES[1..] == [Ascii("value")];
    assert IndexOf(ENTRY_NAMES, Ascii("value")) == 1;
  }

  lemma KindIsNamed(kind: Kind)
    ensures KindNamed(TypeName(kind)) == Some(kind)
  {
    assert |Ascii("Any")| == 3 && |Ascii("Map")| == 3 && Ascii("Any")[0] == 65 && Ascii("Map")[0] == 77;
    assert |Ascii("Array")| == 5 && |Ascii("String")| == 6;
    assert |Ascii("Boolean")| == 7 && Ascii("Boolean")[0] == 66;
    assert |Ascii("Integer")| == 7 && Ascii("Integer")[0] == 73;
    assert |Ascii("Hash160")| == 7 && Ascii("Hash160")[0] == 72 && Ascii("Hash160")[4] == 49;
    assert |Ascii("Hash256")| == 7 && Ascii("Hash256")[0] == 72 && Ascii("Hash256")[4] == 50;
    assert |Ascii("ByteArray")| == 9 && Ascii("ByteArray")[0] == 66;
    assert |Ascii("PublicKey")| == 9 && Ascii("PublicKey")[0] == 80;
  }

  lemma TypedFormats(env: Env, kind: Kind, v: Value, nodes: nat, depth: nat)
    requires nodes + 1 <= MAX_PARAMETER_NODES && depth <= MAX_PARAMETER_DEPTH
    ensures Format(env, Own(TypedObject(kind, v)), nodes, depth) == FormatKind(env, kind, v, nodes + 1, depth)
  {
    hide FormatKind, KindNamed, Property, Has, TypeName;
    var o := TypedObject(kind, v);
    TypedLookup(kind, v);
    KindIsNamed(kind);
    assert FormatTyped(env, o, nodes + 1, depth) == FormatKind(env, kind, v, nodes + 1, depth);
    assert FormatObject(env, o, nodes + 1, depth) == FormatTyped(env, o, nodes + 1, depth);
  }

  // ------------------------------------------------------------------- leaves

  lemma SignedOfCanonical(t: Text)
    requires IsCanonicalInteger(t)
    ensures SignedDecimal(IntegerOf(t)) == t
  {
    if t != [48] {
      var digits := if t[0] == 45 then t[1..] else t;
      DecimalOfDigits(digits);
      if t[0] == 45 {
        assert t == [45] + digits;
      }
    } else {
      assert t[..0] == [];
      assert FromDecimal(t) == 0;
    }
  }

  /** Digits without a leading zero are what their value is written as. */
  lemma {:induction false} DecimalOfDigits(t: Text)
    requires IsPositiveDigits(t)
    ensures FromDecimal(t) > 0 && ToDecimal(FromDecimal(t)) == t
  {
    var c, last := t[..|t| - 1], t[|t| - 1] - 48;
    assert t == c + [48 + last];
    if c == [] {
      assert FromDecimal(t) == last;
    } else {
      DecimalOfDigits(c);
      assert FromDecimal(t) == FromDecimal(c) * 10 + last;
    }
  }

  lemma NoPrefix(t: Text)
    requires IsHex(t, 40)
    ensures StripPrefix(t) == t && IsHash160Text(t)
  {
    assert IsHexDigit(t[1]);
  }

  lemma IntegerAgain(env: Env, t: Text)
    requires GoodLeaf(env, IntegerKind, t)
    ensures NormalizeInteger(Str(t)) == Ok(t)
  {
    hide IsCanonicalInteger, IntegerOf, SignedDecimal;
    SignedOfCanonical(t);
  }

  /** A canonical leaf is formatted as itself. */
  lemma LeafAgain(env: Env, kind: Kind, t: Text)
    requires GoodLeaf(env, kind, t)
    ensures FormatTypedLeaf(env, kind, Str(t)) == Ok(Leaf(kind, t))
    ensures !kind.ArrayKind? && !kind.MapKind?
  {
    hide NormalizeInteger, AddressHash, StripPrefix, IsHash160Text;
    match kind
    case IntegerKind => IntegerAgain(env, t);
    case Hash160Kind => NoPrefix(t);
    case _ =>
  }

  // ---------------------------------------------------------------- recursion

  /** What formatting a canonical parameter gives: itself, or too many values. */
  function Again(p: Param, nodes: nat): Result<Done<Param>, Error> {
    if nodes + Count(p) <= MAX_PARAMETER_NODES then Ok(Done(p, nodes + Count(p))) else Err(TooManyValues)
  }

  function AgainAll(ps: seq<Param>, nodes: nat): Result<Done<seq<Param>>, Error> {
    if nodes + CountAll(ps) <= MAX_PARAMETER_NODES then Ok(Done(ps, nodes + CountAll(ps))) else Err(TooManyValues)
  }

  function AgainEntries(es: seq<Entry>, nodes: nat): Result<Done<seq<Entry>>, Error> {
    if nodes + CountEntries(es) <= MAX_PARAMETER_NODES then Ok(Done(es, nodes + CountEntries(es)))
    else Err(TooManyValues)
  }

  lemma {:induction false} FormatsAgain(env: Env, p: Param, nodes: nat, depth: nat)
    requires Good(env, p) && Fits(p, depth) && nodes <= MAX_PARAMETER_NODES
    ensures Format(env, ToJs(p), nodes, depth) == Again(p, nodes)
    decreases p
  {
    hide FormatList, FormatEntries, FormatTypedLeaf, GoodAll, GoodEntries, FitsAll, FitsEntries, GoodLeaf, TypedObject;
    if nodes + 1 <= MAX_PARAMETER_NODES {
      match p
      case Any => TypedFormats(env, AnyKind, Null, nodes, depth); NullAgain(env);
      case Boolean(b) => TypedFormats(env, BooleanKind, Bool(b), nodes, depth); BooleanAgain(env, b);
      case Leaf(kind, t) => TypedFormats(env, kind, Str(t), nodes, depth); LeafAgain(env, kind, t);
      case Array(items) =>
        TypedFormats(env, ArrayKind, Own(Arr(ToJsAll(items))), nodes, depth);
        ListAgain(env, items, nodes + 1, depth + 1);
        ArrayKindFormats(env, ToJsAll(items), nodes + 1, depth);
      case Map(entries) =>
        TypedFormats(env, MapKind, Own(Arr(EntriesToJs(entries))), nodes, depth);
        EntriesAgain(env, entries, nodes + 1, depth + 1, {});
        MapKindFormats(env, EntriesToJs(entries), nodes + 1, depth);
    }
  }

  lemma NullAgain(env: Env)
    ensures FormatTypedLeaf(env, AnyKind, Null) == Ok(Any)
  {
  }

  lemma BooleanAgain(env: Env, b: bool)
    ensures FormatTypedLeaf(env, BooleanKind, Bool(b)) == Ok(Boolean(b))
  {
  }

  lemma ArrayKindFormats(env: Env, vs: seq<Value>, nodes: nat, depth: nat)
    requires depth <= MAX_PARAMETER_DEPTH
    ensures FormatKind(env, ArrayKind, Own(Arr(vs)), nodes, depth) == AsArray(FormatList(env, vs, nodes, depth + 1))
  {
  }

  lemma MapKindFormats(env: Env, vs: seq<Value>, nodes: nat, depth: nat)
    requires depth <= MAX_PARAMETER_DEPTH
    ensures FormatKind(env, MapKind, Own(Arr(vs)), nodes, depth) == AsMap(FormatEntries(env, vs, nodes, depth + 1, {}))
  {
  }

  lemma {:induction false} ListAgain(env: Env, ps: seq<Param>, nodes: nat, depth: nat)
    requires GoodAll(env, ps) && FitsAll(ps, depth) && nodes <= MAX_PARAMETER_NODES
    ensures FormatList(env, ToJsAll(ps), nodes, depth) == AgainAll(ps, nodes)
    decreases ps
  {
    hide Format, Good, Fits, ToJs, Count;
    if ps != [] {
      var vs := ToJsAll(ps);
      assert vs[0] == ToJs(ps[0]) && vs[1..] == ToJsAll(ps[1..]);
      FormatsAgain(env, ps[0], nodes, depth);
      if nodes + Count(ps[0]) <= MAX_PARAMETER_NODES {
        ListAgain(env, ps[1..], nodes + Count(ps[0]), depth);
        assert [ps[0]] + ps[1..] == ps;
      }
    }
  }

  lemma {:induction false} EntriesAgain(env: Env, es: seq<Entry>, nodes: nat, depth: nat, keys: set<Text>)
    requires GoodEntries(env, es, keys) && FitsEntries(es, depth) && nodes <= MAX_PARAMETER_NODES
    ensures FormatEntries(env, EntriesToJs(es), nodes, depth, keys) == AgainEntries(es, nodes)
    decreases es
  {
    hide FormatEntry, GoodParts, FitsParts, EntryToJs, CountParts, KeyIdentity;
    if es != [] {
      var vs := EntriesToJs(es);
      assert vs[0] == EntryToJs(es[0]) && vs[1..] == EntriesToJs(es[1..]);
      EntryAgain(env, es[0], nodes, depth, keys);
      if nodes + CountParts(es[0]) <= MAX_PARAMETER_NODES {
        EntriesAgain(env, es[1..], nodes + CountParts(es[0]), depth, keys + {KeyIdentity(es[0].key)});
        assert [es[0]] + es[1..] == es;
      }
    }
  }

  lemma EntryParts(env: Env, e: Entry)
    ensures IsEntry(env, EntryToJs(e)) && KeyOf(env, EntryToJs(e)) == ToJs(e.key)
            && ValueOf(env, EntryToJs(e)) == ToJs(e.value)
  {
    hide Has, Property, ToJs;
    EntryLookup(ToJs(e.key), ToJs(e.value));
  }

  lemma {:induction false} EntryAgain(env: Env, e: Entry, nodes: nat, depth: nat, keys: set<Text>)
    requires IsKeyKind(KindOf(e.key)) && KeyIdentity(e.key) !in keys
    requires GoodParts(env, e) && FitsParts(e, depth) && nodes <= MAX_PARAMETER_NODES
    ensures FormatEntry(env, EntryToJs(e), nodes, depth, keys)
            == if nodes + CountParts(e) <= MAX_PARAMETER_NODES then Ok(Done(e, nodes + CountParts(e)))
               else Err(TooManyValues)
    decreases e
  {
    hide Format, Good, Fits, ToJs, Count, KeyIdentity, IsEntry, KeyOf, ValueOf, EntryToJs;
    EntryParts(env, e);
    FormatsAgain(env, e.key, nodes, depth);
    if nodes + Count(e.key) <= MAX_PARAMETER_NODES {
      FormatsAgain(env, e.value, nodes + Count(e.key), depth);
    }
  }

  // ------------------------------------------------------------- main results

  /** The output as an argument list of its own. */
  function Output(ps: seq<Param>): Value { Own(Arr(ToJsAll(ps))) }

  /** Formatting accepted output again gives exactly that output when the arguments
      have no more than 10,000 parts, and fails for too many values when they have. */
  lemma Fixpoint(env: Env, values: Value)
    requires CaseBlind(env) && FormatAll(env, values).Ok?
    ensures var ps := FormatAll(env, values).value;
            FormatAll(env, Output(ps))
            == if PartsOfAll(env, values) <= MAX_PARAMETER_NODES then Ok(ps) else Err(TooManyValues)
  {
    OutputCounts(env, values);
    hide FormatList, PartsOfAll;
    ListAccepts(env, ObjectOf(env, values).items, 0, 0);
    ListAgain(env, FormatAll(env, values).value, 0, 0);
  }

  /** Accepted arguments are canonical, none of their parts is more than 32 levels down,
      and at most 10,000 values were visited. */
  lemma AcceptedIsCanonical(env: Env, values: Value)
    requires CaseBlind(env) && FormatAll(env, values).Ok?
    ensures var ps := FormatAll(env, values).value;
            GoodAll(env, ps) && FitsAll(ps, 0)
    ensures IsArray(env, values) && FormatList(env, ObjectOf(env, values).items, 0, 0).Ok?
    ensures FormatList(env, ObjectOf(env, values).items, 0, 0).value.nodes <= MAX_PARAMETER_NODES
  {
    ListAccepts(env, ObjectOf(env, values).items, 0, 0);
  }

  lemma {:induction false} KeysDiffer(env: Env, es: seq<Entry>, keys: set<Text>, i: nat, j: nat)
    requires GoodEntries(env, es, keys) && i < j < |es|
    ensures IsKeyKind(KindOf(es[j].key)) && KeyIdentity(es[j].key) !in keys
    ensures es[i].key != es[j].key
    decreases j
  {
    hide KeyIdentity, GoodParts;
    if i == 0 {
      KeyIsNew(env, es[1..], keys + {KeyIdentity(es[0].key)}, j - 1);
    } else {
      KeysDiffer(env, es[1..], keys + {KeyIdentity(es[0].key)}, i - 1, j - 1);
    }
  }

  lemma {:induction false} KeyIsNew(env: Env, es: seq<Entry>, keys: set<Text>, j: nat)
    requires GoodEntries(env, es, keys) && j < |es|
    ensures IsKeyKind(KindOf(es[j].key)) && KeyIdentity(es[j].key) !in keys
    decreases j
  {
    hide KeyIdentity, GoodParts;
    if j > 0 {
      KeyIsNew(env, es[1..], keys + {KeyIdentity(es[0].key)}, j - 1);
    }
  }

  /** No two keys of an accepted map are the same. */
  lemma MapKeysUnique(env: Env, p: Param)
    requires Good(env, p) && p.Map?
    ensures forall i, j :: 0 <= i < j < |p.entries| ==> p.entries[i].key != p.entries[j].key
  {
    forall i, j | 0 <= i < j < |p.entries|
      ensures p.entries[i].key != p.entries[j].key
    {
      KeysDiffer(env, p.entries, {}, i, j);
    }
  }

  // ------------------------------------------------ where the fixpoint fails

  /** A plain object with n properties, all null. */
  function Nulls(n: nat): Object
    requires n < 0x8000
  {
    Rec(Numbered(n), seq(n, _ => Null), true, None)
  }

  /** Names of one code unit each, so that none is `type`, and none a digit, so that an
      object lists them in this order. */
  function Numbered(n: nat): Names
    requires n < 0x8000
  {
    seq(n, i requires 0 <= i < n => [i + 58])
  }

  lemma NotTyped(n: nat)
    requires n < 0x8000
    ensures !Has(Nulls(n), Ascii("type"))
  {
    assert |Ascii("type")| == 4;
    assert forall i :: 0 <= i < n ==> |Numbered(n)[i]| == 1;
  }

  lemma {:induction false} NullProperties(env: Env, n: nat, i: nat, nodes: nat)
    requires n < 0x8000 && i <= n && nodes + (n - i) <= MAX_PARAMETER_NODES
    ensures var r := FormatProperties(env, Nulls(n), i, nodes, 1);
            r.Ok? && CountEntries(r.value.value) == 2 * (n - i)
    decreases n - i
  {
    if i < n {
      assert Format(env, Null, nodes, 1) == Ok(Done(Any, nodes + 1));
      NullProperties(env, n, i + 1, nodes + 1);
      var rest := FormatProperties(env, Nulls(n), i + 1, nodes + 1, 1).value.value;
      var e := Entry(Leaf(StringKind, Nulls(n).names[i]), Any);
      assert CountParts(e) == 2;
      CountOneMore(e, rest);
    }
  }

  lemma CountOneMore(e: Entry, rest: seq<Entry>)
    ensures CountEntries([e] + rest) == CountParts(e) + CountEntries(rest)
  {
    assert ([e] + rest)[0] == e && ([e] + rest)[1..] == rest;
  }

  lemma SingleArgument(env: Env, v: Value, p: Param, n: nat)
    requires Format(env, v, 0, 0) == Ok(Done(p, n))
    ensures FormatAll(env, Own(Arr([v]))) == Ok([p]) && CountAll([p]) == Count(p)
  {
    hide Format, Count;
    assert [v][1..] == [] && [p][1..] == [];
    assert FormatList(env, [v], 0, 0) == Ok(Done([p] + [], n));
    assert [p] + [] == [p];
    assert ObjectOf(env, Own(Arr([v]))).items == [v];
    assert CountAll([p]) == Count(p) + CountAll([]);
  }

  /** An object with n names is accepted with n + 1 values counted, but its output
      counts 2n + 1, since the inferred keys are counted only then. */
  lemma NullsCount(env: Env, n: nat)
    requires n < MAX_PARAMETER_NODES
    ensures var r := FormatAll(env, Own(Arr([Own(Nulls(n))])));
            r.Ok? && CountAll(r.value) == 2 * n + 1
  {
    hide FormatProperties, Has;
    var o := Nulls(n);
    var items := [Own(o)];
    NotTyped(n);
    NullProperties(env, n, 0, 1);
    var entries := FormatProperties(env, o, 0, 1, 1).value;
    assert FormatObject(env, o, 1, 0) == Ok(Done(Map(entries.value), entries.nodes));
    assert Format(env, items[0], 0, 0) == Ok(Done(Map(entries.value), entries.nodes));
    SingleArgument(env, items[0], Map(entries.value), entries.nodes);
  }

  /** An accepted argument whose output is refused: an object with 5,000 names. */
  lemma FixpointFailsForManyNames(env: Env)
    requires CaseBlind(env)
    ensures var values := Own(Arr([Own(Nulls(5_000))]));
            FormatAll(env, values).Ok? && FormatAll(env, Output(FormatAll(env, values).value)) == Err(TooManyValues)
  {
    hide FormatAll, PartsOfAll;
    NullsCount(env, 5_000);
    OutputCounts(env, Own(Arr([Own(Nulls(5_000))])));
    Fixpoint(env, Own(Arr([Own(Nulls(5_000))])));
  }
}
