/** How many parameters a value turns into, read off the value. */
module ContractParamsParts {
  import opened JsText
  import opened ContractParams
  import opened ContractParamsCanonical

  /** The values to visit, without the objects that `toJson` replaces but with the
      names of plain objects, which become keys. */
  function Parts(env: Env, v: Value, depth: nat): nat
    decreases Levels(depth), 3, 0
  {
    if depth > MAX_PARAMETER_DEPTH then 0
    else if IsObject(v) then PartsOfObject(env, ObjectOf(env, v), depth)
    else 1
  }

  function PartsOfObject(env: Env, o: Object, depth: nat): nat
    requires depth <= MAX_PARAMETER_DEPTH
    decreases Levels(depth), 2, 0
  {
    match o
    case Arr(items) => 1 + PartsOfList(env, items, depth + 1)
    case Rec(names, values, plain, toJson) =>
      if toJson.Some? then Parts(env, toJson.value, depth + 1)
      else if Has(o, Ascii("type")) then 1 + PartsOfTyped(env, o, depth)
      else 1 + |names| + PartsOfProperties(env, o, 0, depth + 1)
  }

  /** The parts inside the value of a typed object. */
  function PartsOfTyped(env: Env, o: Object, depth: nat): nat
    requires o.Rec? && depth <= MAX_PARAMETER_DEPTH
    decreases Levels(depth), 1, 0
  {
    var v := Property(o, Ascii("value"));
    if !IsArray(env, v) then 0
    else if Property(o, Ascii("type")) == Str(TypeName(ArrayKind)) then
      PartsOfList(env, ObjectOf(env, v).items, depth + 1)
    else if Property(o, Ascii("type")) == Str(TypeName(MapKind)) then
      PartsOfEntries(env, ObjectOf(env, v).items, depth + 1)
    else 0
  }

  function PartsOfList(env: Env, vs: seq<Value>, depth: nat): nat
    decreases Levels(depth), 4, |vs|
  {
    if vs == [] then 0 else Parts(env, vs[0], depth) + PartsOfList(env, vs[1..], depth)
  }

  function PartsOfProperties(env: Env, o: Object, i: nat, depth: nat): nat
    requires o.Rec? && i <= |o.names|
    decreases Levels(depth), 4, |o.names| - i
  {
    if i == |o.names| then 0 else Parts(env, ValueAt(o, i), depth) + PartsOfProperties(env, o, i + 1, depth)
  }

  function PartsOfEntries(env: Env, es: seq<Value>, depth: nat): nat
    decreases Levels(depth), 4, |es|
  {
    if es == [] then 0 else PartsOfEntry(env, es[0], depth) + PartsOfEntries(env, es[1..], depth)
  }

  function PartsOfEntry(env: Env, v: Value, depth: nat): nat
    decreases Levels(depth), 4, 0
  {
    if !IsEntry(env, v) then 0 else Parts(env, KeyOf(env, v), depth) + Parts(env, ValueOf(env, v), depth)
  }

  /** The parts of an argument list. */
  function PartsOfAll(env: Env, values: Value): nat {
    if IsArray(env, values) then PartsOfList(env, ObjectOf(env, values).items, 0) else 0
  }

  // ------------------------------------------------ what is accepted has so many

  lemma {:induction false} FormatCounts(env: Env, v: Value, nodes: nat, depth: nat)
    requires Format(env, v, nodes, depth).Ok?
    ensures Count(Format(env, v, nodes, depth).value.value) == Parts(env, v, depth)
    decreases Levels(depth), 3, 0
  {
    hide FormatObject, FormatPrimitive, PartsOfObject;
    if IsObject(v) {
      ObjectCounts(env, ObjectOf(env, v), nodes + 1, depth);
    } else {
      PrimitiveCounts(env, v);
    }
  }

  lemma PrimitiveCounts(env: Env, v: Value)
    requires !IsObject(v) && FormatPrimitive(env, v).Ok?
    ensures Count(FormatPrimitive(env, v).value) == 1
  {
  }

  lemma {:induction false} ObjectCounts(env: Env, o: Object, nodes: nat, depth: nat)
    requires depth <= MAX_PARAMETER_DEPTH && FormatObject(env, o, nodes, depth).Ok?
    ensures Count(FormatObject(env, o, nodes, depth).value.value) == PartsOfObject(env, o, depth)
    decreases Levels(depth), 2, 0
  {
    hide FormatTyped, FormatList, FormatProperties, Format, Parts, PartsOfList, PartsOfTyped, PartsOfProperties, Has;
    match o
    case Arr(items) => ListCounts(env, items, nodes, depth + 1);
    case Rec(names, values, plain, toJson) =>
      if toJson.Some? {
        FormatCounts(env, toJson.value, nodes, depth + 1);
      } else if Has(o, Ascii("type")) {
        TypedCounts(env, o, nodes, depth);
      } else {
        PropertiesCount(env, o, 0, nodes, depth + 1);
      }
  }

  lemma {:induction false} TypedCounts(env: Env, o: Object, nodes: nat, depth: nat)
    requires o.Rec? && depth <= MAX_PARAMETER_DEPTH && FormatTyped(env, o, nodes, depth).Ok?
    ensures Count(FormatTyped(env, o, nodes, depth).value.value) == 1 + PartsOfTyped(env, o, depth)
    decreases Levels(depth), 1, 0
  {
    hide FormatList, FormatEntries, FormatTypedLeaf, Property, PartsOfList, PartsOfEntries, KindNamed, TypeName;
    var kind := KindNamed(Property(o, Ascii("type")).text).value;
    var v := Property(o, Ascii("value"));
    NamedKind(Property(o, Ascii("type")).text);
    match kind
    case ArrayKind => ListCounts(env, ObjectOf(env, v).items, nodes, depth + 1);
    case MapKind =>
      ArrayIsNotMap();
      EntriesCount(env, ObjectOf(env, v).items, nodes, depth + 1, {});
    case _ => TypedLeafCounts(env, kind, v);
  }

  lemma NamedKind(t: Text)
    requires KindNamed(t).Some?
    ensures TypeName(KindNamed(t).value) == t
    ensures t == TypeName(ArrayKind) ==> KindNamed(t) == Some(ArrayKind)
    ensures t == TypeName(MapKind) ==> KindNamed(t) == Some(MapKind)
  {
    assert |Ascii("Map")| == 3 && Ascii("Map")[0] == 77 && |Ascii("Any")| == 3 && Ascii("Any")[0] == 65;
    assert |Ascii("Array")| == 5 && |Ascii("Boolean")| == 7 && |Ascii("Integer")| == 7 && |Ascii("String")| == 6;
    assert |Ascii("ByteArray")| == 9 && |Ascii("Hash160")| == 7 && |Ascii("Hash256")| == 7 && |Ascii("PublicKey")| == 9;
  }

  lemma ArrayIsNotMap()
    ensures TypeName(ArrayKind) != TypeName(MapKind)
  {
    assert |Ascii("Array")| != |Ascii("Map")|;
  }

  lemma TypedLeafCounts(env: Env, kind: Kind, v: Value)
    requires FormatTypedLeaf(env, kind, v).Ok?
    ensures Count(FormatTypedLeaf(env, kind, v).value) == 1
  {
  }

  lemma {:induction false} ListCounts(env: Env, vs: seq<Value>, nodes: nat, depth: nat)
    requires FormatList(env, vs, nodes, depth).Ok?
    ensures CountAll(FormatList(env, vs, nodes, depth).value.value) == PartsOfList(env, vs, depth)
    decreases Levels(depth), 4, |vs|
  {
    hide Format, Parts, Count;
    if vs != [] {
      FormatCounts(env, vs[0], nodes, depth);
      var first := Format(env, vs[0], nodes, depth).value;
      ListCounts(env, vs[1..], first.nodes, depth);
      var rest := FormatList(env, vs[1..], first.nodes, depth).value.value;
      assert ([first.value] + rest)[1..] == rest;
    }
  }

  lemma {:induction false} PropertiesCount(env: Env, o: Object, i: nat, nodes: nat, depth: nat)
    requires o.Rec? && i <= |o.names| && FormatProperties(env, o, i, nodes, depth).Ok?
    ensures CountEntries(FormatProperties(env, o, i, nodes, depth).value.value)
            == |o.names| - i + PartsOfProperties(env, o, i, depth)
    decreases Levels(depth), 4, |o.names| - i
  {
    hide Format, Parts, Count;
    if i < |o.names| {
      FormatCounts(env, ValueAt(o, i), nodes, depth);
      var first := Format(env, ValueAt(o, i), nodes, depth).value;
      PropertiesCount(env, o, i + 1, first.nodes, depth);
      var rest := FormatProperties(env, o, i + 1, first.nodes, depth).value.value;
      var e := Entry(Leaf(StringKind, o.names[i]), first.value);
      NameCounts(o.names[i]);
      OneMoreCounts(e, rest);
    }
  }

  lemma NameCounts(name: Text)
    ensures Count(Leaf(StringKind, name)) == 1
  {
  }

  lemma OneMoreCounts(e: Entry, rest: seq<Entry>)
    ensures CountEntries([e] + rest) == Count(e.key) + Count(e.value) + CountEntries(rest)
  {
    hide Count;
    assert ([e] + rest)[0] == e && ([e] + rest)[1..] == rest;
  }

  lemma {:induction false} EntriesCount(env: Env, es: seq<Value>, nodes: nat, depth: nat, keys: set<Text>)
    requires FormatEntries(env, es, nodes, depth, keys).Ok?
    ensures CountEntries(FormatEntries(env, es, nodes, depth, keys).value.value) == PartsOfEntries(env, es, depth)
    decreases Levels(depth), 4, |es|
  {
    hide FormatEntry, PartsOfEntry, Count, KeyIdentity;
    if es != [] {
      EntryCounts(env, es[0], nodes, depth, keys);
      var first := FormatEntry(env, es[0], nodes, depth, keys).value;
      var after := keys + {KeyIdentity(first.value.key)};
      EntriesCount(env, es[1..], first.nodes, depth, after);
      OneMoreCounts(first.value, FormatEntries(env, es[1..], first.nodes, depth, after).value.value);
    }
  }

  lemma {:induction false} EntryCounts(env: Env, v: Value, nodes: nat, depth: nat, keys: set<Text>)
    requires FormatEntry(env, v, nodes, depth, keys).Ok?
    ensures var e := FormatEntry(env, v, nodes, depth, keys).value.value;
            Count(e.key) + Count(e.value) == PartsOfEntry(env, v, depth)
    decreases Levels(depth), 4, 0
  {
    hide Format, Parts, Count, IsEntry, KeyIdentity;
    FormatCounts(env, KeyOf(env, v), nodes, depth);
    FormatCounts(env, ValueOf(env, v), Format(env, KeyOf(env, v), nodes, depth).value.nodes, depth);
  }

  /** Accepted arguments become as many parameters as the arguments show. */
  lemma OutputCounts(env: Env, values: Value)
    requires FormatAll(env, values).Ok?
    ensures CountAll(FormatAll(env, values).value) == PartsOfAll(env, values)
  {
    hide FormatList, PartsOfList, CountAll;
    ListCounts(env, ObjectOf(env, values).items, 0, 0);
  }
}
