/** The canonicaliser as it runs: one context counts the nodes of a whole call, and the
    entries of a typed map fill a set of keys. */
module ContractParamsFormatter {
  import opened JsText
  import opened ContractParams
  import ContractParamsMeaning

  class FormatContext {
    var nodes: nat

    constructor ()
      ensures nodes == 0
    {
      nodes := 0;
    }
  }

  /** The result and the count are those of the specification; a call that throws
      leaves a context that nobody reads. */
  ghost predicate Gives<T(!new)>(r: Result<T, Error>, nodes: nat, spec: Result<Done<T>, Error>) {
    if spec.Ok? then r == Ok(spec.value.value) && nodes == spec.value.nodes else r == Err(spec.error)
  }

  /** What is formatted already, followed by the rest. */
  function After<T>(out: seq<T>, rest: Result<Done<seq<T>>, Error>): Result<Done<seq<T>>, Error> {
    match rest
    case Ok(d) => Ok(Done(out + d.value, d.nodes))
    case Err(e) => Err(e)
  }

  lemma AfterNothing<T>(rest: Result<Done<seq<T>>, Error>)
    ensures After([], rest) == rest
  {
    if rest.Ok? {
      assert [] + rest.value.value == rest.value.value;
    }
  }

  lemma NothingAfter<T>(out: seq<T>, nodes: nat)
    ensures After(out, Ok(Done([], nodes))) == Ok(Done(out, nodes))
  {
    assert out + [] == out;
  }

  method FormatContractParameter(env: Env, v: Value, context: FormatContext, depth: nat)
    returns (r: Result<Param, Error>)
    modifies context
    ensures Gives(r, context.nodes, Format(env, v, old(context.nodes), depth))
    decreases Levels(depth), 3, 0
  {
    context.nodes := context.nodes + 1;
    if context.nodes > MAX_PARAMETER_NODES { return Err(TooManyValues); }
    if depth > MAX_PARAMETER_DEPTH { return Err(TooDeep); }
    if !IsObject(v) { return FormatPrimitive(env, v); }
    r := FormatObjectArgument(env, ObjectOf(env, v), context, depth);
  }

  /** The branches of `formatContractParameter` for arrays and objects. */
  method FormatObjectArgument(env: Env, o: Object, context: FormatContext, depth: nat) returns (r: Result<Param, Error>)
    requires depth <= MAX_PARAMETER_DEPTH
    modifies context
    ensures Gives(r, context.nodes, FormatObject(env, o, old(context.nodes), depth))
    decreases Levels(depth), 2, 0
  {
    hide Format, FormatTyped, FormatList, FormatProperties;
    if o.Arr? {
      var items := FormatItems(env, o.items, context, depth + 1);
      return if items.Ok? then Ok(Array(items.value)) else Err(items.error);
    }
    if o.toJson.Some? {
      r := FormatContractParameter(env, o.toJson.value, context, depth + 1);
      return;
    }
    if Has(o, Ascii("type")) {
      r := FormatTypedParameter(env, o, context, depth);
      return;
    }
    if !o.plain { return Err(UnsupportedObject); }
    var entries := FormatNames(env, o, context, depth + 1);
    return if entries.Ok? then Ok(Map(entries.value)) else Err(entries.error);
  }

  method FormatTypedParameter(env: Env, o: Object, context: FormatContext, depth: nat) returns (r: Result<Param, Error>)
    requires o.Rec? && depth <= MAX_PARAMETER_DEPTH
    modifies context
    ensures Gives(r, context.nodes, FormatTyped(env, o, old(context.nodes), depth))
    decreases Levels(depth), 1, 0
  {
    hide FormatList, FormatEntries, KindNamed, Property;
    var typed := Property(o, Ascii("type"));
    if !typed.Str? { return Err(TypeNotString); }
    var kind := KindNamed(typed.text);
    var v := Property(o, Ascii("value"));
    if kind.None? { return Err(UnsupportedType(typed.text)); }
    match kind.value {
      case ArrayKind =>
        if !IsArray(env, v) { return Err(BadValue(ArrayKind)); }
        var items := FormatItems(env, ObjectOf(env, v).items, context, depth + 1);
        return if items.Ok? then Ok(Array(items.value)) else Err(items.error);
      case MapKind =>
        if !IsArray(env, v) { return Err(BadValue(MapKind)); }
        var entries := FormatTypedEntries(env, ObjectOf(env, v).items, context, depth + 1);
        return if entries.Ok? then Ok(Map(entries.value)) else Err(entries.error);
      case _ => return FormatTypedLeaf(env, kind.value, v);
    }
  }

  lemma ListFrom(env: Env, vs: seq<Value>, i: nat, nodes: nat, depth: nat, out: seq<Param>)
    requires i < |vs|
    ensures var all := After(out, FormatList(env, vs[i..], nodes, depth));
            match Format(env, vs[i], nodes, depth)
            case Err(e) => all == Err(e)
            case Ok(first) => all == After(out + [first.value], FormatList(env, vs[i + 1..], first.nodes, depth))
  {
    hide Format;
    assert vs[i..][0] == vs[i] && vs[i..][1..] == vs[i + 1..];
    var first := Format(env, vs[i], nodes, depth);
    if first.Ok? {
      var rest := FormatList(env, vs[i + 1..], first.value.nodes, depth);
      if rest.Ok? {
        assert out + ([first.value.value] + rest.value.value) == out + [first.value.value] + rest.value.value;
      }
    }
  }

  method FormatItems(env: Env, vs: seq<Value>, context: FormatContext, depth: nat)
    returns (r: Result<seq<Param>, Error>)
    modifies context
    ensures Gives(r, context.nodes, FormatList(env, vs, old(context.nodes), depth))
    decreases Levels(depth), 4, 0
  {
    hide Format;
    var out := [];
    assert vs[0..] == vs;
    AfterNothing(FormatList(env, vs, context.nodes, depth));
    for i := 0 to |vs|
      invariant After(out, FormatList(env, vs[i..], context.nodes, depth))
             == FormatList(env, vs, old(context.nodes), depth)
    {
      ListFrom(env, vs, i, context.nodes, depth, out);
      var p := FormatContractParameter(env, vs[i], context, depth);
      if p.Err? { return Err(p.error); }
      out := out + [p.value];
    }
    assert vs[|vs|..] == [];
    NothingAfter(out, context.nodes);
    return Ok(out);
  }

  lemma PropertiesFrom(env: Env, o: Object, i: nat, nodes: nat, depth: nat, out: seq<Entry>)
    requires o.Rec? && i < |o.names|
    ensures var all := After(out, FormatProperties(env, o, i, nodes, depth));
            match Format(env, ValueAt(o, i), nodes, depth)
            case Err(e) => all == Err(e)
            case Ok(first) =>
              all == After(out + [Entry(Leaf(StringKind, o.names[i]), first.value)],
                           FormatProperties(env, o, i + 1, first.nodes, depth))
  {
    hide Format;
    var first := Format(env, ValueAt(o, i), nodes, depth);
    if first.Ok? {
      var e := Entry(Leaf(StringKind, o.names[i]), first.value.value);
      var rest := FormatProperties(env, o, i + 1, first.value.nodes, depth);
      if rest.Ok? {
        assert out + ([e] + rest.value.value) == out + [e] + rest.value.value;
      }
    }
  }

  method FormatNames(env: Env, o: Object, context: FormatContext, depth: nat) returns (r: Result<seq<Entry>, Error>)
    requires o.Rec?
    modifies context
    ensures Gives(r, context.nodes, FormatProperties(env, o, 0, old(context.nodes), depth))
    decreases Levels(depth), 4, 0
  {
    hide Format;
    var out := [];
    AfterNothing(FormatProperties(env, o, 0, context.nodes, depth));
    for i := 0 to |o.names|
      invariant After(out, FormatProperties(env, o, i, context.nodes, depth))
             == FormatProperties(env, o, 0, old(context.nodes), depth)
    {
      PropertiesFrom(env, o, i, context.nodes, depth, out);
      var p := FormatContractParameter(env, ValueAt(o, i), context, depth);
      if p.Err? { return Err(p.error); }
      out := out + [Entry(Leaf(StringKind, o.names[i]), p.value)];
    }
    NothingAfter(out, context.nodes);
    return Ok(out);
  }

  lemma EntriesFrom(env: Env, vs: seq<Value>, i: nat, nodes: nat, depth: nat, keys: set<Text>, out: seq<Entry>)
    requires i < |vs|
    ensures var all := After(out, FormatEntries(env, vs[i..], nodes, depth, keys));
            match FormatEntry(env, vs[i], nodes, depth, keys)
            case Err(e) => all == Err(e)
            case Ok(first) =>
              all == After(out + [first.value],
                           FormatEntries(env, vs[i + 1..], first.nodes, depth, keys + {KeyIdentity(first.value.key)}))
  {
    hide FormatEntry, KeyIdentity;
    assert vs[i..][0] == vs[i] && vs[i..][1..] == vs[i + 1..];
    var first := FormatEntry(env, vs[i], nodes, depth, keys);
    if first.Ok? {
      var rest :=
        FormatEntries(env, vs[i + 1..], first.value.nodes, depth, keys + {KeyIdentity(first.value.value.key)});
      if rest.Ok? {
        assert out + ([first.value.value] + rest.value.value) == out + [first.value.value] + rest.value.value;
      }
    }
  }

  method FormatTypedEntries(env: Env, vs: seq<Value>, context: FormatContext, depth: nat)
    returns (r: Result<seq<Entry>, Error>)
    modifies context
    ensures Gives(r, context.nodes, FormatEntries(env, vs, old(context.nodes), depth, {}))
    decreases Levels(depth), 5, 0
  {
    hide FormatEntry, KeyIdentity;
    var keys: set<Text> := {};
    var out := [];
    assert vs[0..] == vs;
    AfterNothing(FormatEntries(env, vs, context.nodes, depth, {}));
    for i := 0 to |vs|
      invariant After(out, FormatEntries(env, vs[i..], context.nodes, depth, keys))
             == FormatEntries(env, vs, old(context.nodes), depth, {})
    {
      EntriesFrom(env, vs, i, context.nodes, depth, keys, out);
      var e, keyIdentity := FormatTypedEntry(env, vs[i], context, depth, keys);
      if e.Err? { return Err(e.error); }
      keys := keys + {keyIdentity};
      out := out + [e.value];
    }
    assert vs[|vs|..] == [];
    NothingAfter(out, context.nodes);
    return Ok(out);
  }

  method FormatTypedEntry(env: Env, v: Value, context: FormatContext, depth: nat, keys: set<Text>)
    returns (r: Result<Entry, Error>, keyIdentity: Text)
    modifies context
    ensures Gives(r, context.nodes, FormatEntry(env, v, old(context.nodes), depth, keys))
    ensures r.Ok? ==> IsKeyKind(KindOf(r.value.key)) && keyIdentity == KeyIdentity(r.value.key)
    decreases Levels(depth), 4, 0
  {
    hide Format, KeyIdentity, IsEntry, KeyOf, ValueOf;
    if !IsEntry(env, v) { return Err(BadMapEntry), []; }
    var key := FormatContractParameter(env, KeyOf(env, v), context, depth);
    if key.Err? { return Err(key.error), []; }
    if !IsKeyKind(KindOf(key.value)) { return Err(BadKeyType), []; }
    keyIdentity := KeyIdentity(key.value);
    if keyIdentity in keys { return Err(DuplicateKey), []; }
    var value := FormatContractParameter(env, ValueOf(env, v), context, depth);
    if value.Err? { return Err(value.error), []; }
    r := Ok(Entry(key.value, value.value));
  }

  method FormatContractParameters(env: Env, values: Value) returns (r: Result<seq<Param>, Error>)
    ensures r == FormatAll(env, values)
    ensures forall ps :: r == Ok(ps) <==> ContractParamsMeaning.Accepts(env, values, ps)
  {
    forall ps ensures FormatAll(env, values) == Ok(ps) <==> ContractParamsMeaning.Accepts(env, values, ps) {
      ContractParamsMeaning.FormatsExactly(env, values, ps);
    }
    if !IsArray(env, values) { return Err(NotAnArray); }
    var context := new FormatContext();
    r := FormatItems(env, ObjectOf(env, values).items, context, 0);
  }
}
