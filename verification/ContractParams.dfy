/** The canonicaliser of contract-params.ts: JavaScript values, which may form any
    graph, become typed contract parameters. */
module ContractParams {
  import opened JsText
  import opened Numerals
  import Base64
  import CanonicalJson

  // ---------------------------------------------------------- JavaScript values

  predicate Distinct(ns: seq<Text>) { forall i, j :: 0 <= i < j < |ns| ==> ns[i] != ns[j] }

  /** The own property names of an object, in the order of `Object.entries`. */
  type Names = ns: seq<Text> | Distinct(ns) witness []

  /** `Num` is a number, `None` when it has a fraction or is no number; `Ref` is an
      object in the heap, so that values may share objects and form cycles. */
  datatype Value =
    | Undefined | Null | Other
    | Str(text: Text) | Num(integer: Option<int>) | Big(n: int) | Bool(b: bool) | Bytes(bytes: seq<Byte>)
    | Own(obj: Object) | Ref(address: nat)

  /** An array, or an object with the value of each name, whether its prototype is
      plain, and what its `toJson` returns if it has one. */
  datatype Object =
    | Arr(items: seq<Value>)
    | Rec(names: Names, values: seq<Value>, plain: bool, toJson: Option<Value>)

  /** The heap, and the two checks of neon-js: the script hash of a checksum-valid
      address, and whether a compressed key is a curve point. */
  datatype Env = Env(heap: nat -> Object, scriptHash: Text -> Option<Text>, curvePoint: Text -> bool)

  predicate IsObject(v: Value) { v.Own? || v.Ref? }

  function ObjectOf(env: Env, v: Value): Object
    requires IsObject(v)
  {
    if v.Own? then v.obj else env.heap(v.address)
  }

  predicate IsArray(env: Env, v: Value) { IsObject(v) && ObjectOf(env, v).Arr? }

  predicate IsRecord(env: Env, v: Value) { IsObject(v) && ObjectOf(env, v).Rec? }

  /** The value of the i-th property. */
  function ValueAt(o: Object, i: nat): Value
    requires o.Rec?
  {
    if i < |o.values| then o.values[i] else Undefined
  }

  function IndexOf(ns: seq<Text>, name: Text): (i: nat)
    ensures i <= |ns| && (i < |ns| ==> ns[i] == name)
    ensures i == |ns| ==> forall k :: 0 <= k < |ns| ==> ns[k] != name
  {
    if ns == [] || ns[0] == name then 0 else 1 + IndexOf(ns[1..], name)
  }

  predicate Has(o: Object, name: Text)
    requires o.Rec?
  {
    IndexOf(o.names, name) < |o.names|
  }

  function Property(o: Object, name: Text): Value
    requires o.Rec?
  {
    if Has(o, name) then ValueAt(o, IndexOf(o.names, name)) else Undefined
  }

  // -------------------------------------------------------------- parameters

  datatype Kind = AnyKind | BooleanKind | IntegerKind | StringKind | ByteArrayKind | Hash160Kind | Hash256Kind
    | PublicKeyKind | ArrayKind | MapKind

  /** A formatted parameter. `Leaf` is one whose value is a string. */
  datatype Param =
    | Any | Boolean(b: bool) | Leaf(kind: Kind, text: Text) | Array(items: seq<Param>) | Map(entries: seq<Entry>)

  datatype Entry = Entry(key: Param, value: Param)

  function KindOf(p: Param): Kind {
    match p
    case Any => AnyKind
    case Boolean(_) => BooleanKind
    case Leaf(kind, _) => kind
    case Array(_) => ArrayKind
    case Map(_) => MapKind
  }

  function TypeName(k: Kind): Text {
    match k
    case AnyKind => Ascii("Any")
    case BooleanKind => Ascii("Boolean")
    case IntegerKind => Ascii("Integer")
    case StringKind => Ascii("String")
    case ByteArrayKind => Ascii("ByteArray")
    case Hash160Kind => Ascii("Hash160")
    case Hash256Kind => Ascii("Hash256")
    case PublicKeyKind => Ascii("PublicKey")
    case ArrayKind => Ascii("Array")
    case MapKind => Ascii("Map")
  }

  function KindNamed(t: Text): Option<Kind> {
    if t == TypeName(AnyKind) then Some(AnyKind)
    else if t == TypeName(BooleanKind) then Some(BooleanKind)
    else if t == TypeName(IntegerKind) then Some(IntegerKind)
    else if t == TypeName(StringKind) then Some(StringKind)
    else if t == TypeName(ByteArrayKind) then Some(ByteArrayKind)
    else if t == TypeName(Hash160Kind) then Some(Hash160Kind)
    else if t == TypeName(Hash256Kind) then Some(Hash256Kind)
    else if t == TypeName(PublicKeyKind) then Some(PublicKeyKind)
    else if t == TypeName(ArrayKind) then Some(ArrayKind)
    else if t == TypeName(MapKind) then Some(MapKind)
    else None
  }

  datatype Error =
    | TooManyValues | TooDeep | NotInteger | IntegerRange | NotBase64 | NotHash160 | NotHash256 | NotPublicKey
    | BadValue(kind: Kind) | TypeNotString | UnsupportedType(name: Text) | BadMapEntry | BadKeyType | DuplicateKey
    | UndefinedArgument | UnsupportedObject | UnsupportedArgument | NotAnArray

  // ------------------------------------------------------------------ leaves

  /** 2^255 */
  const VM_LIMIT: int := 0x8000_0000_0000_0000_0000_0000_0000_0000_0000_0000_0000_0000_0000_0000_0000_0000

  predicate InVmRange(n: int) { -VM_LIMIT <= n <= VM_LIMIT - 1 }

  /** `/^(?:0|-?[1-9]\d*)$/` */
  predicate IsCanonicalInteger(t: Text) {
    || t == [48]
    || (t != [] && t[0] == 45 && IsPositiveDigits(t[1..]))
    || IsPositiveDigits(t)
  }

  predicate IsPositiveDigits(t: Text) { t != [] && AllDigits(t) && t[0] != 48 }

  function IntegerOf(t: Text): int
    requires IsCanonicalInteger(t)
  {
    if t[0] == 45 then 0 - FromDecimal(t[1..]) else FromDecimal(t)
  }

  function NormalizeInteger(v: Value): Result<Text, Error> {
    match v
    case Num(integer) =>
      if integer.None? || integer.value < -MAX_SAFE_INTEGER || integer.value > MAX_SAFE_INTEGER then Err(NotInteger)
      else BoundedInteger(integer.value)
    case Str(t) => if IsCanonicalInteger(t) then BoundedInteger(IntegerOf(t)) else Err(NotInteger)
    case _ => Err(NotInteger)
  }

  function BoundedInteger(n: int): Result<Text, Error> {
    if InVmRange(n) then Ok(SignedDecimal(n)) else Err(IntegerRange)
  }

  function NormalizeBase64(v: Value): Result<Text, Error> {
    if v.Str? && Base64.IsCanonical(v.text) then Ok(v.text) else Err(NotBase64)
  }

  predicate IsHex(t: Text, n: nat) { |t| == n && AllHex(t) }

  /** `/^(?:0x)?[0-9a-fA-F]{40}$/` */
  predicate IsHash160Text(t: Text) { IsHex(t, 40) || (|t| == 42 && t[..2] == [48, 120] && IsHex(t[2..], 40)) }

  function StripPrefix(t: Text): Text { if |t| >= 2 && t[0] == 48 && (t[1] == 120 || t[1] == 88) then t[2..] else t }

  /** The script hash that an address stands for, when neon-js gives a usable one. */
  function AddressHash(env: Env, t: Text): Option<Text> {
    var hash := env.scriptHash(t);
    if hash.Some? && IsHex(hash.value, 40) then Some(Lower(hash.value)) else None
  }

  function NormalizeHash160(env: Env, v: Value): Result<Text, Error> {
    if !v.Str? then Err(NotHash160)
    else if IsHash160Text(v.text) then Ok(Lower(StripPrefix(v.text)))
    else if AddressHash(env, v.text).Some? then Ok(AddressHash(env, v.text).value)
    else Err(NotHash160)
  }

  function NormalizeHash256(v: Value): Result<Text, Error> {
    if v.Str? && IsHex(v.text, 64) then Ok(Lower(v.text)) else Err(NotHash256)
  }

  /** `/^(?:02|03)[0-9a-fA-F]{64}$/` */
  predicate IsKeyText(t: Text) { IsHex(t, 66) && t[0] == 48 && (t[1] == 50 || t[1] == 51) }

  function NormalizePublicKey(env: Env, v: Value): Result<Text, Error> {
    if v.Str? && IsKeyText(v.text) && env.curvePoint(v.text) then Ok(Lower(v.text)) else Err(NotPublicKey)
  }

  predicate IsAlphanumeric(u: CodeUnit) { IsDigit(u) || 65 <= u <= 90 || 97 <= u <= 122 }

  function FormatString(env: Env, t: Text): Param {
    if IsHash160Text(t) then Leaf(Hash160Kind, Lower(StripPrefix(t)))
    else if |t| == 34 && (forall i :: 0 <= i < |t| ==> IsAlphanumeric(t[i])) && AddressHash(env, t).Some? then
      Leaf(Hash160Kind, AddressHash(env, t).value)
    else Leaf(StringKind, t)
  }

  function LeafResult(kind: Kind, r: Result<Text, Error>): Result<Param, Error> {
    match r
    case Ok(t) => Ok(Leaf(kind, t))
    case Err(e) => Err(e)
  }

  /** The kinds whose value has no parts. */
  function FormatTypedLeaf(env: Env, kind: Kind, v: Value): Result<Param, Error> {
    match kind
    case AnyKind => if v.Null? then Ok(Any) else Err(BadValue(kind))
    case BooleanKind => if v.Bool? then Ok(Boolean(v.b)) else Err(BadValue(kind))
    case IntegerKind => LeafResult(kind, NormalizeInteger(v))
    case StringKind => if v.Str? then Ok(Leaf(kind, v.text)) else Err(BadValue(kind))
    case ByteArrayKind => LeafResult(kind, NormalizeBase64(v))
    case Hash160Kind => LeafResult(kind, NormalizeHash160(env, v))
    case Hash256Kind => LeafResult(kind, NormalizeHash256(v))
    case PublicKeyKind => LeafResult(kind, NormalizePublicKey(env, v))
    case _ => Err(BadValue(kind))
  }

  /** Values that are not objects. */
  function FormatPrimitive(env: Env, v: Value): Result<Param, Error>
    requires !IsObject(v)
  {
    match v
    case Null => Ok(Any)
    case Undefined => Err(UndefinedArgument)
    case Str(t) => Ok(FormatString(env, t))
    case Num(_) => LeafResult(IntegerKind, NormalizeInteger(v))
    case Big(n) => LeafResult(IntegerKind, BoundedInteger(n))
    case Bool(b) => Ok(Boolean(b))
    case Bytes(bytes) => Ok(Leaf(ByteArrayKind, Base64.Encode(bytes)))
    case _ => Err(UnsupportedArgument)
  }

  // ---------------------------------------------------------------- recursion

  const MAX_PARAMETER_DEPTH: nat := 32
  const MAX_PARAMETER_NODES: nat := 10_000

  predicate IsKeyKind(k: Kind) { !k.AnyKind? && !k.ArrayKind? && !k.MapKind? }

  /** `${key.type}:${JSON.stringify(key.value)}` */
  function KeyIdentity(key: Param): Text
    requires IsKeyKind(KindOf(key))
  {
    TypeName(KindOf(key)) + [58]
    + if key.Boolean? then if key.b then Ascii("true") else Ascii("false") else CanonicalJson.Quote(key.text)
  }

  function Levels(depth: nat): nat { if depth > MAX_PARAMETER_DEPTH then 0 else MAX_PARAMETER_DEPTH + 1 - depth }

  datatype Done<T> = Done(value: T, nodes: nat)

  /** `formatContractParameter`, with the count of nodes before and after. */
  function Format(env: Env, v: Value, nodes: nat, depth: nat): Result<Done<Param>, Error>
    decreases Levels(depth), 3, 0
  {
    if nodes + 1 > MAX_PARAMETER_NODES then Err(TooManyValues)
    else if depth > MAX_PARAMETER_DEPTH then Err(TooDeep)
    else if IsObject(v) then FormatObject(env, ObjectOf(env, v), nodes + 1, depth)
    else
      match FormatPrimitive(env, v)
      case Ok(p) => Ok(Done(p, nodes + 1))
      case Err(e) => Err(e)
  }

  function FormatObject(env: Env, o: Object, nodes: nat, depth: nat): Result<Done<Param>, Error>
    requires depth <= MAX_PARAMETER_DEPTH
    decreases Levels(depth), 2, 0
  {
    match o
    case Arr(items) => AsArray(FormatList(env, items, nodes, depth + 1))
    case Rec(names, values, plain, toJson) =>
      if toJson.Some? then Format(env, toJson.value, nodes, depth + 1)
      else if Has(o, Ascii("type")) then FormatTyped(env, o, nodes, depth)
      else if !plain then Err(UnsupportedObject)
      else AsMap(FormatProperties(env, o, 0, nodes, depth + 1))
  }

  function AsArray(r: Result<Done<seq<Param>>, Error>): Result<Done<Param>, Error> {
    match r
    case Ok(d) => Ok(Done(Array(d.value), d.nodes))
    case Err(e) => Err(e)
  }

  function AsMap(r: Result<Done<seq<Entry>>, Error>): Result<Done<Param>, Error> {
    match r
    case Ok(d) => Ok(Done(Map(d.value), d.nodes))
    case Err(e) => Err(e)
  }

  function FormatTyped(env: Env, o: Object, nodes: nat, depth: nat): Result<Done<Param>, Error>
    requires o.Rec? && depth <= MAX_PARAMETER_DEPTH
    decreases Levels(depth), 1, 0
  {
    var typed := Property(o, Ascii("type"));
    var v := Property(o, Ascii("value"));
    if !typed.Str? then Err(TypeNotString)
    else if KindNamed(typed.text).None? then Err(UnsupportedType(typed.text))
    else FormatKind(env, KindNamed(typed.text).value, v, nodes, depth)
  }

  function FormatKind(env: Env, kind: Kind, v: Value, nodes: nat, depth: nat): Result<Done<Param>, Error>
    requires depth <= MAX_PARAMETER_DEPTH
    decreases Levels(depth), 0, 0
  {
    match kind
    case ArrayKind =>
      if IsArray(env, v) then AsArray(FormatList(env, ObjectOf(env, v).items, nodes, depth + 1))
      else Err(BadValue(kind))
    case MapKind =>
      if IsArray(env, v) then AsMap(FormatEntries(env, ObjectOf(env, v).items, nodes, depth + 1, {}))
      else Err(BadValue(kind))
    case _ =>
      match FormatTypedLeaf(env, kind, v)
      case Ok(p) => Ok(Done(p, nodes))
      case Err(e) => Err(e)
  }

  function FormatList(env: Env, vs: seq<Value>, nodes: nat, depth: nat): Result<Done<seq<Param>>, Error>
    decreases Levels(depth), 4, |vs|
  {
    if vs == [] then Ok(Done([], nodes))
    else
      match Format(env, vs[0], nodes, depth)
      case Err(e) => Err(e)
      case Ok(first) =>
        match FormatList(env, vs[1..], first.nodes, depth)
        case Err(e) => Err(e)
        case Ok(rest) => Ok(Done([first.value] + rest.value, rest.nodes))
  }

  /** The properties of a plain object from the i-th on; their names become keys that
      are not counted. */
  function FormatProperties(env: Env, o: Object, i: nat, nodes: nat, depth: nat): Result<Done<seq<Entry>>, Error>
    requires o.Rec? && i <= |o.names|
    decreases Levels(depth), 4, |o.names| - i
  {
    if i == |o.names| then Ok(Done([], nodes))
    else
      match Format(env, ValueAt(o, i), nodes, depth)
      case Err(e) => Err(e)
      case Ok(first) =>
        match FormatProperties(env, o, i + 1, first.nodes, depth)
        case Err(e) => Err(e)
        case Ok(rest) => Ok(Done([Entry(Leaf(StringKind, o.names[i]), first.value)] + rest.value, rest.nodes))
  }

  /** An entry of a typed map, which must have both parts. */
  predicate IsEntry(env: Env, v: Value) {
    IsRecord(env, v) && Has(ObjectOf(env, v), Ascii("key")) && Has(ObjectOf(env, v), Ascii("value"))
  }

  function KeyOf(env: Env, v: Value): Value
    requires IsEntry(env, v)
  {
    Property(ObjectOf(env, v), Ascii("key"))
  }

  function ValueOf(env: Env, v: Value): Value
    requires IsEntry(env, v)
  {
    Property(ObjectOf(env, v), Ascii("value"))
  }

  /** The entries of a typed map, with the identities of the keys before them. */
  function FormatEntries(env: Env, es: seq<Value>, nodes: nat, depth: nat, keys: set<Text>)
    : Result<Done<seq<Entry>>, Error>
    decreases Levels(depth), 4, |es|
  {
    if es == [] then Ok(Done([], nodes))
    else
      match FormatEntry(env, es[0], nodes, depth, keys)
      case Err(e) => Err(e)
      case Ok(first) =>
        match FormatEntries(env, es[1..], first.nodes, depth, keys + {KeyIdentity(first.value.key)})
        case Err(e) => Err(e)
        case Ok(rest) => Ok(Done([first.value] + rest.value, rest.nodes))
  }

  function FormatEntry(env: Env, v: Value, nodes: nat, depth: nat, keys: set<Text>): (r: Result<Done<Entry>, Error>)
    ensures r.Ok? ==> IsKeyKind(KindOf(r.value.value.key)) && KeyIdentity(r.value.value.key) !in keys
    decreases Levels(depth), 4, 0
  {
    if !IsEntry(env, v) then Err(BadMapEntry)
    else
      match Format(env, KeyOf(env, v), nodes, depth)
      case Err(e) => Err(e)
      case Ok(key) =>
        if !IsKeyKind(KindOf(key.value)) then Err(BadKeyType)
        else if KeyIdentity(key.value) in keys then Err(DuplicateKey)
        else
          match Format(env, ValueOf(env, v), key.nodes, depth)
          case Err(e) => Err(e)
          case Ok(value) => Ok(Done(Entry(key.value, value.value), value.nodes))
  }

  /** `formatContractParameters` */
  function FormatAll(env: Env, values: Value): Result<seq<Param>, Error> {
    if !IsArray(env, values) then Err(NotAnArray)
    else
      match FormatList(env, ObjectOf(env, values).items, 0, 0)
      case Ok(d) => Ok(d.value)
      case Err(e) => Err(e)
  }
}
