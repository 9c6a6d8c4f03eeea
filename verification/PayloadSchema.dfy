/** The declared payload schema: its registration check and the emission-time validator. */
module PayloadSchema {
  import opened Names
  import opened JsonText
  import opened Numbers

  // --- Normalised documents ---------------------------------------------------------

  /** A number literal: the float64 it parses to and, where strconv.ParseInt takes the
      literal, the integer it spells. OutOfRange is a literal no float64 holds. */
  datatype Number = Finite(value: real, literal: Option<int>) | OutOfRange

  datatype Value =
    | Null
    | Bool(b: bool)
    | Num(n: Number)
    | Str(s: string)
    | Arr(items: seq<Value>)
    | Obj(members: map<string, Value>)

  datatype Kind = NullKind | BooleanKind | IntegerKind | NumberKind | StringKind | ArrayKind | ObjectKind

  /** payloadKind: None when the value is not representable. */
  function KindOf(v: Value): Option<Kind> {
    match v
    case Null => Some(NullKind)
    case Bool(_) => Some(BooleanKind)
    case Str(_) => Some(StringKind)
    case Num(OutOfRange) => None
    case Num(Finite(f, _)) => Some(if f == f.Floor as real then IntegerKind else NumberKind)
    case Arr(_) => Some(ArrayKind)
    case Obj(_) => Some(ObjectKind)
  }

  const MAX_MAGNITUDE: int := 9007199254740992

  /** payloadOverMagnitude: the literal where it is an integer, the float otherwise. */
  predicate OverMagnitude(v: Value) {
    match v
    case Num(Finite(f, Some(i))) => i > MAX_MAGNITUDE || i < -MAX_MAGNITUDE
    case Num(Finite(f, None)) => f > MAX_MAGNITUDE as real || f < -(MAX_MAGNITUDE as real)
    case _ => false
  }

  const KEYWORDS := ["additionalProperties", "const", "enum", "items", "properties", "required", "type"]
  const JSON_TYPES := ["array", "boolean", "integer", "null", "number", "object", "string"]

  /** payloadTypeMatches. */
  predicate TypeMatches(declared: string, kind: Kind) {
    match declared
    case "integer" => kind == IntegerKind
    case "number" => kind == IntegerKind || kind == NumberKind
    case _ => declared == KindName(kind)
  }

  function KindName(kind: Kind): string {
    match kind
    case NullKind => "null"
    case BooleanKind => "boolean"
    case IntegerKind => "integer"
    case NumberKind => "number"
    case StringKind => "string"
    case ArrayKind => "array"
    case ObjectKind => "object"
  }

  /** payloadDeepEqual. */
  predicate DeepEqual(a: Value, b: Value) {
    KindOf(a).Some? && KindOf(b).Some? &&
    match (a, b)
    case (Num(m), Num(n)) => m.value == n.value
    case (Null, Null) => true
    case (Bool(x), Bool(y)) => x == y
    case (Str(x), Str(y)) => x == y
    case (Arr(xs), Arr(ys)) => |xs| == |ys| && forall i :: 0 <= i < |xs| ==> DeepEqual(xs[i], ys[i])
    case (Obj(xs), Obj(ys)) =>
      |xs| == |ys| && forall k :: k in xs ==> k in ys && DeepEqual(xs[k], ys[k])
    case _ => false
  }

  // --- Findings ------------------------------------------------------------------------

  datatype Field = EnumField | ConstField | PropertiesField | ItemsField | AdditionalField

  /** One step of a path, into a document or into a schema. */
  datatype Step = Key(key: string) | Index(index: nat) | Into(field: Field)

  datatype Detail =
    | NotJson
    | Magnitude
    | SchemaNotObject(kind: Option<Kind>)
    | UnknownKeyword(keyword: string)
    | UnknownType(name: string)
    | TypeShape
    | TypeEmpty
    | TypeDuplicate(name: string)
    | RequiredShape
    | RequiredDuplicate(name: string)
    | EnumShape
    | PropertiesShape
    | AddPropsShape
    | ExpectedType(name: string, got: Kind)
    | ExpectedTypes(names: seq<string>, got: Kind)
    | ConstMismatch
    | EnumMismatch
    | RequiredMissing(name: string)
    | NotPermitted(key: string)

  /** payloadFinding. */
  datatype Finding = Finding(path: string, detail: Detail)

  /** A violation by its position below the document's root. */
  datatype Fault = Fault(at: seq<Step>, detail: Detail)

  function FieldName(f: Field): string {
    match f
    case EnumField => "enum"
    case ConstField => "const"
    case PropertiesField => "properties"
    case ItemsField => "items"
    case AdditionalField => "additionalProperties"
  }

  function PathKey(path: string, key: string): string {
    path + ("[" + Quote(Pretty, key) + "]")
  }

  function PathIndex(path: string, index: nat): string {
    path + ("[" + Itoa(index) + "]")
  }

  function PathInto(path: string, f: Field): string {
    path + ("." + FieldName(f))
  }

  function RenderStep(step: Step): string {
    match step
    case Key(key) => "[" + Quote(Pretty, key) + "]"
    case Index(index) => "[" + Itoa(index) + "]"
    case Into(field) => "." + FieldName(field)
  }

  function Render(at: seq<Step>): string {
    if at == [] then "" else RenderStep(at[0]) + Render(at[1..])
  }

  /** The finding a fault is reported as. */
  function Report(path: string, fault: Option<Fault>): (r: Option<Finding>)
    ensures r.None? <==> fault.None?
  {
    if fault.None? then None else Some(Finding(path + Render(fault.value.at), fault.value.detail))
  }

  function Under(step: Step, fault: Option<Fault>): (r: Option<Fault>)
    ensures r.None? <==> fault.None?
  {
    if fault.None? then None else Some(Fault([step] + fault.value.at, fault.value.detail))
  }

  lemma RenderStepFirst(step: Step, at: seq<Step>)
    ensures Render([step] + at) == RenderStep(step) + Render(at)
  {
    hide RenderStep;
    assert ([step] + at)[1..] == at;
  }

  lemma ReportUnder(path: string, step: Step, fault: Option<Fault>)
    ensures Report(path + RenderStep(step), fault) == Report(path, Under(step, fault))
  {
    if fault.Some? {
      RenderStepFirst(step, fault.value.at);
      hide Render, RenderStep;
      Associate(path, RenderStep(step), Render(fault.value.at));
    }
  }

  lemma ReportHere(path: string, detail: Detail)
    ensures Report(path, Some(Fault([], detail))) == Some(Finding(path, detail))
  {
    assert path + "" == path;
  }

  // --- The pinned order ------------------------------------------------------------------

  /** The first that is something. */
  function First<T>(s: seq<Option<T>>): Option<T> {
    if s == [] then None
    else if s[0].Some? then s[0]
    else First(s[1..])
  }

  lemma {:induction false} FirstNone<T>(s: seq<Option<T>>)
    ensures First(s).None? <==> forall i :: 0 <= i < |s| ==> s[i].None?
  {
    if s != [] {
      assert s == [s[0]] + s[1..];
      FirstNone(s[1..]);
    }
  }

  /** The index of the first that is something. */
  lemma {:induction false} FirstFound<T>(s: seq<Option<T>>) returns (k: nat)
    requires First(s).Some?
    ensures k < |s| && s[k] == First(s) && forall j :: 0 <= j < k ==> s[j].None?
  {
    if s[0].Some? {
      k := 0;
    } else {
      assert s == [s[0]] + s[1..];
      k := FirstFound(s[1..]);
      k := k + 1;
    }
  }

  function Or<T>(a: Option<T>, b: Option<T>): Option<T> {
    if a.Some? then a else b
  }

  lemma {:induction false} FirstIs<T>(s: seq<Option<T>>, i: nat)
    requires i < |s| && s[i].Some? && forall j :: 0 <= j < i ==> s[j].None?
    ensures First(s) == s[i]
  {
    if i > 0 { FirstIs(s[1..], i - 1); }
  }

  /** The document check: representable, and no number beyond 2^53, in index order and
      in sorted key order. */
  ghost function ScanFault(v: Value): Option<Fault>
    decreases v, 1
  {
    if KindOf(v).None? then Some(Fault([], NotJson))
    else if OverMagnitude(v) then Some(Fault([], Magnitude))
    else if v.Arr? then First(ItemScans(v.items))
    else if v.Obj? then First(MemberScans(v))
    else None
  }

  ghost function ItemScans(items: seq<Value>): (r: seq<Option<Fault>>)
    ensures |r| == |items| && forall i :: 0 <= i < |items| ==> r[i] == Under(Index(i), ScanFault(items[i]))
    decreases items, 0
  {
    seq(|items|, i requires 0 <= i < |items| => Under(Index(i), ScanFault(items[i])))
  }

  ghost function MemberScans(v: Value): (r: seq<Option<Fault>>)
    requires v.Obj?
    ensures var keys := Sorted(v.members.Keys);
      |r| == |keys| && forall i :: 0 <= i < |keys| ==>
        keys[i] in v.members && r[i] == Under(Key(keys[i]), ScanFault(v.members[keys[i]]))
    decreases v, 0
  {
    var keys := Sorted(v.members.Keys);
    assert forall i :: 0 <= i < |keys| ==> keys[i] in Elements(keys);
    seq(|keys|, i requires 0 <= i < |keys| => Under(Key(keys[i]), ScanFault(v.members[keys[i]])))
  }

  /** payloadStringList. */
  function AsStrings(v: Value): (r: Option<seq<string>>)
    ensures r.Some? <==> v.Arr? && forall i :: 0 <= i < |v.items| ==> v.items[i].Str?
    ensures r.Some? ==> |r.value| == |v.items| && forall i :: 0 <= i < |v.items| ==> v.items[i] == Str(r.value[i])
  {
    if v.Arr? && forall i :: 0 <= i < |v.items| ==> v.items[i].Str?
    then Some(seq(|v.items|, i requires 0 <= i < |v.items| => v.items[i].s))
    else None
  }

  /** The first entry an earlier one equals. */
  ghost function Repeats(names: seq<string>): seq<Option<string>> {
    seq(|names|, i requires 0 <= i < |names| => if names[i] in names[..i] then Some(names[i]) else None)
  }

  ghost function UnknownTypes(names: seq<string>): seq<Option<string>> {
    seq(|names|, i requires 0 <= i < |names| => if names[i] in JSON_TYPES then None else Some(names[i]))
  }


  function Here(broken: bool, detail: Detail): Option<Fault> {
    if broken then Some(Fault([], detail)) else None
  }

  ghost function KeywordFaults(names: seq<string>): seq<Option<Fault>> {
    seq(|names|, i requires 0 <= i < |names| => Here(names[i] !in KEYWORDS, UnknownKeyword(names[i])))
  }

  /** The shape of a declared "type". */
  ghost function TypeFault(t: Value): Option<Fault> {
    match t
    case Str(s) => Here(s !in JSON_TYPES, UnknownType(s))
    case Arr(list) =>
      if list == [] then Here(true, TypeEmpty)
      else if AsStrings(t).None? then Here(true, TypeShape)
      else
        var names := AsStrings(t).value;
        var again, unknown := First(Repeats(names)), First(UnknownTypes(names));
        if again.Some? then Here(true, TypeDuplicate(again.value))
        else if unknown.Some? then Here(true, UnknownType(unknown.value))
        else None
    case _ => Here(true, TypeShape)
  }

  ghost function RequiredFault(req: Value): Option<Fault> {
    if AsStrings(req).None? then Here(true, RequiredShape)
    else
      var again := First(Repeats(AsStrings(req).value));
      if again.Some? then Here(true, RequiredDuplicate(again.value)) else None
  }

  ghost function EnumFault(e: Value): Option<Fault> {
    if !e.Arr? || e.items == [] then Here(true, EnumShape) else Under(Into(EnumField), First(ItemScans(e.items)))
  }

  /** The registration check of a schema literal, keyword by keyword in the pinned order. */
  ghost function SchemaFault(schema: Value): Option<Fault>
    decreases schema, 2
  {
    if !schema.Obj? then Some(Fault([], SchemaNotObject(KindOf(schema))))
    else
      var obj := schema.members;
      Or(First(KeywordFaults(Sorted(obj.Keys))),
      Or(if "type" in obj then TypeFault(obj["type"]) else None,
      Or(if "required" in obj then RequiredFault(obj["required"]) else None,
      Or(if "enum" in obj then EnumFault(obj["enum"]) else None,
      Or(if "const" in obj then Under(Into(ConstField), ScanFault(obj["const"])) else None,
      Or(if "properties" in obj then PropertiesFault(obj["properties"]) else None,
      Or(if "items" in obj then Under(Into(ItemsField), SchemaFault(obj["items"])) else None,
         if "additionalProperties" in obj then AdditionalFault(obj["additionalProperties"]) else None)))))))
  }

  ghost function PropertiesFault(p: Value): Option<Fault>
    decreases p, 1
  {
    if !p.Obj? then Here(true, PropertiesShape) else Under(Into(PropertiesField), First(PropertySchemas(p)))
  }

  ghost function PropertySchemas(p: Value): (r: seq<Option<Fault>>)
    requires p.Obj?
    ensures var keys := Sorted(p.members.Keys);
      |r| == |keys| && forall i :: 0 <= i < |keys| ==>
        keys[i] in p.members && r[i] == Under(Key(keys[i]), SchemaFault(p.members[keys[i]]))
    decreases p, 0
  {
    var keys := Sorted(p.members.Keys);
    assert forall i :: 0 <= i < |keys| ==> keys[i] in Elements(keys);
    seq(|keys|, i requires 0 <= i < |keys| => Under(Key(keys[i]), SchemaFault(p.members[keys[i]])))
  }

  ghost function AdditionalFault(ap: Value): Option<Fault>
    decreases ap, 3
  {
    if ap.Bool? then None
    else if !ap.Obj? then Here(true, AddPropsShape)
    else Under(Into(AdditionalField), SchemaFault(ap))
  }

  /** The declared properties; none when the keyword is absent or no object. */
  function Properties(schema: map<string, Value>): map<string, Value> {
    if "properties" in schema && schema["properties"].Obj? then schema["properties"].members else map[]
  }

  /** The names a declared type allows. */
  function TypeNames(t: Value): seq<string> {
    if t.Str? then [t.s] else if AsStrings(t).Some? then AsStrings(t).value else []
  }

  function TypeMismatch(kind: Kind, t: Value): Option<Fault> {
    if exists i :: 0 <= i < |TypeNames(t)| && TypeMatches(TypeNames(t)[i], kind) then None
    else if t.Str? then Here(true, ExpectedType(t.s, kind))
    else Here(true, ExpectedTypes(TypeNames(t), kind))
  }

  function EnumEntries(e: Value): seq<Value> {
    if e.Arr? then e.items else []
  }

  ghost function MissingFaults(v: Value, names: seq<string>): seq<Option<Fault>>
    requires v.Obj?
  {
    seq(|names|, i requires 0 <= i < |names| => Here(names[i] !in v.members, RequiredMissing(names[i])))
  }

  ghost function MissingFault(v: Value, schema: map<string, Value>): Option<Fault> {
    if !v.Obj? || "required" !in schema || AsStrings(schema["required"]).None? then None
    else First(MissingFaults(v, AsStrings(schema["required"]).value))
  }

  /** The keyword half of the emission-time check, in the pinned order. */
  ghost function InstanceFault(v: Value, schema: map<string, Value>): Option<Fault>
    decreases v, 1
  {
    if KindOf(v).None? then Some(Fault([], NotJson))
    else
      Or(if "type" in schema then TypeMismatch(KindOf(v).value, schema["type"]) else None,
      Or(Here("const" in schema && !DeepEqual(v, schema["const"]), ConstMismatch),
      Or(Here("enum" in schema && forall e :: e in EnumEntries(schema["enum"]) ==> !DeepEqual(v, e), EnumMismatch),
      Or(MissingFault(v, schema),
      Or(if v.Obj? then First(PropertyFaults(v, schema)) else None,
      Or(if v.Obj? && Restricts(schema) then First(ExtraFaults(v, schema)) else None,
         if v.Arr? && "items" in schema && schema["items"].Obj?
         then First(ItemFaults(v.items, schema["items"].members)) else None))))))
  }

  /** Whether additional properties are constrained at all. */
  predicate Restricts(schema: map<string, Value>) {
    "additionalProperties" in schema && schema["additionalProperties"] != Bool(true)
  }

  ghost function PropertyFault(v: Value, schema: map<string, Value>, key: string): Option<Fault>
    requires v.Obj? && key in Properties(schema)
    decreases v, 0, 0
  {
    if key in v.members && Properties(schema)[key].Obj?
    then Under(Key(key), InstanceFault(v.members[key], Properties(schema)[key].members))
    else None
  }

  ghost function PropertyFaults(v: Value, schema: map<string, Value>): (r: seq<Option<Fault>>)
    requires v.Obj?
    ensures var keys := Sorted(Properties(schema).Keys);
      |r| == |keys| && forall i :: 0 <= i < |keys| ==>
        keys[i] in Properties(schema) && r[i] == PropertyFault(v, schema, keys[i])
    decreases v, 0, 1
  {
    var keys := Sorted(Properties(schema).Keys);
    assert forall i :: 0 <= i < |keys| ==> keys[i] in Elements(keys);
    seq(|keys|, i requires 0 <= i < |keys| => PropertyFault(v, schema, keys[i]))
  }

  ghost function ExtraFault(v: Value, schema: map<string, Value>, key: string): Option<Fault>
    requires v.Obj? && key in v.members && "additionalProperties" in schema
    decreases v, 0, 0
  {
    var ap := schema["additionalProperties"];
    if key in Properties(schema) then None
    else if ap.Bool? then Here(true, NotPermitted(key))
    else if !ap.Obj? then None
    else Under(Key(key), InstanceFault(v.members[key], ap.members))
  }

  ghost function ExtraFaults(v: Value, schema: map<string, Value>): (r: seq<Option<Fault>>)
    requires v.Obj? && "additionalProperties" in schema
    ensures var keys := Sorted(v.members.Keys);
      |r| == |keys| && forall i :: 0 <= i < |keys| ==>
        keys[i] in v.members && r[i] == ExtraFault(v, schema, keys[i])
    decreases v, 0, 1
  {
    var keys := Sorted(v.members.Keys);
    assert forall i :: 0 <= i < |keys| ==> keys[i] in Elements(keys);
    seq(|keys|, i requires 0 <= i < |keys| => ExtraFault(v, schema, keys[i]))
  }

  ghost function ItemFaults(items: seq<Value>, sub: map<string, Value>): (r: seq<Option<Fault>>)
    ensures |r| == |items| && forall i :: 0 <= i < |items| ==> r[i] == Under(Index(i), InstanceFault(items[i], sub))
    decreases items, 0
  {
    seq(|items|, i requires 0 <= i < |items| => Under(Index(i), InstanceFault(items[i], sub)))
  }
}
