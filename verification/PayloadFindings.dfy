/** What a finding says: a real violation at one position of the document. */
module PayloadFindings {
  import opened Names
  import opened JsonText
  import opened Numbers
  import opened JsonRoundTrip
  import opened PayloadSchema
  import opened PayloadMeaning
  import opened PayloadValidator

  // --- The violation is there --------------------------------------------------------

  /** The list of exactly these names. */
  predicate Listed(t: Value, names: seq<string>) {
    t.Arr? && |t.items| == |names| && forall i :: 0 <= i < |names| ==> t.items[i] == Str(names[i])
  }

  /** The keyword a detail is about, broken by this value. */
  ghost predicate Breaks(v: Value, schema: map<string, Value>, d: Detail) {
    match d
    case ExpectedType(name, got) =>
      "type" in schema && schema["type"] == Str(name) && !HasType(v, name) && KindOf(v) == Some(got)
    case ExpectedTypes(names, got) =>
      "type" in schema && Listed(schema["type"], names) && KindOf(v) == Some(got)
      && forall n :: n in names ==> !HasType(v, n)
    case ConstMismatch => "const" in schema && !Same(v, schema["const"])
    case EnumMismatch =>
      "enum" in schema && schema["enum"].Arr? && forall e :: e in schema["enum"].items ==> !Same(v, e)
    case RequiredMissing(name) =>
      v.Obj? && "required" in schema && Gives(schema["required"], name) && name !in v.members
    case NotPermitted(key) =>
      v.Obj? && key in v.members && !Declares(schema, key)
      && "additionalProperties" in schema && schema["additionalProperties"] == Bool(false)
    case _ => false
  }

  /** Following a position down a value and, beside it, down the schema that governs it, a
      keyword is broken there. */
  ghost predicate BreaksAt(v: Value, schema: map<string, Value>, at: seq<Step>, d: Detail)
    decreases |at|
  {
    if at == [] then Breaks(v, schema, d)
    else
      match at[0]
      case Key(k) =>
        v.Obj? && k in v.members &&
        if Declares(schema, k) then
          && schema["properties"].members[k].Obj?
          && BreaksAt(v.members[k], schema["properties"].members[k].members, at[1..], d)
        else
          && "additionalProperties" in schema && schema["additionalProperties"].Obj?
          && BreaksAt(v.members[k], schema["additionalProperties"].members, at[1..], d)
      case Index(i) =>
        && v.Arr? && i < |v.items| && "items" in schema && schema["items"].Obj?
        && BreaksAt(v.items[i], schema["items"].members, at[1..], d)
      case Into(_) => false
  }

  /** A fault where it says it is. */
  ghost predicate Real(v: Value, schema: map<string, Value>, f: Option<Fault>) {
    f.Some? ==> BreaksAt(v, schema, f.value.at, f.value.detail)
  }

  /** The fault reported is a broken keyword at its position. */
  lemma {:induction false} FaultIsReal(v: Value, schema: map<string, Value>)
    requires IsSchema(Obj(schema)) && Clean(v)
    ensures Real(v, schema, InstanceFault(v, schema))
    decreases v, 3
  {
    HereIsReal(v, schema);
    if v.Obj? {
      DeclaredAreReal(v, schema);
      if Restricts(schema) { ExtrasAreReal(v, schema); }
    }
    if v.Arr? && "items" in schema && schema["items"].Obj? { ItemsAreReal(v, schema); }
    RealParts(v, schema);
  }

  /** The fault reported is one of the keywords'. */
  lemma RealParts(v: Value, schema: map<string, Value>)
    requires KindOf(v).Some?
    requires "type" in schema ==> Real(v, schema, TypeMismatch(KindOf(v).value, schema["type"]))
    requires Real(v, schema, Here("const" in schema && !DeepEqual(v, schema["const"]), ConstMismatch))
    requires Real(v, schema,
      Here("enum" in schema && forall e :: e in EnumEntries(schema["enum"]) ==> !DeepEqual(v, e), EnumMismatch))
    requires Real(v, schema, MissingFault(v, schema))
    requires v.Obj? ==> Real(v, schema, First(PropertyFaults(v, schema)))
    requires v.Obj? && Restricts(schema) ==> Real(v, schema, First(ExtraFaults(v, schema)))
    requires v.Arr? && "items" in schema && schema["items"].Obj? ==>
      Real(v, schema, First(ItemFaults(v.items, schema["items"].members)))
    ensures Real(v, schema, InstanceFault(v, schema))
  {
    hide First, DeepEqual, BreaksAt, MissingFault, TypeMismatch, EnumEntries, PropertyFaults, ExtraFaults;
    hide ItemFaults, Restricts;
  }

  lemma {:induction false} DeclaredAreReal(v: Value, schema: map<string, Value>)
    requires v.Obj? && IsSchema(Obj(schema)) && Clean(v)
    ensures Real(v, schema, First(PropertyFaults(v, schema)))
    decreases v, 2
  {
    hide First, Clean, BreaksAt, Sorted, Properties;
    if First(PropertyFaults(v, schema)).Some? {
      var i := FirstFound(PropertyFaults(v, schema));
      DeclaredIsReal(v, schema, Sorted(Properties(schema).Keys)[i]);
    }
  }

  lemma {:induction false} ExtrasAreReal(v: Value, schema: map<string, Value>)
    requires v.Obj? && Restricts(schema) && IsSchema(Obj(schema)) && Clean(v)
    ensures Real(v, schema, First(ExtraFaults(v, schema)))
    decreases v, 2
  {
    hide First, Clean, BreaksAt, Sorted, Properties;
    if First(ExtraFaults(v, schema)).Some? {
      var i := FirstFound(ExtraFaults(v, schema));
      ExtraIsReal(v, schema, Sorted(v.members.Keys)[i]);
    }
  }

  lemma {:induction false} ItemsAreReal(v: Value, schema: map<string, Value>)
    requires v.Arr? && "items" in schema && schema["items"].Obj? && IsSchema(Obj(schema)) && Clean(v)
    ensures Real(v, schema, First(ItemFaults(v.items, schema["items"].members)))
    decreases v, 2
  {
    hide First, Clean, BreaksAt;
    if First(ItemFaults(v.items, schema["items"].members)).Some? {
      var i := FirstFound(ItemFaults(v.items, schema["items"].members));
      ItemIsReal(v, schema, i);
    }
  }

  /** type, const, enum and required break at the value itself. */
  lemma HereIsReal(v: Value, schema: map<string, Value>)
    requires IsSchema(Obj(schema)) && Clean(v)
    ensures KindOf(v).Some?
    ensures "type" in schema ==> Real(v, schema, TypeMismatch(KindOf(v).value, schema["type"]))
    ensures Real(v, schema, Here("const" in schema && !DeepEqual(v, schema["const"]), ConstMismatch))
    ensures Real(v, schema,
      Here("enum" in schema && forall e :: e in EnumEntries(schema["enum"]) ==> !DeepEqual(v, e), EnumMismatch))
    ensures Real(v, schema, MissingFault(v, schema))
  {
    hide DeepEqual, Same, IsSchema, Clean, Properties, IsType, HasType, First, TypeMismatch, MissingFault, Gives;
    ScalarKeywords(v, schema);
    LiteralShapes(schema);
    if "type" in schema && TypeMismatch(KindOf(v).value, schema["type"]).Some? { TypeFaultIsReal(v, schema); }
    if MissingFault(v, schema).Some? { MissingIsReal(v, schema); }
  }

  lemma LiteralShapes(schema: map<string, Value>)
    requires IsSchema(Obj(schema))
    ensures "enum" in schema ==> schema["enum"].Arr?
    ensures "type" in schema ==> IsType(schema["type"])
  {
  }

  /** A fault of a child is a fault of its parent, one step down. */
  lemma StepDown(v: Value, schema: map<string, Value>, step: Step, child: Value, sub: map<string, Value>,
                 f: Option<Fault>)
    requires Real(child, sub, f)
    requires match step
      case Key(k) =>
        v.Obj? && k in v.members && v.members[k] == child &&
        (if k in Properties(schema) then Properties(schema)[k] == Obj(sub)
         else "additionalProperties" in schema && schema["additionalProperties"] == Obj(sub))
      case Index(i) => v.Arr? && i < |v.items| && v.items[i] == child &&
        "items" in schema && schema["items"] == Obj(sub)
      case Into(_) => false
    ensures Real(v, schema, Under(step, f))
  {
    if f.Some? {
      assert ([step] + f.value.at)[1..] == f.value.at;
    }
  }

  lemma {:induction false} DeclaredIsReal(v: Value, schema: map<string, Value>, key: string)
    requires v.Obj? && key in Properties(schema) && IsSchema(Obj(schema)) && Clean(v)
    ensures Real(v, schema, PropertyFault(v, schema, key))
    decreases v, 1
  {
    hide InstanceFault, Real, Under;
    if key in v.members {
      var sub := Properties(schema)[key];
      FaultIsReal(v.members[key], sub.members);
      StepDown(v, schema, Key(key), v.members[key], sub.members, InstanceFault(v.members[key], sub.members));
    } else {
      assert PropertyFault(v, schema, key).None?;
      NothingIsReal(v, schema);
    }
  }

  lemma NothingIsReal(v: Value, schema: map<string, Value>)
    ensures Real(v, schema, None)
  {
  }

  lemma {:induction false} ExtraIsReal(v: Value, schema: map<string, Value>, key: string)
    requires v.Obj? && key in v.members && Restricts(schema) && IsSchema(Obj(schema)) && Clean(v)
    ensures Real(v, schema, ExtraFault(v, schema, key))
    decreases v, 1
  {
    hide InstanceFault;
    var ap := schema["additionalProperties"];
    if key !in Properties(schema) && ap.Obj? {
      FaultIsReal(v.members[key], ap.members);
      StepDown(v, schema, Key(key), v.members[key], ap.members, InstanceFault(v.members[key], ap.members));
    }
  }

  lemma {:induction false} ItemIsReal(v: Value, schema: map<string, Value>, i: nat)
    requires v.Arr? && i < |v.items| && "items" in schema && schema["items"].Obj? && IsSchema(Obj(schema)) && Clean(v)
    ensures Real(v, schema, Under(Index(i), InstanceFault(v.items[i], schema["items"].members)))
    decreases v, 1
  {
    hide InstanceFault;
    var sub := schema["items"].members;
    FaultIsReal(v.items[i], sub);
    StepDown(v, schema, Index(i), v.items[i], sub, InstanceFault(v.items[i], sub));
  }

  lemma TypeFaultIsReal(v: Value, schema: map<string, Value>)
    requires KindOf(v).Some? && "type" in schema && IsType(schema["type"])
    requires TypeMismatch(KindOf(v).value, schema["type"]).Some?
    ensures var f := TypeMismatch(KindOf(v).value, schema["type"]).value; f.at == [] && Breaks(v, schema, f.detail)
  {
    TypeIff(v, schema["type"]);
    StringsMean(schema["type"]);
  }

  lemma MissingIsReal(v: Value, schema: map<string, Value>)
    requires MissingFault(v, schema).Some?
    ensures var f := MissingFault(v, schema).value; f.at == [] && Breaks(v, schema, f.detail)
  {
    var names := AsStrings(schema["required"]).value;
    var k := FirstFound(MissingFaults(v, names));
    assert names[k] in names;
  }

  /** Down this position stands a number that cannot be emitted, or is beyond 2^53. */
  predicate BadNumberAt(v: Value, at: seq<Step>, d: Detail)
    decreases |at|
  {
    if at == [] then
      || (d == NotJson && v == Num(OutOfRange))
      || (d == Magnitude && v.Num? && v.n.Finite? && !WithinGuard(v.n))
    else
      match at[0]
      case Key(k) => v.Obj? && k in v.members && BadNumberAt(v.members[k], at[1..], d)
      case Index(i) => v.Arr? && i < |v.items| && BadNumberAt(v.items[i], at[1..], d)
      case Into(_) => false
  }

  lemma {:induction false} ScanIsReal(v: Value)
    requires ScanFault(v).Some?
    ensures BadNumberAt(v, ScanFault(v).value.at, ScanFault(v).value.detail)
  {
    hide First;
    if v.Arr? {
      var i := FirstFound(ItemScans(v.items));
      ScanIsReal(v.items[i]);
      assert ScanFault(v).value.at[1..] == ScanFault(v.items[i]).value.at;
    } else if v.Obj? {
      var i := FirstFound(MemberScans(v));
      var key := Sorted(v.members.Keys)[i];
      ScanIsReal(v.members[key]);
      assert ScanFault(v).value.at[1..] == ScanFault(v.members[key]).value.at;
    }
  }

  ghost predicate Explains(v: Value, schema: map<string, Value>, fault: Fault) {
    BadNumberAt(v, fault.at, fault.detail) || (Clean(v) && BreaksAt(v, schema, fault.at, fault.detail))
  }

  /** validatePayloadValue on normalised documents: nothing is reported exactly of the
      clean values that satisfy the registered schema; anything reported is really there. */
  method ValidateValue(value: Value, schema: map<string, Value>) returns (f: Option<Finding>)
    requires IsSchema(Obj(schema))
    ensures f.None? <==> Clean(value) && Satisfies(value, schema)
    ensures f.Some? ==> exists fault :: f == Report("payload", Some(fault)) && Explains(value, schema, fault)
  {
    hide Report, Satisfies, IsSchema, Clean, BreaksAt, BadNumberAt, ScanFault, InstanceFault;
    f := ScanValue(value, "payload");
    ScanIff(value);
    if f.Some? {
      ScanIsReal(value);
      assert f == Report("payload", Some(ScanFault(value).value));
      return f;
    }
    f := ValidateInstance(value, schema, "payload");
    InstanceIff(value, schema);
    FaultIsReal(value, schema);
    if f.Some? {
      assert f == Report("payload", Some(InstanceFault(value, schema).value));
    }
  }

  // --- One position ---------------------------------------------------------------------------

  /** Whether a path goes on, or ends, at i. */
  predicate StepEnds(s: string, i: nat) {
    i == |s| || (i < |s| && (s[i] == '.' || s[i] == '['))
  }

  function WordEnd(s: string, i: nat): (e: nat)
    requires i <= |s|
    ensures i <= e <= |s|
    decreases |s| - i
  {
    if i < |s| && s[i] != '.' && s[i] != '[' then WordEnd(s, i + 1) else i
  }

  function FieldOf(name: string): Option<Field> {
    match name
    case "enum" => Some(EnumField)
    case "const" => Some(ConstField)
    case "properties" => Some(PropertiesField)
    case "items" => Some(ItemsField)
    case "additionalProperties" => Some(AdditionalField)
    case _ => None
  }

  /** The step at i. */
  function ReadStep(s: string, i: nat): (r: Read<Step>)
    requires i <= |s|
    ensures r.Got? ==> i < r.next <= |s|
  {
    if i + 1 >= |s| then Bad
    else if s[i] == '.' then
      var e := WordEnd(s, i + 1);
      var f := FieldOf(s[i + 1..e]);
      if f.None? then Bad else Got(Into(f.value), e)
    else if s[i] != '[' then Bad
    else if s[i + 1] == '"' then
      var key := ReadChars(s, i + 2);
      if key.Bad? || key.next == |s| || s[key.next] != ']' then Bad else Got(Key(key.value), key.next + 1)
    else
      var index := ReadInt(s, i + 1);
      if index.Bad? || index.next == |s| || s[index.next] != ']' || !index.value.JInt? || index.value.n < 0 then Bad
      else Got(Index(index.value.n), index.next + 1)
  }

  /** The steps from i to the end. */
  function ReadSteps(s: string, i: nat): Option<seq<Step>>
    requires i <= |s|
    decreases |s| - i
  {
    if i == |s| then Some([])
    else
      var step := ReadStep(s, i);
      if step.Bad? then None
      else
        var rest := ReadSteps(s, step.next);
        if rest.None? then None else Some([step.value] + rest.value)
  }

  lemma {:induction false} WordEndAt(s: string, i: nat, w: string)
    requires At(s, i, w) && StepEnds(s, i + |w|)
    requires forall k :: 0 <= k < |w| ==> w[k] != '.' && w[k] != '['
    ensures WordEnd(s, i) == i + |w|
    decreases |w|
  {
    AtIndex(s, i, w);
    if w != "" {
      assert w == [w[0]] + w[1..];
      AtParts(s, i, [w[0]], w[1..]);
      WordEndAt(s, i + 1, w[1..]);
    }
  }

  /** A field's name has no separator, and names that field. */
  lemma FieldPlain(f: Field)
    ensures FieldOf(FieldName(f)) == Some(f) && FieldName(f) != ""
    ensures forall k :: 0 <= k < |FieldName(f)| ==> FieldName(f)[k] != '.' && FieldName(f)[k] != '['
  {
    var n := FieldName(f);
    match f {
      case EnumField => assert n == ['e', 'n', 'u', 'm'];
      case ConstField => assert n == ['c', 'o', 'n', 's', 't'];
      case PropertiesField => assert n == ['p', 'r', 'o', 'p', 'e', 'r', 't', 'i', 'e', 's'];
      case ItemsField => assert n == ['i', 't', 'e', 'm', 's'];
      case AdditionalField =>
        assert n ==
          ['a', 'd', 'd', 'i', 't', 'i', 'o', 'n', 'a', 'l', 'P', 'r', 'o', 'p', 'e', 'r', 't', 'i', 'e', 's'];
    }
  }

  lemma ReadField(f: Field, s: string, i: nat)
    requires At(s, i, "." + FieldName(f)) && StepEnds(s, i + 1 + |FieldName(f)|)
    ensures ReadStep(s, i) == Got(Into(f), i + 1 + |FieldName(f)|)
  {
    FieldPlain(f);
    hide FieldName, FieldOf;
    AtParts(s, i, ".", FieldName(f));
    AtHead(s, i, ".");
    WordEndAt(s, i + 1, FieldName(f));
  }

  lemma ReadKey(key: string, s: string, i: nat)
    requires At(s, i, "[" + Quote(Pretty, key) + "]")
    ensures ReadStep(s, i) == Got(Key(key), i + |Quote(Pretty, key)| + 2)
  {
    hide Quote, At, ReadChars;
    var q := Quote(Pretty, key);
    QuotedLayout(key, s, i);
    ReadQuoted(Pretty, key, s, i + 1);
  }

  lemma QuotedLayout(key: string, s: string, i: nat)
    requires At(s, i, "[" + Quote(Pretty, key) + "]")
    ensures Quote(Pretty, key) != ""
    ensures At(s, i + 1, Quote(Pretty, key))
    ensures var e := i + 1 + |Quote(Pretty, key)|; i < |s| && s[i] == '[' && e < |s| && s[e] == ']'
  {
    hide At;
    var q := Quote(Pretty, key);
    AtParts(s, i, "[" + q, "]");
    AtParts(s, i, "[", q);
    AtHead(s, i, "[");
    AtHead(s, i + 1 + |q|, "]");
  }

  lemma ReadIndex(index: nat, s: string, i: nat)
    requires At(s, i, "[" + Itoa(index) + "]")
    ensures ReadStep(s, i) == Got(Index(index), i + |Itoa(index)| + 2)
  {
    hide At, Itoa, ReadInt;
    var q := Itoa(index);
    AtParts(s, i, "[" + q, "]");
    AtParts(s, i, "[", q);
    AtHead(s, i, "[");
    AtHead(s, i + 1 + |q|, "]");
    ReadItoa(s, i + 1, index);
  }

  lemma ReadRendered(step: Step, s: string, i: nat)
    requires At(s, i, RenderStep(step)) && StepEnds(s, i + |RenderStep(step)|)
    ensures ReadStep(s, i) == Got(step, i + |RenderStep(step)|)
  {
    match step {
      case Key(key) => ReadKey(key, s, i);
      case Index(index) => ReadIndex(index, s, i);
      case Into(field) => ReadField(field, s, i);
    }
  }

  /** A rendered path reads back as its steps. */
  lemma {:induction false} PathReads(at: seq<Step>, s: string, i: nat)
    requires At(s, i, Render(at)) && i + |Render(at)| == |s|
    ensures ReadSteps(s, i) == Some(at)
    decreases |at|
  {
    hide At, RenderStep, ReadStep, StepEnds;
    if at != [] {
      var head, rest := RenderStep(at[0]), Render(at[1..]);
      AtParts(s, i, head, rest);
      RenderOpens(at[1..], s, i + |head|);
      ReadRendered(at[0], s, i);
      PathReads(at[1..], s, i + |head|);
      assert at == [at[0]] + at[1..];
    }
  }

  lemma RenderOpens(at: seq<Step>, s: string, i: nat)
    requires At(s, i, Render(at)) && i + |Render(at)| == |s|
    ensures StepEnds(s, i)
  {
    if at != [] {
      AtParts(s, i, RenderStep(at[0]), Render(at[1..]));
      AtHead(s, i, RenderStep(at[0]));
    }
  }

  /** Two findings under one root with the same path are at the same position. */
  lemma PathInjective(root: string, a: Fault, b: Fault)
    requires Report(root, Some(a)).value.path == Report(root, Some(b)).value.path
    ensures a.at == b.at
  {
    var s := Render(a.at);
    assert (root + Render(a.at))[|root|..] == Render(a.at);
    assert (root + Render(b.at))[|root|..] == Render(b.at);
    assert s[0..|s|] == s;
    PathReads(a.at, s, 0);
    PathReads(b.at, s, 0);
  }
}
