/** What the closed keyword set means (JSON Schema 2020-12 Validation, sections 6.1.1 to
    6.1.3 and 6.5.3), and that the two checks decide it. */
module PayloadMeaning {
  import opened Names
  import opened PayloadSchema

  // --- Values -------------------------------------------------------------------------

  /** The value without the spelling of its numbers. */
  function Erase(v: Value): Value {
    match v
    case Num(Finite(f, _)) => Num(Finite(f, None))
    case Arr(items) => Arr(seq(|items|, i requires 0 <= i < |items| => Erase(items[i])))
    case Obj(members) => Obj(map k | k in members :: Erase(members[k]))
    case _ => v
  }

  predicate Same(a: Value, b: Value) {
    Erase(a) == Erase(b)
  }

  /** Every number in it is one a float64 holds. */
  predicate Representable(v: Value) {
    match v
    case Num(n) => n.Finite?
    case Arr(items) => forall i :: 0 <= i < |items| ==> Representable(items[i])
    case Obj(members) => forall k :: k in members ==> Representable(members[k])
    case _ => true
  }

  /** No further from zero than 2^53: the integer where the literal spells one, the float otherwise. */
  predicate WithinGuard(n: Number) {
    n.Finite? &&
    match n.literal
    case Some(i) => -9007199254740992 <= i <= 9007199254740992
    case None => -9007199254740992.0 <= n.value <= 9007199254740992.0
  }

  /** Representable, and within the guard throughout. */
  predicate Clean(v: Value) {
    match v
    case Num(n) => WithinGuard(n)
    case Arr(items) => forall i :: 0 <= i < |items| ==> Clean(items[i])
    case Obj(members) => forall k :: k in members ==> Clean(members[k])
    case _ => true
  }

  /** payloadDeepEqual is sameness up to spelling, on representable values; so it is
      symmetric and transitive, and reflexive exactly there. */
  lemma {:induction false} DeepEqualMeans(a: Value, b: Value)
    ensures DeepEqual(a, b) <==> Representable(a) && Representable(b) && Same(a, b)
  {
    match (a, b) {
      case (Arr(xs), Arr(ys)) =>
        if |xs| == |ys| {
          forall i | 0 <= i < |xs|
            ensures DeepEqual(xs[i], ys[i]) <==> Representable(xs[i]) && Representable(ys[i]) && Same(xs[i], ys[i])
          {
            DeepEqualMeans(xs[i], ys[i]);
          }
          assert Same(a, b) <==> forall i :: 0 <= i < |xs| ==> Same(xs[i], ys[i]) by {
            assert forall i :: 0 <= i < |xs| ==> Erase(a).items[i] == Erase(xs[i]) && Erase(b).items[i] == Erase(ys[i]);
          }
        } else {
          assert |Erase(a).items| != |Erase(b).items|;
        }
      case (Obj(xs), Obj(ys)) =>
        forall k | k in xs && k in ys
          ensures DeepEqual(xs[k], ys[k]) <==> Representable(xs[k]) && Representable(ys[k]) && Same(xs[k], ys[k])
        {
          DeepEqualMeans(xs[k], ys[k]);
        }
        ObjectsSame(xs, ys);
      case _ =>
    }
  }

  lemma ObjectsSame(xs: map<string, Value>, ys: map<string, Value>)
    ensures Same(Obj(xs), Obj(ys)) <==> xs.Keys == ys.Keys && forall k :: k in xs.Keys ==> Same(xs[k], ys[k])
    ensures xs.Keys == ys.Keys <==> |xs| == |ys| && forall k :: k in xs ==> k in ys
  {
    assert |xs| == |xs.Keys| && |ys| == |ys.Keys|;
    if |xs| == |ys| && forall k :: k in xs ==> k in ys {
      SubsetEqual(xs.Keys, ys.Keys);
    }
    var ex, ey := Erase(Obj(xs)).members, Erase(Obj(ys)).members;
    assert ex.Keys == xs.Keys && ey.Keys == ys.Keys;
  }

  lemma {:induction false} SubsetEqual(a: set<string>, b: set<string>)
    requires a <= b && |a| == |b|
    ensures a == b
  {
    if x :| x in b && x !in a {
      assert a <= b - {x};
      SubsetCount(a, b - {x});
    }
  }

  lemma {:induction false} SubsetCount(a: set<string>, b: set<string>)
    requires a <= b
    ensures |a| <= |b|
  {
    if x :| x in a { SubsetCount(a - {x}, b - {x}); }
  }

  lemma DeepEqualEquivalence(a: Value, b: Value, c: Value)
    ensures DeepEqual(a, a) <==> Representable(a)
    ensures DeepEqual(a, b) ==> DeepEqual(b, a)
    ensures DeepEqual(a, b) && DeepEqual(b, c) ==> DeepEqual(a, c)
  {
    DeepEqualMeans(a, a);
    DeepEqualMeans(a, b);
    DeepEqualMeans(b, a);
    DeepEqualMeans(b, c);
    DeepEqualMeans(a, c);
  }

  /** The document check passes exactly the clean values. */
  lemma {:induction false} ScanIff(v: Value)
    ensures ScanFault(v).None? <==> Clean(v)
  {
    match v {
      case Arr(items) =>
        forall i | 0 <= i < |items| ensures ScanFault(items[i]).None? <==> Clean(items[i]) { ScanIff(items[i]); }
        FirstNone(ItemScans(items));
        assert forall i :: 0 <= i < |items| ==> (ItemScans(items)[i].None? <==> Clean(items[i]));
      case Obj(members) =>
        forall k | k in members ensures ScanFault(members[k]).None? <==> Clean(members[k]) { ScanIff(members[k]); }
        var keys := Sorted(members.Keys);
        FirstNone(MemberScans(v));
        assert forall i :: 0 <= i < |keys| ==> (MemberScans(v)[i].None? <==> Clean(members[keys[i]]));
        AllListed(Sorted(members.Keys), members.Keys, set k | k in members && Clean(members[k]));
      case _ =>
    }
  }

  /** The keys are all good just when they are along a listing of them. */
  lemma AllListed(s: seq<string>, keys: set<string>, good: set<string>)
    requires Elements(s) == keys
    ensures forall i :: 0 <= i < |s| ==> s[i] in keys
    ensures keys <= good <==> forall i :: 0 <= i < |s| ==> s[i] in good
  {
    assert forall i :: 0 <= i < |s| ==> s[i] in Elements(s);
    forall k | k in keys && (forall i :: 0 <= i < |s| ==> s[i] in good) ensures k in good {
      assert k in Elements(s);
      var i :| 0 <= i < |s| && s[i] == k;
    }
  }

  // --- Schemas ----------------------------------------------------------------------------

  predicate Keyword(kw: string) {
    || kw == "type" || kw == "const" || kw == "enum" || kw == "required" || kw == "properties" || kw == "items"
    || kw == "additionalProperties"
  }

  predicate TypeName(n: string) {
    || n == "null" || n == "boolean" || n == "integer" || n == "number" || n == "string" || n == "array"
    || n == "object"
  }

  /** Strings, none twice. */
  ghost predicate DistinctStrings(v: Value) {
    v.Arr? && (forall i :: 0 <= i < |v.items| ==> v.items[i].Str?) && Distinct(v.items)
  }

  /** A type name, or a list of some. */
  ghost predicate IsType(t: Value) {
    if t.Str? then TypeName(t.s)
    else DistinctStrings(t) && t.items != [] && forall i :: 0 <= i < |t.items| ==> TypeName(t.items[i].s)
  }

  /** A name given by itself or in a list. */
  predicate Gives(t: Value, n: string) {
    t == Str(n) || (t.Arr? && Str(n) in t.items)
  }

  /** The schema has a property of this name. */
  predicate Declares(schema: map<string, Value>, k: string) {
    "properties" in schema && schema["properties"].Obj? && k in schema["properties"].members
  }

  lemma WordsMean(w: string)
    ensures w in KEYWORDS <==> Keyword(w)
    ensures w in JSON_TYPES <==> TypeName(w)
  {
  }

  lemma StringsMean(v: Value)
    ensures DistinctStrings(v) <==> AsStrings(v).Some? && Distinct(AsStrings(v).value)
    ensures AsStrings(v).Some? ==> forall n :: n in AsStrings(v).value <==> Str(n) in v.items
  {
    if AsStrings(v).Some? {
      var names := AsStrings(v).value;
      forall n | Str(n) in v.items ensures n in names {
        var i :| 0 <= i < |v.items| && v.items[i] == Str(n);
        assert names[i] == n;
      }
      if Distinct(names) {
        forall i, j | 0 <= i < j < |v.items| ensures v.items[i] != v.items[j] {
          assert names[i] != names[j];
        }
      }
      if DistinctStrings(v) {
        forall i, j | 0 <= i < j < |names| ensures names[i] != names[j] {
          assert v.items[i] != v.items[j];
        }
      }
    }
  }

  /** What is given is what is listed. */
  lemma GivesMeans(t: Value, n: string)
    requires t.Str? || AsStrings(t).Some?
    ensures Gives(t, n) <==> n in TypeNames(t)
  {
    StringsMean(t);
  }

  /** The literals the closed subset admits. */
  ghost predicate IsSchema(schema: Value) {
    schema.Obj? &&
    var obj := schema.members;
    && (forall kw :: kw in obj ==> Keyword(kw))
    && ("type" in obj ==> IsType(obj["type"]))
    && ("required" in obj ==> DistinctStrings(obj["required"]))
    && ("enum" in obj ==> obj["enum"].Arr? && obj["enum"].items != [] && Clean(obj["enum"]))
    && ("const" in obj ==> Clean(obj["const"]))
    && ("properties" in obj ==>
          obj["properties"].Obj? &&
            forall k :: k in obj["properties"].members ==> IsSchema(obj["properties"].members[k]))
    && ("items" in obj ==> IsSchema(obj["items"]))
    && ("additionalProperties" in obj ==> obj["additionalProperties"].Bool? || IsSchema(obj["additionalProperties"]))
  }

  lemma RepeatIff(names: seq<string>)
    ensures First(Repeats(names)).None? <==> Distinct(names)
  {
    FirstNone(Repeats(names));
    if First(Repeats(names)).None? {
      forall i, j | 0 <= i < j < |names| ensures names[i] != names[j] {
        assert Repeats(names)[j].None?;
        assert names[..j][i] == names[i];
      }
    } else {
      var j :| 0 <= j < |names| && Repeats(names)[j].Some?;
      var i :| 0 <= i < j && names[..j][i] == names[j];
      assert names[i] == names[j];
    }
  }

  lemma TypeShapeIff(t: Value)
    ensures TypeFault(t).None? <==> IsType(t)
  {
    StringsMean(t);
    if t.Str? { WordsMean(t.s); }
    if AsStrings(t).Some? {
      var names := AsStrings(t).value;
      RepeatIff(names);
      FirstNone(UnknownTypes(names));
      forall i | 0 <= i < |names| ensures UnknownTypes(names)[i].None? <==> TypeName(t.items[i].s) {
        WordsMean(names[i]);
      }
    }
  }

  lemma RequiredShapeIff(req: Value)
    ensures RequiredFault(req).None? <==> DistinctStrings(req)
  {
    StringsMean(req);
    if AsStrings(req).Some? { RepeatIff(AsStrings(req).value); }
  }

  lemma EnumShapeIff(e: Value)
    ensures EnumFault(e).None? <==> e.Arr? && e.items != [] && Clean(e)
  {
    if e.Arr? {
      FirstNone(ItemScans(e.items));
      forall i | 0 <= i < |e.items| ensures ItemScans(e.items)[i].None? <==> Clean(e.items[i]) {
        ScanIff(e.items[i]);
      }
    }
  }

  lemma KeywordsIff(keys: set<string>)
    ensures First(KeywordFaults(Sorted(keys))).None? <==> forall kw :: kw in keys ==> Keyword(kw)
  {
    var s := Sorted(keys);
    forall kw | kw in keys ensures kw in KEYWORDS <==> Keyword(kw) { WordsMean(kw); }
    FirstNone(KeywordFaults(s));
    assert forall i :: 0 <= i < |s| ==> (KeywordFaults(s)[i].None? <==> s[i] in KEYWORDS);
    AllListed(Sorted(keys), keys, set kw | kw in keys && kw in KEYWORDS);
  }

  /** Nothing is wrong exactly when no keyword is. */
  lemma SchemaFaultParts(schema: Value)
    requires schema.Obj?
    ensures var obj := schema.members;
      SchemaFault(schema).None? <==>
      && First(KeywordFaults(Sorted(obj.Keys))).None?
      && ("type" in obj ==> TypeFault(obj["type"]).None?)
      && ("required" in obj ==> RequiredFault(obj["required"]).None?)
      && ("enum" in obj ==> EnumFault(obj["enum"]).None?)
      && ("const" in obj ==> ScanFault(obj["const"]).None?)
      && ("properties" in obj ==> PropertiesFault(obj["properties"]).None?)
      && ("items" in obj ==> SchemaFault(obj["items"]).None?)
      && ("additionalProperties" in obj ==> AdditionalFault(obj["additionalProperties"]).None?)
  {
    hide TypeFault, RequiredFault, EnumFault, PropertiesFault, AdditionalFault, First, KeywordFaults, Sorted, ScanFault;
  }

  lemma IsSchemaParts(schema: Value)
    requires schema.Obj?
    ensures var obj := schema.members;
      IsSchema(schema) <==>
      && (forall kw :: kw in obj ==> Keyword(kw))
      && ("type" in obj ==> IsType(obj["type"]))
      && ("required" in obj ==> DistinctStrings(obj["required"]))
      && ("enum" in obj ==> obj["enum"].Arr? && obj["enum"].items != [] && Clean(obj["enum"]))
      && ("const" in obj ==> Clean(obj["const"]))
      && ("properties" in obj ==> ArePropertySchemas(obj["properties"]))
      && ("items" in obj ==> IsSchema(obj["items"]))
      && ("additionalProperties" in obj ==> obj["additionalProperties"].Bool? || IsSchema(obj["additionalProperties"]))
  {
    hide IsType, DistinctStrings, Clean;
  }

  ghost predicate ArePropertySchemas(p: Value) {
    p.Obj? && forall k :: k in p.members ==> IsSchema(p.members[k])
  }

  /** Registration accepts exactly the schemas. */
  lemma {:induction false} SchemaIff(schema: Value)
    ensures SchemaFault(schema).None? <==> IsSchema(schema)
    decreases schema, 1
  {
    if schema.Obj? {
      var obj := schema.members;
      SchemaFaultParts(schema);
      IsSchemaParts(schema);
      hide SchemaFault, IsSchema;
      hide TypeFault, RequiredFault, EnumFault, PropertiesFault, AdditionalFault, First, KeywordFaults, Sorted;
      hide IsType, DistinctStrings, ScanFault, Clean;
      KeywordsIff(obj.Keys);
      if "type" in obj { TypeShapeIff(obj["type"]); }
      if "required" in obj { RequiredShapeIff(obj["required"]); }
      if "enum" in obj { EnumShapeIff(obj["enum"]); }
      if "const" in obj { ScanIff(obj["const"]); }
      if "properties" in obj { PropertiesIff(obj["properties"]); }
      if "items" in obj { SchemaIff(obj["items"]); }
      if "additionalProperties" in obj { AdditionalIff(obj["additionalProperties"]); }
    }
  }

  lemma {:induction false} AdditionalIff(ap: Value)
    ensures AdditionalFault(ap).None? <==> ap.Bool? || IsSchema(ap)
    decreases ap, 2
  {
    hide SchemaFault;
    if ap.Obj? { SchemaIff(ap); }
  }

  lemma {:induction false} PropertiesIff(p: Value)
    ensures PropertiesFault(p).None? <==> p.Obj? && forall k :: k in p.members ==> IsSchema(p.members[k])
    decreases p, 0
  {
    if p.Obj? {
      forall k | k in p.members ensures SchemaFault(p.members[k]).None? <==> IsSchema(p.members[k]) {
        SchemaIff(p.members[k]);
      }
      var keys := Sorted(p.members.Keys);
      FirstNone(PropertySchemas(p));
      assert forall i :: 0 <= i < |keys| ==> (PropertySchemas(p)[i].None? <==> IsSchema(p.members[keys[i]]));
      AllListed(Sorted(p.members.Keys), p.members.Keys, set k | k in p.members && IsSchema(p.members[k]));
    }
  }

  // --- Instances --------------------------------------------------------------------------------

  /** What a type name says of a value. */
  ghost predicate HasType(v: Value, name: string) {
    || (name == "null" && v.Null?)
    || (name == "boolean" && v.Bool?)
    || (name == "string" && v.Str?)
    || (name == "array" && v.Arr?)
    || (name == "object" && v.Obj?)
    || (name == "number" && v.Num? && v.n.Finite?)
    || (name == "integer" && v.Num? && v.n.Finite? && v.n.value == v.n.value.Floor as real)
  }

  /** A value against a schema: each keyword says what it says, wherever it stands. */
  ghost predicate Satisfies(v: Value, schema: map<string, Value>)
    decreases v, 0
  {
    && ("type" in schema ==> exists n :: Gives(schema["type"], n) && HasType(v, n))
    && ("const" in schema ==> Same(v, schema["const"]))
    && ("enum" in schema ==> schema["enum"].Arr? && exists e :: e in schema["enum"].items && Same(v, e))
    && (v.Obj? && "required" in schema ==> forall n :: Gives(schema["required"], n) ==> n in v.members)
    && (v.Obj? ==> forall k :: k in v.members ==> MemberAllowed(v, k, schema))
    && (v.Arr? && "items" in schema ==> forall i :: 0 <= i < |v.items| ==> Allows(v.items[i], schema["items"]))
  }

  /** A declared property answers to its own schema, any other to additionalProperties. */
  ghost predicate MemberAllowed(v: Value, k: string, schema: map<string, Value>)
    requires v.Obj? && k in v.members
    decreases v.members[k], 2
  {
    if Declares(schema, k) then Allows(v.members[k], schema["properties"].members[k])
    else "additionalProperties" in schema ==> Allows(v.members[k], schema["additionalProperties"])
  }

  /** The boolean schemas allow everything and nothing. */
  ghost predicate Allows(v: Value, schema: Value)
    decreases v, 1
  {
    match schema
    case Bool(b) => b
    case Obj(members) => Satisfies(v, members)
    case _ => false
  }

  lemma TypeMatchesMeans(name: string, v: Value)
    requires KindOf(v).Some?
    ensures TypeMatches(name, KindOf(v).value) <==> HasType(v, name)
  {
  }

  lemma TypeIff(v: Value, t: Value)
    requires KindOf(v).Some?
    ensures TypeMismatch(KindOf(v).value, t).None? <==> exists n :: n in TypeNames(t) && HasType(v, n)
  {
    var names, kind := TypeNames(t), KindOf(v).value;
    hide TypeMatches, HasType, TypeNames, KindOf;
    forall i | 0 <= i < |names| ensures TypeMatches(names[i], kind) <==> HasType(v, names[i]) {
      TypeMatchesMeans(names[i], v);
    }
    if exists n :: n in names && HasType(v, n) {
      var n :| n in names && HasType(v, n);
      var i :| 0 <= i < |names| && names[i] == n;
      assert TypeMatches(TypeNames(t)[i], kind);
    }
  }

  lemma CleanIsRepresentable(v: Value)
    requires Clean(v)
    ensures Representable(v)
  {
  }

  lemma EnumIff(v: Value, e: Value)
    requires Clean(v) && e.Arr? && Clean(e)
    ensures (exists x :: x in EnumEntries(e) && DeepEqual(v, x)) <==> (exists x :: x in EnumEntries(e) && Same(v, x))
  {
    CleanIsRepresentable(v);
    forall x | x in EnumEntries(e) ensures DeepEqual(v, x) <==> Same(v, x) {
      var i :| 0 <= i < |e.items| && e.items[i] == x;
      CleanIsRepresentable(e.items[i]);
      DeepEqualMeans(v, x);
    }
  }

  lemma RequiredIff(v: Value, schema: map<string, Value>)
    requires v.Obj? && "required" in schema && AsStrings(schema["required"]).Some?
    ensures MissingFault(v, schema).None? <==> forall n :: n in TypeNames(schema["required"]) ==> n in v.members
  {
    var names := AsStrings(schema["required"]).value;
    FirstNone(MissingFaults(v, names));
    assert forall i :: 0 <= i < |names| ==> (MissingFaults(v, names)[i].None? <==> names[i] in v.members);
  }

  /** Nothing is reported exactly when no keyword reports. */
  lemma InstanceFaultParts(v: Value, schema: map<string, Value>)
    requires KindOf(v).Some?
    ensures InstanceFault(v, schema).None? <==>
      && ("type" in schema ==> TypeMismatch(KindOf(v).value, schema["type"]).None?)
      && ("const" in schema ==> DeepEqual(v, schema["const"]))
      && ("enum" in schema ==> exists e :: e in EnumEntries(schema["enum"]) && DeepEqual(v, e))
      && MissingFault(v, schema).None?
      && (v.Obj? ==> First(PropertyFaults(v, schema)).None?)
      && (v.Obj? && Restricts(schema) ==> First(ExtraFaults(v, schema)).None?)
      && (v.Arr? && "items" in schema && schema["items"].Obj? ==>
        First(ItemFaults(v.items, schema["items"].members)).None?)
  {
    hide First, DeepEqual, TypeMismatch, MissingFault, Properties, EnumEntries, PropertyFaults, ExtraFaults;
    hide ItemFaults, Restricts;
  }

  /** For an accepted schema and a clean value, the check reports nothing exactly when the
      value satisfies the schema. */
  lemma {:induction false} InstanceIff(v: Value, schema: map<string, Value>)
    requires IsSchema(Obj(schema)) && Clean(v)
    ensures InstanceFault(v, schema).None? <==> Satisfies(v, schema)
    decreases v, 1
  {
    ScalarKeywords(v, schema);
    InstanceFaultParts(v, schema);
    if v.Obj? { MembersIff(v, schema); }
    if v.Arr? && "items" in schema {
      ItemsIff(v, schema["items"].members);
    }
    hide InstanceFault, First, Clean, DeepEqual, Same, TypeMismatch, IsType, MissingFault, AsStrings;
    hide TypeNames, Properties, HasType;
  }

  /** type, const, enum and required. */
  lemma ScalarKeywords(v: Value, schema: map<string, Value>)
    requires IsSchema(Obj(schema)) && Clean(v)
    ensures KindOf(v).Some?
    ensures "type" in schema ==>
      (TypeMismatch(KindOf(v).value, schema["type"]).None? <==>
        exists n :: Gives(schema["type"], n) && HasType(v, n))
    ensures "const" in schema ==> (DeepEqual(v, schema["const"]) <==> Same(v, schema["const"]))
    ensures "enum" in schema ==>
      ((exists x :: x in EnumEntries(schema["enum"]) && DeepEqual(v, x)) <==>
       (exists x :: x in EnumEntries(schema["enum"]) && Same(v, x)))
    ensures "required" !in schema || !v.Obj? ==> MissingFault(v, schema).None?
    ensures "required" in schema && v.Obj? ==>
      (MissingFault(v, schema).None? <==> forall n :: Gives(schema["required"], n) ==> n in v.members)
  {
    if "type" in schema {
      TypeIff(v, schema["type"]);
      StringsMean(schema["type"]);
      forall n ensures Gives(schema["type"], n) <==> n in TypeNames(schema["type"]) { GivesMeans(schema["type"], n); }
    }
    if "const" in schema {
      CleanIsRepresentable(v);
      CleanIsRepresentable(schema["const"]);
      DeepEqualMeans(v, schema["const"]);
    }
    if "enum" in schema { EnumIff(v, schema["enum"]); }
    if "required" in schema && v.Obj? {
      StringsMean(schema["required"]);
      forall n ensures Gives(schema["required"], n) <==> n in TypeNames(schema["required"]) {
        GivesMeans(schema["required"], n);
      }
      RequiredIff(v, schema);
    }
  }

  lemma {:induction false} ItemsIff(v: Value, sub: map<string, Value>)
    requires v.Arr? && IsSchema(Obj(sub)) && Clean(v)
    ensures First(ItemFaults(v.items, sub)).None? <==> forall i :: 0 <= i < |v.items| ==> Allows(v.items[i], Obj(sub))
    decreases v, 0
  {
    FirstNone(ItemFaults(v.items, sub));
    forall i | 0 <= i < |v.items| ensures ItemFaults(v.items, sub)[i].None? <==> Allows(v.items[i], Obj(sub)) {
      InstanceIff(v.items[i], sub);
    }
  }

  /** What the two object passes find at one key. */
  ghost predicate KeyPasses(v: Value, schema: map<string, Value>, k: string)
    requires v.Obj? && k in v.members
  {
    && (k in Properties(schema) ==> PropertyFault(v, schema, k).None?)
    && (Restricts(schema) ==> ExtraFault(v, schema, k).None?)
  }

  /** The two object passes together visit every member once. */
  lemma {:induction false} MembersIff(v: Value, schema: map<string, Value>)
    requires v.Obj? && IsSchema(Obj(schema)) && Clean(v)
    ensures (First(PropertyFaults(v, schema)).None? && (Restricts(schema) ==> First(ExtraFaults(v, schema)).None?))
      <==> forall k :: k in v.members ==> MemberAllowed(v, k, schema)
    decreases v, 0
  {
    PassesByKey(v, schema);
    forall k | k in v.members ensures KeyPasses(v, schema, k) <==> MemberAllowed(v, k, schema) {
      KeyIff(v, schema, k);
    }
  }

  lemma {:induction false} KeyIff(v: Value, schema: map<string, Value>, k: string)
    requires v.Obj? && k in v.members && IsSchema(Obj(schema)) && Clean(v)
    ensures KeyPasses(v, schema, k) <==> MemberAllowed(v, k, schema)
    decreases v.members[k], 3
  {
    if k in Properties(schema) {
      InstanceIff(v.members[k], Properties(schema)[k].members);
    } else if "additionalProperties" in schema && schema["additionalProperties"].Obj? {
      InstanceIff(v.members[k], schema["additionalProperties"].members);
    }
  }

  lemma PassesByKey(v: Value, schema: map<string, Value>)
    requires v.Obj?
    ensures (First(PropertyFaults(v, schema)).None? && (Restricts(schema) ==> First(ExtraFaults(v, schema)).None?))
      <==> forall k :: k in v.members ==> KeyPasses(v, schema, k)
  {
    var props := Properties(schema);
    FirstNone(PropertyFaults(v, schema));
    AllListed(Sorted(props.Keys), props.Keys, set k | k in props && PropertyFault(v, schema, k).None?);
    if Restricts(schema) {
      FirstNone(ExtraFaults(v, schema));
      AllListed(Sorted(v.members.Keys), v.members.Keys, set k | k in v.members && ExtraFault(v, schema, k).None?);
    }
  }
}
