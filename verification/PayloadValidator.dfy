/** validatePayloadSchema and validatePayloadInstance, loop by loop. */
module PayloadValidator {
  import opened Names
  import opened JsonText
  import opened Numbers
  import opened PayloadSchema

  method StringList(v: Value) returns (names: seq<string>, ok: bool)
    ensures ok <==> AsStrings(v).Some?
    ensures names == if ok then AsStrings(v).value else []
  {
    if !v.Arr? { return [], false; }
    names := [];
    for i := 0 to |v.items|
      invariant |names| == i && forall j :: 0 <= j < i ==> v.items[j] == Str(names[j])
    {
      if !v.items[i].Str? { return [], false; }
      names := names + [v.items[i].s];
    }
    return names, true;
  }

  /** The seen loop: an entry equal to an earlier one. */
  method FindRepeat(names: seq<string>) returns (r: Option<string>)
    ensures r == First(Repeats(names))
  {
    var seen := [];
    for i := 0 to |names|
      invariant seen == names[..i]
      invariant forall j :: 0 <= j < i ==> names[j] !in names[..j]
    {
      for k := 0 to |seen|
        invariant forall j :: 0 <= j < k ==> seen[j] != names[i]
      {
        if seen[k] == names[i] {
          FirstIs(Repeats(names), i);
          return Some(names[i]);
        }
      }
      seen := seen + [names[i]];
    }
    FirstNone(Repeats(names));
    return None;
  }

  /** payloadScanValue. */
  method ScanValue(value: Value, path: string) returns (f: Option<Finding>)
    ensures f == Report(path, ScanFault(value))
    decreases value
  {
    hide Report, Render, Under, First, Quote, Itoa, Sorted;
    if KindOf(value).None? {
      ReportHere(path, NotJson);
      return Some(Finding(path, NotJson));
    }
    if OverMagnitude(value) {
      ReportHere(path, Magnitude);
      return Some(Finding(path, Magnitude));
    }
    if value.Arr? {
      for i := 0 to |value.items|
        invariant forall j :: 0 <= j < i ==> ItemScans(value.items)[j].None?
      {
        f := ScanValue(value.items[i], PathIndex(path, i));
        ReportUnder(path, Index(i), ScanFault(value.items[i]));
        if f.Some? {
          FirstIs(ItemScans(value.items), i);
          return f;
        }
      }
      FirstNone(ItemScans(value.items));
    } else if value.Obj? {
      var keys := SortedKeys(value.members.Keys);
      for i := 0 to |keys|
        invariant forall j :: 0 <= j < i ==> MemberScans(value)[j].None?
      {
        f := ScanValue(value.members[keys[i]], PathKey(path, keys[i]));
        ReportUnder(path, Key(keys[i]), ScanFault(value.members[keys[i]]));
        if f.Some? {
          FirstIs(MemberScans(value), i);
          return f;
        }
      }
      FirstNone(MemberScans(value));
    }
    return None;
  }

  method CheckKeywords(keys: seq<string>, path: string) returns (f: Option<Finding>)
    ensures f == Report(path, First(KeywordFaults(keys)))
  {
    for i := 0 to |keys|
      invariant forall j :: 0 <= j < i ==> keys[j] in KEYWORDS
    {
      if keys[i] !in KEYWORDS {
        FirstIs(KeywordFaults(keys), i);
        ReportHere(path, UnknownKeyword(keys[i]));
        return Some(Finding(path, UnknownKeyword(keys[i])));
      }
    }
    FirstNone(KeywordFaults(keys));
    return None;
  }

  method CheckTypeShape(t: Value, path: string) returns (f: Option<Finding>)
    ensures f == Report(path, TypeFault(t))
  {
    hide Report, Render, Under, First, Quote, Itoa, Sorted;
    assert forall d :: Report(path, Here(true, d)) == Some(Finding(path, d)) by {
      forall d ensures Report(path, Here(true, d)) == Some(Finding(path, d)) { ReportHere(path, d); }
    }
    if t.Str? {
      if t.s !in JSON_TYPES { return Some(Finding(path, UnknownType(t.s))); }
      return None;
    }
    if !t.Arr? { return Some(Finding(path, TypeShape)); }
    if |t.items| == 0 { return Some(Finding(path, TypeEmpty)); }
    var names, allStrings := StringList(t);
    if !allStrings { return Some(Finding(path, TypeShape)); }
    var again := FindRepeat(names);
    if again.Some? { return Some(Finding(path, TypeDuplicate(again.value))); }
    for i := 0 to |names|
      invariant forall j :: 0 <= j < i ==> names[j] in JSON_TYPES
    {
      if names[i] !in JSON_TYPES {
        FirstIs(UnknownTypes(names), i);
        return Some(Finding(path, UnknownType(names[i])));
      }
    }
    FirstNone(UnknownTypes(names));
    return None;
  }

  method CheckRequiredShape(req: Value, path: string) returns (f: Option<Finding>)
    ensures f == Report(path, RequiredFault(req))
  {
    var names, ok := StringList(req);
    if !ok {
      ReportHere(path, RequiredShape);
      return Some(Finding(path, RequiredShape));
    }
    var again := FindRepeat(names);
    if again.Some? {
      ReportHere(path, RequiredDuplicate(again.value));
      return Some(Finding(path, RequiredDuplicate(again.value)));
    }
    return None;
  }

  method CheckEnumShape(e: Value, path: string) returns (f: Option<Finding>)
    ensures f == Report(path, EnumFault(e))
  {
    hide Report, Render, Under, First, Quote, Itoa, Sorted, ScanFault;
    if !e.Arr? || |e.items| == 0 {
      ReportHere(path, EnumShape);
      return Some(Finding(path, EnumShape));
    }
    var below := PathInto(path, EnumField);
    ReportUnder(path, Into(EnumField), First(ItemScans(e.items)));
    for i := 0 to |e.items|
      invariant forall j :: 0 <= j < i ==> ItemScans(e.items)[j].None?
    {
      f := ScanValue(e.items[i], PathIndex(below, i));
      ReportUnder(below, Index(i), ScanFault(e.items[i]));
      if f.Some? {
        FirstIs(ItemScans(e.items), i);
        return f;
      }
    }
    FirstNone(ItemScans(e.items));
    return None;
  }

  method CheckProperties(p: Value, path: string) returns (f: Option<Finding>)
    ensures f == Report(path, PropertiesFault(p))
    decreases p, 1
  {
    hide Report, Render, Under, First, Quote, Itoa, Sorted, SchemaFault;
    if !p.Obj? {
      ReportHere(path, PropertiesShape);
      return Some(Finding(path, PropertiesShape));
    }
    var below := PathInto(path, PropertiesField);
    ReportUnder(path, Into(PropertiesField), First(PropertySchemas(p)));
    var keys := SortedKeys(p.members.Keys);
    for i := 0 to |keys|
      invariant forall j :: 0 <= j < i ==> PropertySchemas(p)[j].None?
    {
      f := ValidateSchema(p.members[keys[i]], PathKey(below, keys[i]));
      ReportUnder(below, Key(keys[i]), SchemaFault(p.members[keys[i]]));
      if f.Some? {
        FirstIs(PropertySchemas(p), i);
        return f;
      }
    }
    FirstNone(PropertySchemas(p));
    return None;
  }

  /** The additionalProperties keyword: a boolean or a schema. */
  method CheckAdditionalShape(ap: Value, path: string) returns (f: Option<Finding>)
    ensures f == Report(path, AdditionalFault(ap))
    decreases ap, 3
  {
    hide Report, Render, Under, SchemaFault;
    if ap.Bool? {
      return None;
    }
    if !ap.Obj? {
      ReportHere(path, AddPropsShape);
      return Some(Finding(path, AddPropsShape));
    }
    f := ValidateSchema(ap, PathInto(path, AdditionalField));
    ReportUnder(path, Into(AdditionalField), SchemaFault(ap));
  }

  /** validatePayloadSchema. */
  method ValidateSchema(schema: Value, path: string) returns (f: Option<Finding>)
    ensures f == Report(path, SchemaFault(schema))
    decreases schema, 2
  {
    hide Report, Render, Under, First, Quote, Itoa, Sorted, TypeFault, RequiredFault, EnumFault, ScanFault;
    hide PropertiesFault, KindOf;
    if !schema.Obj? {
      ReportHere(path, SchemaNotObject(KindOf(schema)));
      return Some(Finding(path, SchemaNotObject(KindOf(schema))));
    }
    var obj := schema.members;
    var keys := SortedKeys(obj.Keys);
    f := CheckKeywords(keys, path);
    if f.Some? { return f; }
    if "type" in obj {
      f := CheckTypeShape(obj["type"], path);
      if f.Some? { return f; }
    }
    if "required" in obj {
      f := CheckRequiredShape(obj["required"], path);
      if f.Some? { return f; }
    }
    if "enum" in obj {
      f := CheckEnumShape(obj["enum"], path);
      if f.Some? { return f; }
    }
    if "const" in obj {
      f := ScanValue(obj["const"], PathInto(path, ConstField));
      ReportUnder(path, Into(ConstField), ScanFault(obj["const"]));
      if f.Some? { return f; }
    }
    if "properties" in obj {
      f := CheckProperties(obj["properties"], path);
      if f.Some? { return f; }
    }
    if "items" in obj {
      f := ValidateSchema(obj["items"], PathInto(path, ItemsField));
      ReportUnder(path, Into(ItemsField), SchemaFault(obj["items"]));
      if f.Some? { return f; }
    }
    if "additionalProperties" in obj {
      f := CheckAdditionalShape(obj["additionalProperties"], path);
      if f.Some? { return f; }
    }
    return None;
  }

  /** The matched loop over a declared type. */
  method CheckType(kind: Kind, t: Value, path: string) returns (f: Option<Finding>)
    ensures f == Report(path, TypeMismatch(kind, t))
  {
    if t.Str? {
      if !TypeMatches(t.s, kind) {
        ReportHere(path, ExpectedType(t.s, kind));
        return Some(Finding(path, ExpectedType(t.s, kind)));
      }
      assert TypeMatches(TypeNames(t)[0], kind);
      return None;
    }
    var names, _ := StringList(t);
    assert TypeNames(t) == names;
    var matched := false;
    for i := 0 to |names|
      invariant !matched && forall j :: 0 <= j < i ==> !TypeMatches(names[j], kind)
    {
      if TypeMatches(names[i], kind) {
        assert TypeMatches(TypeNames(t)[i], kind);
        matched := true;
        break;
      }
    }
    if !matched {
      ReportHere(path, ExpectedTypes(names, kind));
      return Some(Finding(path, ExpectedTypes(names, kind)));
    }
    return None;
  }

  /** The matched loop over a declared enum. */
  method CheckEnum(value: Value, e: Value) returns (matched: bool)
    ensures matched <==> exists entry :: entry in EnumEntries(e) && DeepEqual(value, entry)
  {
    var values := EnumEntries(e);
    matched := false;
    for i := 0 to |values|
      invariant !matched && forall j :: 0 <= j < i ==> !DeepEqual(value, values[j])
    {
      if DeepEqual(value, values[i]) {
        assert values[i] in EnumEntries(e);
        matched := true;
        break;
      }
    }
  }

  method CheckRequired(value: Value, schema: map<string, Value>, path: string) returns (f: Option<Finding>)
    requires value.Obj?
    ensures f == Report(path, MissingFault(value, schema))
  {
    if "required" !in schema { return None; }
    var names, ok := StringList(schema["required"]);
    if !ok { return None; }
    for i := 0 to |names|
      invariant forall j :: 0 <= j < i ==> names[j] in value.members
    {
      if names[i] !in value.members {
        FirstIs(MissingFaults(value, names), i);
        ReportHere(path, RequiredMissing(names[i]));
        return Some(Finding(path, RequiredMissing(names[i])));
      }
    }
    FirstNone(MissingFaults(value, names));
    return None;
  }

  method CheckDeclared(value: Value, schema: map<string, Value>, path: string) returns (f: Option<Finding>)
    requires value.Obj?
    ensures f == Report(path, First(PropertyFaults(value, schema)))
    decreases value, 0
  {
    hide Report, Render, Under, First, Quote, Itoa, Sorted, InstanceFault, DeepEqual, TypeMatches, KindOf;
    var props := Properties(schema);
    var keys := SortedKeys(props.Keys);
    for i := 0 to |keys|
      invariant forall j :: 0 <= j < i ==> PropertyFaults(value, schema)[j].None?
    {
      if keys[i] in value.members && props[keys[i]].Obj? {
        var child, sub := value.members[keys[i]], props[keys[i]].members;
        f := ValidateInstance(child, sub, PathKey(path, keys[i]));
        ReportUnder(path, Key(keys[i]), InstanceFault(child, sub));
        if f.Some? {
          FirstIs(PropertyFaults(value, schema), i);
          return f;
        }
      }
    }
    FirstNone(PropertyFaults(value, schema));
    return None;
  }

  method CheckAdditional(value: Value, schema: map<string, Value>, path: string) returns (f: Option<Finding>)
    requires value.Obj? && Restricts(schema)
    ensures f == Report(path, First(ExtraFaults(value, schema)))
    decreases value, 0
  {
    hide Report, Render, Under, First, Quote, Itoa, Sorted, InstanceFault, DeepEqual, TypeMatches, KindOf;
    var ap, props := schema["additionalProperties"], Properties(schema);
    var keys := SortedKeys(value.members.Keys);
    for i := 0 to |keys|
      invariant forall j :: 0 <= j < i ==> ExtraFaults(value, schema)[j].None?
    {
      if keys[i] in props { continue; }
      if ap.Bool? {
        FirstIs(ExtraFaults(value, schema), i);
        ReportHere(path, NotPermitted(keys[i]));
        return Some(Finding(path, NotPermitted(keys[i])));
      }
      if !ap.Obj? { continue; }
      f := ValidateInstance(value.members[keys[i]], ap.members, PathKey(path, keys[i]));
      ReportUnder(path, Key(keys[i]), InstanceFault(value.members[keys[i]], ap.members));
      if f.Some? {
        FirstIs(ExtraFaults(value, schema), i);
        return f;
      }
    }
    FirstNone(ExtraFaults(value, schema));
    return None;
  }

  method CheckItems(value: Value, sub: map<string, Value>, path: string) returns (f: Option<Finding>)
    requires value.Arr?
    ensures f == Report(path, First(ItemFaults(value.items, sub)))
    decreases value, 0
  {
    hide Report, Render, Under, First, Quote, Itoa, Sorted, InstanceFault, DeepEqual, TypeMatches, KindOf;
    for i := 0 to |value.items|
      invariant forall j :: 0 <= j < i ==> ItemFaults(value.items, sub)[j].None?
    {
      f := ValidateInstance(value.items[i], sub, PathIndex(path, i));
      ReportUnder(path, Index(i), InstanceFault(value.items[i], sub));
      if f.Some? {
        FirstIs(ItemFaults(value.items, sub), i);
        return f;
      }
    }
    FirstNone(ItemFaults(value.items, sub));
    return None;
  }

  /** validatePayloadInstance. */
  method ValidateInstance(value: Value, schema: map<string, Value>, path: string) returns (f: Option<Finding>)
    ensures f == Report(path, InstanceFault(value, schema))
    decreases value, 1
  {
    hide Report, Render, Under, First, Quote, Itoa, Sorted, TypeMismatch, DeepEqual, TypeMatches;
    if KindOf(value).None? {
      ReportHere(path, NotJson);
      return Some(Finding(path, NotJson));
    }
    if "type" in schema {
      f := CheckType(KindOf(value).value, schema["type"], path);
      if f.Some? { return f; }
    }
    if "const" in schema {
      if !DeepEqual(value, schema["const"]) {
        ReportHere(path, ConstMismatch);
        return Some(Finding(path, ConstMismatch));
      }
    }
    if "enum" in schema {
      var matched := CheckEnum(value, schema["enum"]);
      if !matched {
        ReportHere(path, EnumMismatch);
        return Some(Finding(path, EnumMismatch));
      }
    }
    if value.Obj? {
      f := CheckRequired(value, schema, path);
      if f.Some? { return f; }
      f := CheckDeclared(value, schema, path);
      if f.Some? { return f; }
      if Restricts(schema) {
        f := CheckAdditional(value, schema, path);
        if f.Some? { return f; }
      }
    }
    if value.Arr? && "items" in schema && schema["items"].Obj? {
      f := CheckItems(value, schema["items"].members, path);
      if f.Some? { return f; }
    }
    return None;
  }
}
