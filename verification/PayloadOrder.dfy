/** Which of several violations the validator reports: the pinned order of keywords, list order, index
    order and sorted key order, told apart from the validator. */
module PayloadOrder {
  import opened Names
  import opened PayloadSchema
  import opened PayloadMeaning

  ghost predicate TypeBroken(v: Value, schema: map<string, Value>) {
    "type" in schema && forall n :: Gives(schema["type"], n) ==> !HasType(v, n)
  }

  ghost predicate ConstBroken(v: Value, schema: map<string, Value>) {
    "const" in schema && !Same(v, schema["const"])
  }

  ghost predicate EnumBroken(v: Value, schema: map<string, Value>) {
    "enum" in schema && schema["enum"].Arr? && forall e :: e in schema["enum"].items ==> !Same(v, e)
  }

  /** The i-th required name, and the first that is missing. */
  ghost predicate MissesFirst(v: Value, schema: map<string, Value>, i: nat, name: string) {
    && v.Obj? && "required" in schema && schema["required"].Arr? && i < |schema["required"].items|
    && schema["required"].items[i] == Str(name) && name !in v.members
    && forall j, n :: 0 <= j < i && schema["required"].items[j] == Str(n) ==> n in v.members
  }

  /** Nothing is wrong with the value itself, whatever it holds. */
  ghost predicate SoundHere(v: Value, schema: map<string, Value>) {
    && !TypeBroken(v, schema) && !ConstBroken(v, schema) && !EnumBroken(v, schema)
    && forall i, name :: !MissesFirst(v, schema, i, name)
  }

  /** The least of the declared members, or of the others, that is not allowed. */
  ghost predicate LeastAtFault(v: Value, schema: map<string, Value>, declared: bool, k: string)
    requires v.Obj?
  {
    && k in v.members && Declares(schema, k) == declared && !MemberAllowed(v, k, schema)
    && forall x :: x in v.members && Declares(schema, x) == declared && Less(x, k) ==> MemberAllowed(v, x, schema)
  }

  ghost predicate AllAllowed(v: Value, schema: map<string, Value>, declared: bool)
    requires v.Obj?
  {
    forall x :: x in v.members && Declares(schema, x) == declared ==> MemberAllowed(v, x, schema)
  }

  ghost predicate FirstAtFault(v: Value, schema: map<string, Value>, i: nat) {
    && v.Arr? && i < |v.items| && "items" in schema && !Allows(v.items[i], schema["items"])
    && forall j :: 0 <= j < i ==> Allows(v.items[j], schema["items"])
  }

  /** The keywords in the order in which they are consulted. */
  lemma FaultParts(v: Value, schema: map<string, Value>)
    requires KindOf(v).Some?
    ensures var t := if "type" in schema then TypeMismatch(KindOf(v).value, schema["type"]) else None;
      var c := "const" in schema && !DeepEqual(v, schema["const"]);
      var e := "enum" in schema && forall e :: e in EnumEntries(schema["enum"]) ==> !DeepEqual(v, e);
      var p := if v.Obj? then First(PropertyFaults(v, schema)) else None;
      var x := if v.Obj? && Restricts(schema) then First(ExtraFaults(v, schema)) else None;
      var i := if v.Arr? && "items" in schema && schema["items"].Obj?
               then First(ItemFaults(v.items, schema["items"].members)) else None;
      InstanceFault(v, schema) ==
      if t.Some? then t
      else if c then Some(Fault([], ConstMismatch))
      else if e then Some(Fault([], EnumMismatch))
      else if MissingFault(v, schema).Some? then MissingFault(v, schema)
      else if p.Some? then p
      else if x.Some? then x
      else i
  {
    hide First, DeepEqual, TypeMismatch, MissingFault, EnumEntries, PropertyFaults, ExtraFaults, ItemFaults, Restricts;
  }

  lemma BrokenMeans(v: Value, schema: map<string, Value>)
    requires IsSchema(Obj(schema)) && Clean(v)
    ensures KindOf(v).Some?
    ensures TypeBroken(v, schema) <==> "type" in schema && TypeMismatch(KindOf(v).value, schema["type"]).Some?
    ensures ConstBroken(v, schema) <==> "const" in schema && !DeepEqual(v, schema["const"])
    ensures EnumBroken(v, schema) <==>
      "enum" in schema && forall e :: e in EnumEntries(schema["enum"]) ==> !DeepEqual(v, e)
  {
    assert "enum" in schema ==> schema["enum"].Arr?;
    ScalarKeywords(v, schema);
    hide IsSchema, Clean, Same, DeepEqual, HasType, TypeMismatch, Gives;
  }

  // --- The value itself -----------------------------------------------------------------------

  lemma MissingMeans(v: Value, schema: map<string, Value>, i: nat, name: string)
    requires IsSchema(Obj(schema)) && MissesFirst(v, schema, i, name)
    ensures MissingFault(v, schema) == Some(Fault([], RequiredMissing(name)))
  {
    StringsMean(schema["required"]);
    var names := AsStrings(schema["required"]).value;
    forall j | 0 <= j < i ensures MissingFaults(v, names)[j].None? {
      assert schema["required"].items[j] == Str(names[j]);
    }
    assert names[i] == name;
    FirstIs(MissingFaults(v, names), i);
  }

  lemma NoneMissing(v: Value, schema: map<string, Value>)
    requires forall i, name :: !MissesFirst(v, schema, i, name)
    ensures MissingFault(v, schema).None?
  {
    if MissingFault(v, schema).Some? {
      var names := AsStrings(schema["required"]).value;
      var k := FirstFound(MissingFaults(v, names));
      forall j, n | 0 <= j < k && schema["required"].items[j] == Str(n) ensures n in v.members {
        assert names[j] == n && MissingFaults(v, names)[j].None?;
      }
      assert MissesFirst(v, schema, k, names[k]);
    }
  }

  /** The type first, then const, then enum, then the first required name that is missing. */
  lemma ScalarsFirst(v: Value, schema: map<string, Value>)
    requires IsSchema(Obj(schema)) && Clean(v)
    ensures var f := InstanceFault(v, schema);
      && (TypeBroken(v, schema) ==>
            f.Some? && f.value.at == [] && (f.value.detail.ExpectedType? || f.value.detail.ExpectedTypes?))
      && (!TypeBroken(v, schema) && ConstBroken(v, schema) ==> f == Some(Fault([], ConstMismatch)))
      && (!TypeBroken(v, schema) && !ConstBroken(v, schema) && EnumBroken(v, schema) ==>
            f == Some(Fault([], EnumMismatch)))
      && (!TypeBroken(v, schema) && !ConstBroken(v, schema) && !EnumBroken(v, schema) ==>
            forall i, name :: MissesFirst(v, schema, i, name) ==> f == Some(Fault([], RequiredMissing(name))))
  {
    BrokenMeans(v, schema);
    FaultParts(v, schema);
    forall i, name | MissesFirst(v, schema, i, name)
      ensures MissingFault(v, schema) == Some(Fault([], RequiredMissing(name)))
    {
      MissingMeans(v, schema, i, name);
    }
    hide InstanceFault, First, DeepEqual, MissingFault, EnumEntries, Restricts, Clean, IsSchema, MissesFirst;
    hide TypeBroken, ConstBroken, EnumBroken;
  }

  /** With the value itself sound, its report is that of what it holds. */
  lemma PartsBelow(v: Value, schema: map<string, Value>)
    requires IsSchema(Obj(schema)) && Clean(v) && SoundHere(v, schema)
    ensures InstanceFault(v, schema) ==
      if v.Obj? && First(PropertyFaults(v, schema)).Some? then First(PropertyFaults(v, schema))
      else if v.Obj? && Restricts(schema) && First(ExtraFaults(v, schema)).Some? then First(ExtraFaults(v, schema))
      else if v.Arr? && "items" in schema && schema["items"].Obj? then
        First(ItemFaults(v.items, schema["items"].members))
      else None
  {
    BrokenMeans(v, schema);
    FaultParts(v, schema);
    NoneMissing(v, schema);
    hide InstanceFault, First, DeepEqual, MissingFault, EnumEntries, Restricts, Clean, IsSchema, MissesFirst;
    hide TypeBroken, ConstBroken, EnumBroken, PropertyFaults, ExtraFaults, ItemFaults;
  }

  // --- What it holds ---------------------------------------------------------------------------

  lemma SortedBefore(keys: set<string>, j: nat, i: nat)
    requires j < i < |Sorted(keys)|
    ensures Less(Sorted(keys)[j], Sorted(keys)[i])
  {
    LessTotal(Sorted(keys)[j], Sorted(keys)[i]);
  }

  lemma PropertyMeans(v: Value, schema: map<string, Value>, k: string)
    requires v.Obj? && k in Properties(schema) && IsSchema(Obj(schema)) && Clean(v)
    ensures Declares(schema, k)
    ensures PropertyFault(v, schema, k).None? <==> k in v.members ==> MemberAllowed(v, k, schema)
    ensures PropertyFault(v, schema, k).Some? ==>
      PropertyFault(v, schema, k).value.at != [] && PropertyFault(v, schema, k).value.at[0] == Key(k)
  {
    if k in v.members { KeyIff(v, schema, k); }
    hide InstanceFault, Clean, MemberAllowed;
  }

  lemma ExtraMeans(v: Value, schema: map<string, Value>, k: string)
    requires v.Obj? && k in v.members && Restricts(schema) && IsSchema(Obj(schema)) && Clean(v)
    ensures var f := ExtraFault(v, schema, k);
      && (f.None? <==> Declares(schema, k) || MemberAllowed(v, k, schema))
      && (f.Some? ==> if schema["additionalProperties"] == Bool(false) then f == Some(Fault([], NotPermitted(k)))
                      else f.value.at != [] && f.value.at[0] == Key(k))
  {
    KeyIff(v, schema, k);
    hide InstanceFault, Clean, MemberAllowed;
  }

  lemma DeclaredFound(v: Value, schema: map<string, Value>, k: string)
    requires v.Obj? && IsSchema(Obj(schema)) && Clean(v) && LeastAtFault(v, schema, true, k)
    ensures k in Properties(schema) && First(PropertyFaults(v, schema)) == PropertyFault(v, schema, k)
    ensures PropertyFault(v, schema, k).Some?
  {
    var props := Properties(schema);
    var keys := Sorted(props.Keys);
    assert k in Elements(keys);
    var i :| 0 <= i < |keys| && keys[i] == k;
    PropertyMeans(v, schema, k);
    forall j | 0 <= j < i ensures PropertyFaults(v, schema)[j].None? {
      SortedBefore(props.Keys, j, i);
      PropertyMeans(v, schema, keys[j]);
    }
    FirstIs(PropertyFaults(v, schema), i);
  }

  lemma DeclaredSilent(v: Value, schema: map<string, Value>)
    requires v.Obj? && IsSchema(Obj(schema)) && Clean(v) && AllAllowed(v, schema, true)
    ensures First(PropertyFaults(v, schema)).None?
  {
    var keys := Sorted(Properties(schema).Keys);
    FirstNone(PropertyFaults(v, schema));
    forall j | 0 <= j < |keys| ensures PropertyFaults(v, schema)[j].None? {
      PropertyMeans(v, schema, keys[j]);
    }
  }

  lemma ExtraFound(v: Value, schema: map<string, Value>, k: string)
    requires v.Obj? && IsSchema(Obj(schema)) && Clean(v) && LeastAtFault(v, schema, false, k)
    ensures Restricts(schema) && First(ExtraFaults(v, schema)) == ExtraFault(v, schema, k)
    ensures ExtraFault(v, schema, k).Some?
  {
    var keys := Sorted(v.members.Keys);
    assert k in Elements(keys);
    var i :| 0 <= i < |keys| && keys[i] == k;
    assert Allows(v.members[k], Bool(true));
    ExtraMeans(v, schema, k);
    forall j | 0 <= j < i ensures ExtraFaults(v, schema)[j].None? {
      SortedBefore(v.members.Keys, j, i);
      ExtraMeans(v, schema, keys[j]);
    }
    FirstIs(ExtraFaults(v, schema), i);
  }

  /** Then the least declared member that is not allowed. */
  lemma DeclaredNext(v: Value, schema: map<string, Value>, k: string)
    requires IsSchema(Obj(schema)) && Clean(v) && SoundHere(v, schema) && v.Obj? && LeastAtFault(v, schema, true, k)
    ensures var f := InstanceFault(v, schema); f.Some? && f.value.at != [] && f.value.at[0] == Key(k)
  {
    PartsBelow(v, schema);
    DeclaredFound(v, schema, k);
    PropertyMeans(v, schema, k);
    hide InstanceFault, First, Clean, IsSchema, SoundHere, LeastAtFault, PropertyFaults, ExtraFaults, PropertyFault;
  }

  /** Then the least of the other members that is not allowed: at the object where none may be added, and in
      the member where its schema says so. */
  lemma OthersNext(v: Value, schema: map<string, Value>, k: string)
    requires IsSchema(Obj(schema)) && Clean(v) && SoundHere(v, schema) && v.Obj?
    requires AllAllowed(v, schema, true) && LeastAtFault(v, schema, false, k)
    ensures "additionalProperties" in schema
    ensures var f := InstanceFault(v, schema);
      if schema["additionalProperties"] == Bool(false) then f == Some(Fault([], NotPermitted(k)))
      else f.Some? && f.value.at != [] && f.value.at[0] == Key(k)
  {
    PartsBelow(v, schema);
    DeclaredSilent(v, schema);
    ExtraFound(v, schema, k);
    ExtraMeans(v, schema, k);
    hide InstanceFault, First, Clean, IsSchema, SoundHere, LeastAtFault, PropertyFaults, ExtraFaults, ExtraFault;
    hide AllAllowed;
  }

  /** And of an array the first item that is not allowed. */
  lemma ItemsLast(v: Value, schema: map<string, Value>, i: nat)
    requires IsSchema(Obj(schema)) && Clean(v) && SoundHere(v, schema) && FirstAtFault(v, schema, i)
    ensures var f := InstanceFault(v, schema); f.Some? && f.value.at != [] && f.value.at[0] == Index(i)
  {
    PartsBelow(v, schema);
    var sub := schema["items"].members;
    forall j | 0 <= j <= i ensures ItemFaults(v.items, sub)[j].None? <==> Allows(v.items[j], Obj(sub)) {
      InstanceIff(v.items[j], sub);
    }
    FirstIs(ItemFaults(v.items, sub), i);
    hide InstanceFault, First, Clean, IsSchema, SoundHere;
  }

  // --- Schema literals ---------------------------------------------------------------------------

  /** The keywords in the order in which they are consulted. */
  datatype Word = TypeWord | RequiredWord | EnumWord | ConstWord | PropertiesWord | ItemsWord | AdditionalWord

  function WordAt(k: nat): Word {
    if k == 0 then TypeWord
    else if k == 1 then RequiredWord
    else if k == 2 then EnumWord
    else if k == 3 then ConstWord
    else if k == 4 then PropertiesWord
    else if k == 5 then ItemsWord
    else AdditionalWord
  }

  function Spelled(w: Word): string {
    match w
    case TypeWord => "type"
    case RequiredWord => "required"
    case EnumWord => "enum"
    case ConstWord => "const"
    case PropertiesWord => "properties"
    case ItemsWord => "items"
    case AdditionalWord => "additionalProperties"
  }

  /** A literal the subset admits under the keyword. */
  ghost predicate Admits(w: Word, v: Value) {
    match w
    case TypeWord => IsType(v)
    case RequiredWord => DistinctStrings(v)
    case EnumWord => v.Arr? && v.items != [] && Clean(v)
    case ConstWord => Clean(v)
    case PropertiesWord => ArePropertySchemas(v)
    case ItemsWord => IsSchema(v)
    case AdditionalWord => v.Bool? || IsSchema(v)
  }

  ghost predicate Broken(obj: map<string, Value>, w: Word) {
    Spelled(w) in obj && !Admits(w, obj[Spelled(w)])
  }

  /** The keyword a deviation is about. */
  function About(f: Fault): Option<Word> {
    if f.at != [] then
      match f.at[0]
      case Into(EnumField) => Some(EnumWord)
      case Into(ConstField) => Some(ConstWord)
      case Into(PropertiesField) => Some(PropertiesWord)
      case Into(ItemsField) => Some(ItemsWord)
      case Into(AdditionalField) => Some(AdditionalWord)
      case _ => None
    else
      match f.detail
      case UnknownType(_) => Some(TypeWord)
      case TypeShape => Some(TypeWord)
      case TypeEmpty => Some(TypeWord)
      case TypeDuplicate(_) => Some(TypeWord)
      case RequiredShape => Some(RequiredWord)
      case RequiredDuplicate(_) => Some(RequiredWord)
      case EnumShape => Some(EnumWord)
      case PropertiesShape => Some(PropertiesWord)
      case AddPropsShape => Some(AdditionalWord)
      case _ => None
  }

  /** What each keyword's own check finds. */
  ghost function Found(w: Word, v: Value): Option<Fault> {
    match w
    case TypeWord => TypeFault(v)
    case RequiredWord => RequiredFault(v)
    case EnumWord => EnumFault(v)
    case ConstWord => Under(Into(ConstField), ScanFault(v))
    case PropertiesWord => PropertiesFault(v)
    case ItemsWord => Under(Into(ItemsField), SchemaFault(v))
    case AdditionalWord => AdditionalFault(v)
  }

  ghost function FoundAt(obj: map<string, Value>, w: Word): Option<Fault> {
    if Spelled(w) in obj then Found(w, obj[Spelled(w)]) else None
  }

  lemma TypeFound(t: Value)
    ensures TypeFault(t).Some? <==> !IsType(t)
    ensures TypeFault(t).Some? ==> About(TypeFault(t).value) == Some(TypeWord)
  {
    TypeShapeIff(t);
    hide IsType, First;
  }

  lemma RequiredFound(req: Value)
    ensures RequiredFault(req).Some? <==> !DistinctStrings(req)
    ensures RequiredFault(req).Some? ==> About(RequiredFault(req).value) == Some(RequiredWord)
  {
    RequiredShapeIff(req);
    hide DistinctStrings, First;
  }

  lemma EnumFound(e: Value)
    ensures EnumFault(e).Some? <==> !(e.Arr? && e.items != [] && Clean(e))
    ensures EnumFault(e).Some? ==> About(EnumFault(e).value) == Some(EnumWord)
  {
    EnumShapeIff(e);
    hide Clean, First;
  }

  lemma PropertiesFound(p: Value)
    ensures PropertiesFault(p).Some? <==> !ArePropertySchemas(p)
    ensures PropertiesFault(p).Some? ==> About(PropertiesFault(p).value) == Some(PropertiesWord)
  {
    PropertiesIff(p);
    hide IsSchema, First;
  }

  lemma AdditionalFound(ap: Value)
    ensures AdditionalFault(ap).Some? <==> !ap.Bool? && !IsSchema(ap)
    ensures AdditionalFault(ap).Some? ==> About(AdditionalFault(ap).value) == Some(AdditionalWord)
  {
    AdditionalIff(ap);
    hide IsSchema, SchemaFault;
  }

  lemma UnderAbout(v: Value)
    ensures Under(Into(ConstField), ScanFault(v)).Some? <==> !Clean(v)
    ensures ScanFault(v).Some? ==> About(Under(Into(ConstField), ScanFault(v)).value) == Some(ConstWord)
    ensures Under(Into(ItemsField), SchemaFault(v)).Some? <==> !IsSchema(v)
    ensures SchemaFault(v).Some? ==> About(Under(Into(ItemsField), SchemaFault(v)).value) == Some(ItemsWord)
  {
    ScanIff(v);
    SchemaIff(v);
    hide ScanFault, SchemaFault, Clean, IsSchema;
  }

  lemma FoundMeans(w: Word, v: Value)
    ensures Found(w, v).Some? <==> !Admits(w, v)
    ensures Found(w, v).Some? ==> About(Found(w, v).value) == Some(w)
  {
    hide Clean, IsType, IsSchema, DistinctStrings, ArePropertySchemas, About, Under, ScanFault, SchemaFault;
    hide TypeFault, RequiredFault, EnumFault, PropertiesFault, AdditionalFault;
    match w
    case TypeWord => TypeFound(v);
    case RequiredWord => RequiredFound(v);
    case EnumWord => EnumFound(v);
    case PropertiesWord => PropertiesFound(v);
    case AdditionalWord => AdditionalFound(v);
    case _ => UnderAbout(v);
  }

  /** From the k-th keyword on. */
  ghost function FoundFrom(obj: map<string, Value>, k: nat): Option<Fault>
    decreases 7 - k
  {
    if k >= 7 then None else Or(FoundAt(obj, WordAt(k)), FoundFrom(obj, k + 1))
  }

  lemma FaultIsFound(obj: map<string, Value>)
    requires forall kw :: kw in obj ==> Keyword(kw)
    ensures SchemaFault(Obj(obj)) ==
      Or(FoundAt(obj, TypeWord), Or(FoundAt(obj, RequiredWord), Or(FoundAt(obj, EnumWord), Or(FoundAt(obj, ConstWord),
      Or(FoundAt(obj, PropertiesWord), Or(FoundAt(obj, ItemsWord), FoundAt(obj, AdditionalWord)))))))
  {
    KeywordsIff(obj.Keys);
    hide TypeFault, RequiredFault, EnumFault, PropertiesFault, AdditionalFault, First, KeywordFaults, Sorted, ScanFault;
  }

  lemma FoundInOrder(obj: map<string, Value>)
    ensures FoundFrom(obj, 0) ==
      Or(FoundAt(obj, TypeWord), Or(FoundAt(obj, RequiredWord), Or(FoundAt(obj, EnumWord), Or(FoundAt(obj, ConstWord),
      Or(FoundAt(obj, PropertiesWord), Or(FoundAt(obj, ItemsWord), FoundAt(obj, AdditionalWord)))))))
  {
    hide FoundAt;
    assert FoundFrom(obj, 7) == None;
    assert FoundFrom(obj, 5) == Or(FoundAt(obj, ItemsWord), FoundFrom(obj, 6));
    assert FoundFrom(obj, 3) == Or(FoundAt(obj, ConstWord), FoundFrom(obj, 4));
    assert FoundFrom(obj, 1) == Or(FoundAt(obj, RequiredWord), FoundFrom(obj, 2));
  }

  lemma {:induction false} FirstFrom(obj: map<string, Value>, k: nat, i: nat)
    requires k <= i < 7 && Broken(obj, WordAt(i)) && forall j :: k <= j < i ==> !Broken(obj, WordAt(j))
    ensures FoundFrom(obj, k) == FoundAt(obj, WordAt(i))
    decreases i - k
  {
    FoundAtMeans(obj, WordAt(k));
    hide FoundAt, WordAt, Broken;
    if k < i { FirstFrom(obj, k + 1, i); }
  }

  lemma FoundAtMeans(obj: map<string, Value>, w: Word)
    ensures FoundAt(obj, w).Some? <==> Broken(obj, w)
    ensures FoundAt(obj, w).Some? ==> About(FoundAt(obj, w).value) == Some(w)
  {
    if Spelled(w) in obj { FoundMeans(w, obj[Spelled(w)]); }
    hide Found, Admits, About, Spelled;
  }

  /** The least unknown keyword comes before anything else. */
  lemma UnknownFirst(obj: map<string, Value>, k: string)
    requires k in obj && !Keyword(k) && forall x :: x in obj && Less(x, k) ==> Keyword(x)
    ensures SchemaFault(Obj(obj)) == Some(Fault([], UnknownKeyword(k)))
  {
    var keys := Sorted(obj.Keys);
    assert k in Elements(keys);
    var i :| 0 <= i < |keys| && keys[i] == k;
    WordsMean(k);
    forall j | 0 <= j < i ensures KeywordFaults(keys)[j].None? {
      SortedBefore(obj.Keys, j, i);
      assert keys[j] in Elements(keys);
      WordsMean(keys[j]);
    }
    FirstIs(KeywordFaults(keys), i);
  }

  /** Then the keywords in the order in which they are consulted. */
  lemma BrokenFirst(obj: map<string, Value>, i: nat)
    requires (forall kw :: kw in obj ==> Keyword(kw)) && i < 7 && Broken(obj, WordAt(i))
    requires forall j :: 0 <= j < i ==> !Broken(obj, WordAt(j))
    ensures SchemaFault(Obj(obj)).Some? && About(SchemaFault(Obj(obj)).value) == Some(WordAt(i))
  {
    hide SchemaFault, FoundAt, Broken, About, WordAt, FoundFrom;
    FaultIsFound(obj);
    FoundInOrder(obj);
    FirstFrom(obj, 0, i);
    FoundAtMeans(obj, WordAt(i));
  }
}
