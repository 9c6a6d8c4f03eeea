/** resolveCheckValues: the values an app's resolver assigns, and the refusals. */
module CheckValues {
  import opened Names
  import opened Graphs
  import opened CheckRunner

  /** What the resolver returned for a check, as the app wrote it. */
  datatype Given = Given(value: string, source: string)

  datatype Refusal = InvalidValue(name: string) | SourceEmpty(name: string) | AboveSeverity(name: string)

  /** strings.TrimSpace leaves nothing. */
  predicate Blank(s: string) {
    forall c :: c in s ==> IsSpace(c)
  }

  function ValueOf(word: string): Option<CheckValue> {
    if word == "error" then Some(AsError)
    else if word == "warn" then Some(AsWarn)
    else if word == "off" then Some(TurnedOff)
    else None
  }

  function Registered(severity: Severity): CheckValue {
    if severity == Error then AsError else AsWarn
  }

  /** One check's resolution: its registered severity unless the resolver speaks, and a
      refusal for an unknown value, a blank source, or a value above the severity. */
  function Resolve(defs: Checks, resolver: map<string, Given>, name: string): Result<Resolved, Refusal>
    requires name in defs
  {
    if name !in resolver then Success(Resolved(Registered(defs[name].severity), "default"))
    else
      var given := resolver[name];
      match ValueOf(given.value)
      case None => Failure(InvalidValue(name))
      case Some(value) =>
        if Blank(given.source) then Failure(SourceEmpty(name))
        else if value == AsError && defs[name].severity == Warn then Failure(AboveSeverity(name))
        else Success(Resolved(value, given.source))
  }

  /** What each word resolves to and what is refused, in the order of the refusals: an unknown word, a source
      of white space only, and "error" for a check registered at warn. */
  lemma ResolveMeans(defs: Checks, resolver: map<string, Given>, name: string)
    requires name in defs
    ensures var r := Resolve(defs, resolver, name);
      if name !in resolver then
        r == Success(Resolved(if defs[name].severity == Error then AsError else AsWarn, "default"))
      else
        var word, source := resolver[name].value, resolver[name].source;
        var blank := forall k :: 0 <= k < |source| ==> WhiteSpace(source[k]);
        if word != "error" && word != "warn" && word != "off" then r == Failure(InvalidValue(name))
        else if blank then r == Failure(SourceEmpty(name))
        else if word == "off" then r == Success(Resolved(TurnedOff, source))
        else if word == "warn" then r == Success(Resolved(AsWarn, source))
        else if defs[name].severity == Warn then r == Failure(AboveSeverity(name))
        else r == Success(Resolved(AsError, source))
  {
    if name in resolver {
      var source := resolver[name].source;
      forall c ensures IsSpace(c) <==> WhiteSpace(c) { SpacesAgree(c); }
      hide IsSpace, WhiteSpace;
      assert Blank(source) <==> forall k :: 0 <= k < |source| ==> WhiteSpace(source[k]);
    }
  }

  /** The resolver's value for the check at i is refused, and for none before it. */
  ghost predicate FirstRefused(defs: Checks, resolver: map<string, Given>, names: seq<string>, i: int)
    requires forall n :: n in names ==> n in defs
  {
    && 0 <= i < |names| && Resolve(defs, resolver, names[i]).Failure?
    && forall k :: 0 <= k < i ==> Resolve(defs, resolver, names[k]).Success?
  }

  /** resolveCheckValues: every named check's value, or the first refusal in order. */
  method ResolveCheckValues(defs: Checks, names: seq<string>, resolver: map<string, Given>)
    returns (r: Result<map<string, Resolved>, Refusal>)
    requires forall n :: n in names ==> n in defs
    ensures r.Success? ==> r.value.Keys == Elements(names)
    ensures r.Success? ==> forall n :: n in names ==> Resolve(defs, resolver, n) == Success(r.value[n])
    ensures r.Failure? ==>
      exists i :: FirstRefused(defs, resolver, names, i) && Resolve(defs, resolver, names[i]) == Failure(r.error)
  {
    var values := map[];
    assert names[..0] == [];
    for i := 0 to |names|
      invariant values.Keys == Elements(names[..i])
      invariant forall k :: 0 <= k < i ==> names[k] in values
      invariant forall k :: 0 <= k < i ==> Resolve(defs, resolver, names[k]) == Success(values[names[k]])
    {
      var name := names[i];
      assert names[..i + 1] == names[..i] + [name];
      ElementsAppend(names[..i], name);
      if name in resolver {
        var given := resolver[name];
        var value := ValueOf(given.value);
        if value.None? {
          assert FirstRefused(defs, resolver, names, i);
          return Failure(InvalidValue(name));
        }
        if Blank(given.source) {
          assert FirstRefused(defs, resolver, names, i);
          return Failure(SourceEmpty(name));
        }
        if value.value == AsError && defs[name].severity == Warn {
          assert FirstRefused(defs, resolver, names, i);
          return Failure(AboveSeverity(name));
        }
        values := values[name := Resolved(value.value, given.source)];
      } else {
        values := values[name := Resolved(Registered(defs[name].severity), "default")];
      }
    }
    assert names[..|names|] == names;
    return Success(values);
  }

  /** Resolved values that turn nothing off only ever lower: they fail no check that the
      registered severities would not fail. */
  lemma ResolvedNeverFailsMore(s: Setup, values: map<string, Resolved>, resolver: map<string, Given>,
                               f: map<string, Fate>, h: map<string, Fate>, order: seq<string>)
    requires s.Valid() && s.values == map[] && FinishOrder(Dependencies(s.defs), order)
    requires values.Keys <= s.defs.Keys
    requires forall n :: n in values ==> Resolve(s.defs, resolver, n) == Success(values[n])
    requires forall n :: n in values ==> values[n].value != TurnedOff
    requires Solves(s, f) && Solves(s.(values := values), h) && Elements(order) == f.Keys && f.Keys == h.Keys
    ensures forall n :: n in order ==> FailsNoMore(f, h, n)
  {
    var t := s.(values := values);
    assert Lowered(s, t);
    LoweringNeverFailsMore(s, t, f, h, order, |order|);
    assert order[..|order|] == order;
  }
}
