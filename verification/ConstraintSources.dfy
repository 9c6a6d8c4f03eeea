/** Which values engage a member: by where a value came from and by what it is. */
module ConstraintSources {
  import opened Names
  import opened Constraints
  import opened ConstraintEval

  /** The command line, the environment, a configuration file and an implication supply a
      value; a default and the framework's own infrastructure do not. */
  predicate Supplied(e: Entry) {
    match e.source
    case FromCLI => true
    case FromEnv => true
    case FromConfig => true
    case FromImplied => true
    case FromDefault => false
    case FromInfra => false
  }

  /** The election asks for any value, for true, or for one that is not empty. */
  predicate Meets(v: Value, when: When) {
    match when
    case Present => true
    case True => v == BoolValue(true)
    case NonEmpty => v != Null && v != StrValue("") && v != ListValue([]) && v != MapValue(map[])
  }

  /** A flag that is no selector engages exactly by a supplied value that meets its election. */
  lemma FlagEngages(input: Input, name: string, when: When)
    requires name !in input.selectors
    ensures input.LeafEngaged(FlagMember(name, when)) <==>
      name in input.store && Supplied(input.store[name]) && Meets(input.store[name].value, when)
  {
  }

  /** A selector engages exactly when the invocation elected it; presence is all it can be asked for. */
  lemma SelectorEngages(input: Input, name: string, when: When)
    requires name in input.selectors
    ensures input.LeafEngaged(FlagMember(name, when)) <==> name in input.elected && when == Present
  {
  }

  /** An argument engages exactly when it is provided with a value that meets its election. */
  lemma ArgEngages(input: Input, name: string, when: When)
    ensures input.LeafEngaged(ArgMember(name, when)) <==> name in input.args && Meets(input.args[name], when)
  {
  }

  /** Requires is broken exactly by a supplied flag whose need is not supplied. */
  lemma RequiresReads(cs: seq<Decl>, input: Input, i: nat)
    requires Registered(cs) && Finishes(cs) && i < |cs| && cs[i].Requires?
    ensures !Satisfied(cs, input, i) <==>
      && cs[i].flag in input.store && Supplied(input.store[cs[i].flag])
      && !(cs[i].dependsOn in input.store && Supplied(input.store[cs[i].dependsOn]))
  {
  }

  /** A bool member is declined exactly by a value of false that counts. */
  lemma DeclineReads(input: Input, m: Member)
    requires m.FlagMember? && m.name !in input.selectors
    ensures Declines(input, m) <==>
      m.when == True && m.name in input.store && Supplied(input.store[m.name])
      && input.store[m.name].value == BoolValue(false)
  {
  }

  // --- One supplying source is as good as another -------------------------------------------------

  /** The same values, supplied alike, though from other sources. */
  ghost predicate SuppliedAlike(a: Input, b: Input) {
    && a.args == b.args && a.selectors == b.selectors && a.elected == b.elected
    && a.store.Keys == b.store.Keys
    && forall n :: n in a.store ==>
         a.store[n].value == b.store[n].value && (Supplied(a.store[n]) <==> Supplied(b.store[n]))
  }

  lemma MemberAlike(a: Input, b: Input, m: Member)
    requires SuppliedAlike(a, b) && !m.Nested?
    ensures a.MemberValue(m) == b.MemberValue(m) && (a.LeafEngaged(m) <==> b.LeafEngaged(m))
  {
  }

  lemma {:induction false} EngagedAlike(cs: seq<Decl>, a: Input, b: Input, i: nat)
    requires Registered(cs) && Finishes(cs) && i < |cs| && cs[i].CoOccurrence() && SuppliedAlike(a, b)
    ensures Engaged(cs, a, i) <==> Engaged(cs, b, i)
    ensures forall k: nat :: k < |cs[i].members| ==> (EngagedAt(cs, a, i, k) <==> EngagedAt(cs, b, i, k))
    decreases Rank(cs, i)
  {
    var ms := cs[i].members;
    forall k: nat | k < |ms| ensures EngagedAt(cs, a, i, k) <==> EngagedAt(cs, b, i, k) {
      assert ms[k] in ms;
      if ms[k].Nested? {
        NestedRanksBelow(cs, i, ms[k]);
        EngagedAlike(cs, a, b, ms[k].idx);
      } else {
        MemberAlike(a, b, ms[k]);
      }
    }
    EngagedMeans(cs, a, i);
    EngagedMeans(cs, b, i);
  }

  lemma SatisfiedAlike(cs: seq<Decl>, a: Input, b: Input, i: nat)
    requires Registered(cs) && Finishes(cs) && i < |cs| && SuppliedAlike(a, b)
    ensures Satisfied(cs, a, i) <==> Satisfied(cs, b, i)
  {
    hide Engaged, EngagedAt;
    if cs[i].CoOccurrence() {
      EngagedAlike(cs, a, b, i);
    } else if cs[i].Requires? {
      RequiresReads(cs, a, i);
      RequiresReads(cs, b, i);
    }
  }

  lemma {:induction false} ViolatedAlike(cs: seq<Decl>, a: Input, b: Input, i: nat)
    requires Registered(cs) && Finishes(cs) && i < |cs| && cs[i].CoOccurrence() && SuppliedAlike(a, b)
    ensures FirstViolated(cs, a, i) == FirstViolated(cs, b, i)
    decreases Rank(cs, i), |cs[i].members| + 1
  {
    hide SuppliedAlike, Satisfied;
    ViolatedMembersAlike(cs, a, b, i, 0);
    SatisfiedAlike(cs, a, b, i);
  }

  lemma {:induction false} ViolatedMembersAlike(cs: seq<Decl>, a: Input, b: Input, i: nat, k: nat)
    requires Registered(cs) && Finishes(cs) && i < |cs| && cs[i].CoOccurrence() && k <= |cs[i].members|
    requires SuppliedAlike(a, b)
    ensures FirstViolatedMember(cs, a, i, k) == FirstViolatedMember(cs, b, i, k)
    decreases Rank(cs, i), |cs[i].members| - k
  {
    hide SuppliedAlike;
    if k < |cs[i].members| {
      var m := cs[i].members[k];
      assert m in cs[i].members;
      if m.Nested? {
        NestedRanksBelow(cs, i, m);
        ViolatedAlike(cs, a, b, m.idx);
      }
      ViolatedMembersAlike(cs, a, b, i, k + 1);
    }
  }

  lemma {:induction false} RefusedAlike(cs: seq<Decl>, a: Input, b: Input, k: nat)
    requires Registered(cs) && Finishes(cs) && k <= |cs| && SuppliedAlike(a, b)
    ensures FirstRefused(cs, a, k) == FirstRefused(cs, b, k)
    decreases |cs| - k
  {
    hide SuppliedAlike, Satisfied;
    if k < |cs| {
      RefusedAlike(cs, a, b, k + 1);
      SatisfiedAlike(cs, a, b, k);
      if cs[k].CoOccurrence() { ViolatedAlike(cs, a, b, k); }
    }
  }

  /** What evaluation reports. */
  ghost predicate Reported(cs: seq<Decl>, input: Input, v: Option<Violation>)
    requires Registered(cs) && Finishes(cs)
  {
    if v.None? then FirstRefused(cs, input, 0).None? else Tells(cs, input, v.value, FirstRefused(cs, input, 0))
  }

  lemma OneDecline(a: Input, b: Input, members: seq<Member>, d: Option<string>, e: Option<string>)
    requires SuppliedAlike(a, b) && FirstDecline(a, members, d) && FirstDecline(b, members, e)
    ensures d == e
  {
    forall m | m in members && !m.Nested? ensures Declines(a, m) <==> Declines(b, m) {
      MemberAlike(a, b, m);
    }
    hide SuppliedAlike, Declines;
    if d.Some? {
      var k :| FirstDeclineAt(a, members, k) && members[k].name == d.value;
      assert Declines(a, members[k]);
    }
    if e.Some? {
      var k :| FirstDeclineAt(b, members, k) && members[k].name == e.value;
      assert Declines(b, members[k]);
    }
  }

  /** Exchanging one supplying source for another leaves the report as it is, its decline clause
      included; in particular an invocation has one report. */
  lemma SourcesAlike(cs: seq<Decl>, a: Input, b: Input, v: Option<Violation>, w: Option<Violation>)
    requires Registered(cs) && Finishes(cs) && SuppliedAlike(a, b)
    requires Reported(cs, a, v) && Reported(cs, b, w)
    ensures v == w
  {
    RefusedAlike(cs, a, b, 0);
    hide SuppliedAlike, FirstDecline, FirstRefused;
    if v.Some? && w.Some? {
      var i := FirstRefused(cs, a, 0).value;
      if cs[i].AtLeastOne? { OneDecline(a, b, cs[i].members, v.value.decline, w.value.decline); }
    }
  }
}
