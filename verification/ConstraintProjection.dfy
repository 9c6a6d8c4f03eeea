/** projectConstraints: the JSON Schema keywords a tool schema carries for a command's
    constraints, and how they relate to the rules themselves. */
module ConstraintProjection {
  import opened Names
  import opened Constraints

  /** flagParamName: the underscored spelling of a flag at a machine door. */
  function FlagParamName(name: string): string {
    seq(|name|, i requires 0 <= i < |name| => if name[i] == '-' then '_' else name[i])
  }

  /** Names without underscores, as flags have them, keep apart at a machine door, where none shows a hyphen. */
  lemma ParamsApart(a: string, b: string)
    ensures '-' !in FlagParamName(a)
    ensures '_' !in a && '_' !in b ==> (FlagParamName(a) == FlagParamName(b) <==> a == b)
    ensures |FlagParamName(a)| == |a| && forall i :: 0 <= i < |a| && a[i] != '-' ==> FlagParamName(a)[i] == a[i]
    ensures forall i :: 0 <= i < |a| && a[i] == '-' ==> FlagParamName(a)[i] == '_'
  {
    if '_' !in a && '_' !in b && FlagParamName(a) == FlagParamName(b) {
      forall i | 0 <= i < |a| ensures a[i] == b[i] {
        assert FlagParamName(a)[i] == FlagParamName(b)[i] && a[i] in a && b[i] in b;
      }
    }
  }

  /** mcpPropertyName. */
  function PropertyName(m: Member): string
    requires !m.Nested?
  {
    if m.ArgMember? then m.name else FlagParamName(m.name)
  }

  /** A flag's property shows no hyphen; an argument's is its own name. */
  lemma PropertyMeans(name: string, when: When)
    ensures '-' !in PropertyName(FlagMember(name, when)) && PropertyName(FlagMember(name, when)) == FlagParamName(name)
    ensures PropertyName(ArgMember(name, when)) == name
  {
    ParamsApart(name, name);
  }

  /** An anyOf branch: the properties it requires. */
  type Branch = seq<string>

  /** leafProperties, over the members from position k on. */
  function LeavesFrom(cs: seq<Decl>, i: nat, k: nat): seq<string>
    requires Registered(cs) && Finishes(cs) && i < |cs| && cs[i].CoOccurrence() && k <= |cs[i].members|
    decreases Rank(cs, i), |cs[i].members| - k
  {
    if k == |cs[i].members| then []
    else
      var m := cs[i].members[k];
      assert m in cs[i].members;
      if m.Nested? then
        NestedRanksBelow(cs, i, m);
        LeavesFrom(cs, m.idx, 0) + LeavesFrom(cs, i, k + 1)
      else [PropertyName(m)] + LeavesFrom(cs, i, k + 1)
  }

  /** anyOfBranches, over the members from position k on: a nested all-or-none is one
      branch of all its leaves, a nested at-least-one's branches are inlined. */
  function BranchesFrom(cs: seq<Decl>, i: nat, k: nat): seq<Branch>
    requires Registered(cs) && Finishes(cs) && i < |cs| && cs[i].CoOccurrence() && k <= |cs[i].members|
    decreases Rank(cs, i), |cs[i].members| - k
  {
    if k == |cs[i].members| then []
    else
      var m := cs[i].members[k];
      assert m in cs[i].members;
      var here :=
        if !m.Nested? then [[PropertyName(m)]]
        else (
          NestedRanksBelow(cs, i, m);
          if cs[m.idx].AtLeastOne? then BranchesFrom(cs, m.idx, 0) else [LeavesFrom(cs, m.idx, 0)]);
      here + BranchesFrom(cs, i, k + 1)
  }

  /** hasNonPresentSelector, over the members from position k on. */
  predicate NonPresentFrom(cs: seq<Decl>, i: nat, k: nat)
    requires Registered(cs) && Finishes(cs) && i < |cs| && cs[i].CoOccurrence() && k <= |cs[i].members|
    decreases Rank(cs, i), |cs[i].members| - k
  {
    if k == |cs[i].members| then false
    else
      var m := cs[i].members[k];
      assert m in cs[i].members;
      (if m.Nested? then (NestedRanksBelow(cs, i, m); NonPresentFrom(cs, m.idx, 0)) else m.when != Present)
      || NonPresentFrom(cs, i, k + 1)
  }

  predicate HasConstraintMember(d: Decl) {
    exists m :: m in d.Resolved() && m.Nested?
  }

  // --- The emitted keywords and what they accept ------------------------------------

  datatype Reason = Selectors | Nesting | Injection

  datatype Fidelity = Exact | Partial(reason: Reason)

  /** The keywords set on the tool's object schema. */
  datatype Keywords = Keywords(anyOf: Option<seq<Branch>>, allOf: Option<seq<seq<Branch>>>,
                               dependentRequired: map<string, seq<string>>)

  ghost predicate BranchAccepts(b: Branch, keys: set<string>) {
    forall p :: p in b ==> p in keys
  }

  ghost predicate AnyOfAccepts(branches: seq<Branch>, keys: set<string>) {
    exists b :: b in branches && BranchAccepts(b, keys)
  }

  ghost predicate DependentAccepts(dependent: map<string, seq<string>>, keys: set<string>) {
    forall p, q :: p in dependent && p in keys && q in dependent[p] ==> q in keys
  }

  /** JSON Schema 2020-12: anyOf and allOf by Core sections 10.2.1.1 and 10.2.1.2,
      required and dependentRequired by Validation sections 6.5.3 and 6.5.4. */
  ghost predicate Accepts(schema: Keywords, keys: set<string>) {
    && (schema.anyOf.Some? ==> AnyOfAccepts(schema.anyOf.value, keys))
    && (schema.allOf.Some? ==> forall b :: b in schema.allOf.value ==> AnyOfAccepts(b, keys))
    && DependentAccepts(schema.dependentRequired, keys)
  }

  ghost predicate AllOrNoneKeys(props: seq<string>, keys: set<string>) {
    forall p, q :: p in props && q in props && p in keys ==> q in keys
  }

  /** What the keywords say about constraint i. */
  ghost predicate KeyRule(cs: seq<Decl>, i: nat, keys: set<string>)
    requires Registered(cs) && Finishes(cs) && i < |cs|
  {
    match cs[i]
    case AtLeastOne(_, _) => AnyOfAccepts(BranchesFrom(cs, i, 0), keys)
    case AllOrNone(_, _) =>
      Verdict(cs, i) == Exact ==> AllOrNoneKeys(LeavesFrom(cs, i, 0), keys)
    case Requires(_, flag, dependsOn) => FlagParamName(flag) in keys ==> FlagParamName(dependsOn) in keys
    case Implies(_, _, _, _) => true
  }

  function Verdict(cs: seq<Decl>, i: nat): Fidelity
    requires Registered(cs) && Finishes(cs) && i < |cs|
  {
    match cs[i]
    case AtLeastOne(_, _) => if NonPresentFrom(cs, i, 0) then Partial(Selectors) else Exact
    case AllOrNone(_, _) =>
      if HasConstraintMember(cs[i]) then Partial(Nesting)
      else if NonPresentFrom(cs, i, 0) then Partial(Selectors)
      else Exact
    case Requires(_, _, _) => Exact
    case Implies(_, _, _, _) => Partial(Injection)
  }

  // --- The emitting loop ------------------------------------------------------------

  /** addDependent: merges values into a key's list without repeating an entry. */
  method AddDependent(dependent: map<string, seq<string>>, key: string, values: seq<string>)
    returns (r: map<string, seq<string>>)
    ensures forall keys :: DependentAccepts(r, keys) <==>
      DependentAccepts(dependent, keys) && (key in keys ==> forall v :: v in values ==> v in keys)
  {
    if key !in dependent {
      return dependent[key := values];
    }
    var existing := dependent[key];
    for i := 0 to |values|
      invariant forall v :: v in existing <==> v in dependent[key] || v in values[..i]
    {
      if values[i] !in existing {
        existing := existing + [values[i]];
      }
    }
    assert values[..|values|] == values;
    r := dependent[key := existing];
  }

  ghost predicate AllOthers(some: seq<string>, props: seq<string>, keys: set<string>) {
    forall p, q :: p in some && q in props && p in keys ==> q in keys
  }

  /** The all-or-none case: each property requires all the others. */
  method AddAllOrNone(dependent: map<string, seq<string>>, props: seq<string>)
    returns (r: map<string, seq<string>>)
    ensures forall keys ::
      DependentAccepts(r, keys) <==> DependentAccepts(dependent, keys) && AllOrNoneKeys(props, keys)
  {
    r := dependent;
    for i := 0 to |props|
      invariant forall keys ::
        DependentAccepts(r, keys) <==> DependentAccepts(dependent, keys) && AllOthers(props[..i], props, keys)
    {
      var p := props[i];
      var others := [];
      for j := 0 to |props|
        invariant forall q :: q in others <==> q in props[..j] && q != p
      {
        if props[j] != p { others := others + [props[j]]; }
      }
      assert props[..|props|] == props && props[..i + 1] == props[..i] + [p];
      r := AddDependent(r, p, others);
    }
    assert props[..|props|] == props;
  }

  /** The rules gathered so far: every anyOf and the dependentRequired map. */
  ghost predicate Gathered(anyOfs: seq<seq<Branch>>, dependent: map<string, seq<string>>, keys: set<string>) {
    DependentAccepts(dependent, keys) && forall b :: b in anyOfs ==> AnyOfAccepts(b, keys)
  }

  ghost predicate KeyRules(cs: seq<Decl>, n: nat, keys: set<string>)
    requires Registered(cs) && Finishes(cs) && n <= |cs|
  {
    forall k: nat :: k < n ==> KeyRule(cs, k, keys)
  }

  /** projectConstraints, for a command that declares no update. The keywords accept a
      key set exactly when every constraint's key rule does, however the rules are
      spread over anyOf, allOf and dependentRequired. */
  method ProjectConstraints(cs: seq<Decl>) returns (schema: Keywords, fidelities: seq<Fidelity>)
    requires Registered(cs) && Finishes(cs)
    ensures forall keys :: Accepts(schema, keys) <==> KeyRules(cs, |cs|, keys)
    ensures |fidelities| == |cs| && forall i: nat :: i < |cs| ==> fidelities[i] == Verdict(cs, i)
  {
    fidelities := [];
    var anyOfs: seq<seq<Branch>> := [];
    var dependent: map<string, seq<string>> := map[];
    for i := 0 to |cs|
      invariant |fidelities| == i && forall k: nat :: k < i ==> fidelities[k] == Verdict(cs, k)
      invariant forall keys :: Gathered(anyOfs, dependent, keys) <==> KeyRules(cs, i, keys)
    {
      ghost var anyOfsWas, dependentWas := anyOfs, dependent;
      match cs[i] {
        case AtLeastOne(_, _) =>
          GatherAnyOf(anyOfs, dependent, BranchesFrom(cs, i, 0));
          anyOfs := anyOfs + [BranchesFrom(cs, i, 0)];
        case AllOrNone(_, _) =>
          if !HasConstraintMember(cs[i]) && !NonPresentFrom(cs, i, 0) {
            dependent := AddAllOrNone(dependent, LeavesFrom(cs, i, 0));
          }
        case Requires(_, flag, dependsOn) =>
          dependent := AddDependent(dependent, FlagParamName(flag), [FlagParamName(dependsOn)]);
        case Implies(_, _, _, _) =>
      }
      fidelities := fidelities + [Verdict(cs, i)];
      forall keys
        ensures Gathered(anyOfs, dependent, keys) <==> Gathered(anyOfsWas, dependentWas, keys) && KeyRule(cs, i, keys)
      {
        if cs[i].Requires? {
          assert [FlagParamName(cs[i].dependsOn)][0] in [FlagParamName(cs[i].dependsOn)];
        }
      }
      forall keys ensures KeyRules(cs, i + 1, keys) <==> KeyRules(cs, i, keys) && KeyRule(cs, i, keys) {
      }
    }
    schema := Keywords(
      if |anyOfs| == 1 then Some(anyOfs[0]) else None,
      if |anyOfs| > 1 then Some(anyOfs) else None,
      dependent);
    forall keys ensures Accepts(schema, keys) <==> Gathered(anyOfs, dependent, keys) {
      if |anyOfs| == 1 { assert anyOfs[0] in anyOfs; }
    }
  }

  lemma GatherAnyOf(anyOfs: seq<seq<Branch>>, dependent: map<string, seq<string>>, branches: seq<Branch>)
    ensures forall keys ::
      Gathered(anyOfs + [branches], dependent, keys) <==>
      Gathered(anyOfs, dependent, keys) && AnyOfAccepts(branches, keys)
  {
    forall keys
      ensures Gathered(anyOfs + [branches], dependent, keys) <==>
        Gathered(anyOfs, dependent, keys) && AnyOfAccepts(branches, keys)
    {
      var more := anyOfs + [branches];
      assert forall b :: b in more <==> b in anyOfs || b == branches;
    }
  }

  // --- Keys against the invocation ------------------------------------------------

  /** A key is present exactly when the member it names is provided. */
  ghost predicate KeysMatch(cs: seq<Decl>, input: Input, keys: set<string>) {
    && (forall i: nat, m :: i < |cs| && m in cs[i].Resolved() && !m.Nested? ==>
          (PropertyName(m) in keys <==> input.MemberValue(m).Some?))
    && (forall i: nat :: i < |cs| && cs[i].Requires? ==>
          && (FlagParamName(cs[i].flag) in keys <==> input.PresentForDeps(cs[i].flag))
          && (FlagParamName(cs[i].dependsOn) in keys <==> input.PresentForDeps(cs[i].dependsOn)))
  }

  /** A provided leaf elected by presence is engaged exactly when its key is there; any
      engaged leaf has its key. */
  lemma LeafKey(cs: seq<Decl>, input: Input, keys: set<string>, i: nat, k: nat)
    requires Registered(cs) && Finishes(cs) && i < |cs| && cs[i].CoOccurrence() && k < |cs[i].members|
    requires KeysMatch(cs, input, keys) && !cs[i].members[k].Nested?
    ensures EngagedAt(cs, input, i, k) ==> PropertyName(cs[i].members[k]) in keys
    ensures cs[i].members[k].when == Present ==>
      (EngagedAt(cs, input, i, k) <==> PropertyName(cs[i].members[k]) in keys)
  {
    assert cs[i].members[k] in cs[i].Resolved();
  }

  predicate FlatLeaf(m: Member) {
    !m.Nested? && m.when == Present
  }

  /** The all-or-none key rule is the constraint itself when it has only leaves elected
      by presence. */
  lemma FlatLeaves(cs: seq<Decl>, i: nat, k: nat)
    requires Registered(cs) && Finishes(cs) && i < |cs| && cs[i].CoOccurrence() && k <= |cs[i].members|
    requires !HasConstraintMember(cs[i]) && !NonPresentFrom(cs, i, k)
    ensures |LeavesFrom(cs, i, k)| == |cs[i].members| - k
    ensures forall j: nat :: k <= j < |cs[i].members| ==>
      FlatLeaf(cs[i].members[j]) && LeavesFrom(cs, i, k)[j - k] == PropertyName(cs[i].members[j])
    decreases |cs[i].members| - k
  {
    if k < |cs[i].members| {
      assert cs[i].members[k] in cs[i].Resolved();
      FlatLeaves(cs, i, k + 1);
    }
  }

  /** For such a constraint, member by member: engaged means key present. */
  lemma FlatKeys(cs: seq<Decl>, input: Input, keys: set<string>, i: nat)
    requires Registered(cs) && Finishes(cs) && i < |cs| && cs[i].AllOrNone?
    requires KeysMatch(cs, input, keys) && Verdict(cs, i) == Exact
    ensures |LeavesFrom(cs, i, 0)| == |cs[i].members| >= 2
    ensures forall j: nat :: j < |cs[i].members| ==>
      (EngagedAt(cs, input, i, j) <==> LeavesFrom(cs, i, 0)[j] in keys)
  {
    FlatLeaves(cs, i, 0);
    forall j: nat | j < |cs[i].members|
      ensures EngagedAt(cs, input, i, j) <==> LeavesFrom(cs, i, 0)[j] in keys
    {
      assert FlatLeaf(cs[i].members[j]);
      LeafKey(cs, input, keys, i, j);
    }
  }

  lemma AllOrNoneExact(cs: seq<Decl>, input: Input, keys: set<string>, i: nat)
    requires Registered(cs) && Finishes(cs) && i < |cs| && cs[i].AllOrNone?
    requires KeysMatch(cs, input, keys) && Verdict(cs, i) == Exact
    ensures KeyRule(cs, i, keys) <==> Satisfied(cs, input, i)
    ensures Satisfied(cs, input, i) ==> (Engaged(cs, input, i) <==> BranchAccepts(LeavesFrom(cs, i, 0), keys))
  {
    var n, leaves := |cs[i].members|, LeavesFrom(cs, i, 0);
    FlatKeys(cs, input, keys, i);
    EngagedMeans(cs, input, i);
    assert forall j: nat :: j < n ==> leaves[j] in leaves;
    if Engaged(cs, input, i) && KeyRule(cs, i, keys) {
      var j: nat :| j < n && EngagedAt(cs, input, i, j);
      assert leaves[j] in keys;
    }
    if Engaged(cs, input, i) && Satisfied(cs, input, i) {
      assert forall j: nat :: j < n ==> leaves[j] in keys;
    }
    if BranchAccepts(leaves, keys) {
      assert EngagedAt(cs, input, i, 0);
    }
  }

  lemma AnyOfConcat(a: seq<Branch>, b: seq<Branch>, keys: set<string>)
    ensures AnyOfAccepts(a + b, keys) <==> AnyOfAccepts(a, keys) || AnyOfAccepts(b, keys)
  {
    if AnyOfAccepts(a, keys) {
      var x :| x in a && BranchAccepts(x, keys);
      assert x in a + b;
    }
    if AnyOfAccepts(b, keys) {
      var x :| x in b && BranchAccepts(x, keys);
      assert x in a + b;
    }
  }

  lemma AnyOfOne(b: Branch, keys: set<string>)
    ensures AnyOfAccepts([b], keys) <==> BranchAccepts(b, keys)
  {
    assert [b][0] in [b];
  }

  ghost predicate EngagedFrom(cs: seq<Decl>, input: Input, i: nat, k: nat)
    requires Registered(cs) && Finishes(cs) && i < |cs| && cs[i].CoOccurrence() && k <= |cs[i].members|
  {
    exists j: nat :: k <= j < |cs[i].members| && EngagedAt(cs, input, i, j)
  }

  /** The branches a member contributes to its parent's anyOf. */
  ghost function MemberBranches(cs: seq<Decl>, m: Member): seq<Branch>
    requires Registered(cs) && Finishes(cs) && (m.Nested? ==> m.idx < |cs| && cs[m.idx].CoOccurrence())
  {
    if !m.Nested? then [[PropertyName(m)]]
    else if cs[m.idx].AtLeastOne? then BranchesFrom(cs, m.idx, 0)
    else [LeavesFrom(cs, m.idx, 0)]
  }

  lemma BranchesStep(cs: seq<Decl>, input: Input, keys: set<string>, i: nat, k: nat)
    requires Registered(cs) && Finishes(cs) && i < |cs| && cs[i].CoOccurrence() && k < |cs[i].members|
    ensures cs[i].members[k].Nested? ==> cs[i].members[k].idx < |cs| && cs[cs[i].members[k].idx].CoOccurrence()
    ensures AnyOfAccepts(BranchesFrom(cs, i, k), keys) <==>
      AnyOfAccepts(MemberBranches(cs, cs[i].members[k]), keys) || AnyOfAccepts(BranchesFrom(cs, i, k + 1), keys)
    ensures EngagedFrom(cs, input, i, k) <==> EngagedAt(cs, input, i, k) || EngagedFrom(cs, input, i, k + 1)
  {
    var m := cs[i].members[k];
    assert m in cs[i].members;
    assert BranchesFrom(cs, i, k) == MemberBranches(cs, m) + BranchesFrom(cs, i, k + 1);
    AnyOfConcat(MemberBranches(cs, m), BranchesFrom(cs, i, k + 1), keys);
  }

  // --- Exact projections say exactly the rules -----------------------------------------

  /** Every rule projects exactly; an Implies projects to nothing and rules nothing out. */
  ghost predicate AllExact(cs: seq<Decl>)
    requires Registered(cs) && Finishes(cs)
  {
    forall i: nat :: i < |cs| && !cs[i].Implies? ==> Verdict(cs, i) == Exact
  }

  ghost predicate GroupsHold(cs: seq<Decl>, input: Input)
    requires Registered(cs) && Finishes(cs)
  {
    forall i: nat :: i < |cs| && cs[i].AllOrNone? ==> Satisfied(cs, input, i)
  }

  /** An at-least-one's anyOf accepts exactly the key sets that engage it, provided the
      all-or-none groups beneath it hold: alone it would be too strong. */
  lemma {:induction false} AnyOfExact(cs: seq<Decl>, input: Input, keys: set<string>, i: nat, k: nat)
    requires Registered(cs) && Finishes(cs) && i < |cs| && cs[i].AtLeastOne? && k <= |cs[i].members|
    requires KeysMatch(cs, input, keys) && AllExact(cs) && GroupsHold(cs, input)
    requires !NonPresentFrom(cs, i, k)
    ensures AnyOfAccepts(BranchesFrom(cs, i, k), keys) <==> EngagedFrom(cs, input, i, k)
    decreases Rank(cs, i), |cs[i].members| - k
  {
    if k == |cs[i].members| {
      NoBranches(cs, input, keys, i);
    } else {
      NestedVerdict(cs, i, k);
      var m := cs[i].members[k];
      if m.Nested? && cs[m.idx].AtLeastOne? { AnyOfExact(cs, input, keys, m.idx, 0); }
      AnyOfExact(cs, input, keys, i, k + 1);
      hide *;
      ExactStep(cs, input, keys, i, k);
    }
  }

  /** One more member in front. */
  lemma ExactStep(cs: seq<Decl>, input: Input, keys: set<string>, i: nat, k: nat)
    requires Registered(cs) && Finishes(cs) && i < |cs| && cs[i].AtLeastOne? && k < |cs[i].members|
    requires KeysMatch(cs, input, keys) && AllExact(cs) && GroupsHold(cs, input) && !NonPresentFrom(cs, i, k)
    requires cs[i].members[k].Nested? ==>
      cs[i].members[k].idx < |cs| && NestedExact(cs, input, keys, cs[i].members[k].idx)
    requires AnyOfAccepts(BranchesFrom(cs, i, k + 1), keys) <==> EngagedFrom(cs, input, i, k + 1)
    ensures AnyOfAccepts(BranchesFrom(cs, i, k), keys) <==> EngagedFrom(cs, input, i, k)
  {
    hide *;
    MemberExact(cs, input, keys, i, k);
    BranchesStep(cs, input, keys, i, k);
  }

  lemma NoBranches(cs: seq<Decl>, input: Input, keys: set<string>, i: nat)
    requires Registered(cs) && Finishes(cs) && i < |cs| && cs[i].CoOccurrence()
    ensures !AnyOfAccepts(BranchesFrom(cs, i, |cs[i].members|), keys) && !EngagedFrom(cs, input, i, |cs[i].members|)
  {
  }

  lemma NestedVerdict(cs: seq<Decl>, i: nat, k: nat)
    requires Registered(cs) && Finishes(cs) && AllExact(cs) && i < |cs| && cs[i].CoOccurrence()
    requires k < |cs[i].members| && !NonPresentFrom(cs, i, k)
    ensures !NonPresentFrom(cs, i, k + 1)
    ensures var m := cs[i].members[k]; m.Nested? ==>
      && m in cs[i].members && m.idx < |cs| && cs[m.idx].CoOccurrence() && !NonPresentFrom(cs, m.idx, 0)
      && Rank(cs, m.idx) < Rank(cs, i)
  {
    var m := cs[i].members[k];
    assert m in cs[i].members;
    if m.Nested? { NestedRanksBelow(cs, i, m); }
  }

  ghost predicate NestedExact(cs: seq<Decl>, input: Input, keys: set<string>, j: nat)
    requires Registered(cs) && Finishes(cs) && j < |cs|
  {
    && cs[j].CoOccurrence()
    && (cs[j].AtLeastOne? ==> (AnyOfAccepts(BranchesFrom(cs, j, 0), keys) <==> EngagedFrom(cs, input, j, 0)))
  }

  /** A member's branches accept exactly when it is engaged, given that for a nested at-least-one. */
  lemma MemberExact(cs: seq<Decl>, input: Input, keys: set<string>, i: nat, k: nat)
    requires Registered(cs) && Finishes(cs) && i < |cs| && cs[i].AtLeastOne? && k < |cs[i].members|
    requires KeysMatch(cs, input, keys) && AllExact(cs) && GroupsHold(cs, input) && !NonPresentFrom(cs, i, k)
    requires cs[i].members[k].Nested? ==>
      cs[i].members[k].idx < |cs| && NestedExact(cs, input, keys, cs[i].members[k].idx)
    ensures AnyOfAccepts(MemberBranches(cs, cs[i].members[k]), keys) <==> EngagedAt(cs, input, i, k)
  {
    var m := cs[i].members[k];
    assert m in cs[i].members;
    if !m.Nested? {
      LeafKey(cs, input, keys, i, k);
      AnyOfOne([PropertyName(m)], keys);
      assert [PropertyName(m)][0] in [PropertyName(m)];
    } else if cs[m.idx].AtLeastOne? {
      EngagedMeans(cs, input, m.idx);
    } else {
      assert Verdict(cs, m.idx) == Exact;
      AnyOfOne(LeavesFrom(cs, m.idx, 0), keys);
      AllOrNoneExact(cs, input, keys, m.idx);
    }
  }

  /** When every verdict but an Implies's is exact and keys stand for provided members, the emitted
      keywords accept a key set exactly when the evaluation accepts the call. */
  lemma ExactProjection(cs: seq<Decl>, input: Input, keys: set<string>)
    requires Registered(cs) && Finishes(cs) && AllExact(cs) && KeysMatch(cs, input, keys)
    ensures KeyRules(cs, |cs|, keys) <==> AllSatisfied(cs, input)
  {
    forall i: nat | i < |cs| && !cs[i].AtLeastOne? ensures KeyRule(cs, i, keys) <==> Satisfied(cs, input, i) {
      if cs[i].AllOrNone? { AllOrNoneExact(cs, input, keys, i); }
    }
    if GroupsHold(cs, input) {
      forall i: nat | i < |cs| && cs[i].AtLeastOne? ensures KeyRule(cs, i, keys) <==> Satisfied(cs, input, i) {
        assert Verdict(cs, i) == Exact;
        AnyOfExact(cs, input, keys, i, 0);
        EngagedMeans(cs, input, i);
      }
    }
  }
}
