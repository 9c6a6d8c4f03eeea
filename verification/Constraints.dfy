/** The constraint declarations after registration resolved their members, and what
    each of them means for one invocation. */
module Constraints {
  import opened Names
  import opened Graphs

  datatype When = Present | True | NonEmpty

  /** A member: a flag or an arg with its election, or another constraint by index. */
  datatype Member =
    | FlagMember(name: string, when: When)
    | ArgMember(name: string, when: When)
    | Nested(idx: nat)

  datatype Decl =
    | AtLeastOne(name: string, members: seq<Member>)
    | AllOrNone(name: string, members: seq<Member>)
    | Requires(name: string, flag: string, dependsOn: string)
    | Implies(name: string, flag: string, implies: string, value: bool)
  {
    predicate CoOccurrence() {
      AtLeastOne? || AllOrNone?
    }

    /** The resolved members; the two dependency rules have none. */
    function Resolved(): seq<Member> {
      if CoOccurrence() then members else []
    }
  }

  /** What registration established before the cycle pass: two members at least, and a
      nested member names a co-occurrence constraint. */
  ghost predicate Registered(cs: seq<Decl>) {
    forall i :: 0 <= i < |cs| && cs[i].CoOccurrence() ==>
      |cs[i].members| >= 2 &&
      forall m :: m in cs[i].members && m.Nested? ==> m.idx < |cs| && cs[m.idx].CoOccurrence()
  }

  function NestedIn(members: seq<Member>): (r: seq<nat>)
    ensures forall m :: m in members && m.Nested? ==> m.idx in r
    ensures forall j :: j in r ==> Nested(j) in members
  {
    if members == [] then []
    else
      var rest := NestedIn(members[1..]);
      assert members == [members[0]] + members[1..];
      if members[0].Nested? then [members[0].idx] + rest else rest
  }

  /** The nesting graph: constraints by declaration index. */
  function References(cs: seq<Decl>): Graph<nat> {
    map i: nat | i < |cs| :: NestedIn(cs[i].Resolved())
  }

  /** The reference graph can be walked to the end: what a silent cycle check proves. */
  ghost predicate Finishes(cs: seq<Decl>) {
    exists f :: FinishesBy(cs, f)
  }

  ghost predicate FinishesBy(cs: seq<Decl>, f: seq<nat>) {
    FinishOrder(References(cs), f) && forall i: nat :: i < |cs| ==> i in f
  }

  ghost function SomeOrder(cs: seq<Decl>): (f: seq<nat>)
    requires Finishes(cs)
    ensures FinishesBy(cs, f)
  {
    var f :| FinishesBy(cs, f);
    f
  }

  /** A constraint's rank: nested constraints rank strictly below it. */
  ghost function Rank(cs: seq<Decl>, i: nat): (k: nat)
    requires Finishes(cs) && i < |cs|
    ensures k < |SomeOrder(cs)| && SomeOrder(cs)[k] == i
  {
    var f := SomeOrder(cs);
    assert i in f;
    var k :| 0 <= k < |f| && f[k] == i;
    k
  }

  lemma NestedRanksBelow(cs: seq<Decl>, i: nat, m: Member)
    requires Finishes(cs) && i < |cs| && cs[i].CoOccurrence() && m in cs[i].members && m.Nested?
    ensures m.idx < |cs| && Rank(cs, m.idx) < Rank(cs, i)
  {
    var f, k := SomeOrder(cs), Rank(cs, i);
    assert m.idx in References(cs)[i];
    assert m.idx in f[..k];
    var j :| 0 <= j < k && f[j] == m.idx;
    assert f[Rank(cs, m.idx)] == f[j];
  }

  // --- One invocation's input --------------------------------------------------

  datatype Value = Null | BoolValue(b: bool) | StrValue(s: string) | ListValue(items: seq<Value>)
                 | MapValue(entries: map<string, Value>) | OtherValue

  datatype Source = FromCLI | FromEnv | FromConfig | FromImplied | FromDefault | FromInfra

  datatype Entry = Entry(value: Value, source: Source)

  /** The sourced store, the provided args, and the selector flags with the elections
      the invocation itself made. */
  datatype Input = Input(store: map<string, Entry>, args: map<string, Value>,
                         selectors: set<string>, elected: set<string>)
  {
    /** isPresentForDeps: the invocation caused this flag's value. */
    predicate PresentForDeps(name: string) {
      name in store && store[name].source !in {FromDefault, FromInfra}
    }

    /** memberValue. */
    function MemberValue(m: Member): Option<Value>
      requires !m.Nested?
    {
      if m.ArgMember? then (if m.name in args then Some(args[m.name]) else None)
      else if m.name in selectors then (if m.name in elected then Some(Null) else None)
      else if PresentForDeps(m.name) then Some(store[m.name].value)
      else None
    }

    /** The election: what makes a provided flag or arg count as engaged. */
    predicate LeafEngaged(m: Member)
      requires !m.Nested?
    {
      match MemberValue(m)
      case None => false
      case Some(v) =>
        match m.when
        case Present => true
        case True => v == BoolValue(true)
        case NonEmpty => IsNonEmptyValue(v)
    }
  }

  predicate IsNonEmptyValue(v: Value) {
    match v
    case Null => false
    case StrValue(s) => s != ""
    case ListValue(items) => items != []
    case MapValue(entries) => entries != map[]
    case _ => true
  }

  // --- The plain meaning, by recursion over the nesting --------------------------

  /** A co-occurrence constraint is engaged when one of its members is. */
  ghost predicate Engaged(cs: seq<Decl>, input: Input, i: nat)
    requires Registered(cs) && Finishes(cs) && i < |cs| && cs[i].CoOccurrence()
    decreases Rank(cs, i)
  {
    exists k :: 0 <= k < |cs[i].members| &&
      match cs[i].members[k]
      case Nested(j) =>
        assert cs[i].members[k] in cs[i].members;
        NestedRanksBelow(cs, i, cs[i].members[k]);
        Engaged(cs, input, j)
      case leaf => input.LeafEngaged(leaf)
  }

  ghost predicate MemberEngaged(cs: seq<Decl>, input: Input, m: Member)
    requires Registered(cs) && Finishes(cs)
    requires m.Nested? ==> m.idx < |cs| && cs[m.idx].CoOccurrence()
  {
    if m.Nested? then Engaged(cs, input, m.idx) else input.LeafEngaged(m)
  }

  /** Whether the member of i at position k is engaged. */
  ghost predicate EngagedAt(cs: seq<Decl>, input: Input, i: nat, k: nat)
    requires Registered(cs) && Finishes(cs) && i < |cs| && cs[i].CoOccurrence() && k < |cs[i].members|
  {
    assert cs[i].members[k] in cs[i].members;
    MemberEngaged(cs, input, cs[i].members[k])
  }

  lemma EngagedMeans(cs: seq<Decl>, input: Input, i: nat)
    requires Registered(cs) && Finishes(cs) && i < |cs| && cs[i].CoOccurrence()
    ensures Engaged(cs, input, i) <==> exists k: nat :: k < |cs[i].members| && EngagedAt(cs, input, i, k)
  {
    var ms := cs[i].members;
    if Engaged(cs, input, i) {
      var k :| 0 <= k < |ms| &&
        match ms[k] case Nested(j) => Engaged(cs, input, j) case leaf => input.LeafEngaged(leaf);
      assert EngagedAt(cs, input, i, k);
    }
  }

  ghost predicate Satisfied(cs: seq<Decl>, input: Input, i: nat)
    requires Registered(cs) && Finishes(cs) && i < |cs|
  {
    match cs[i]
    case AtLeastOne(_, ms) => Engaged(cs, input, i)
    case AllOrNone(_, ms) => Engaged(cs, input, i) ==> forall k: nat :: k < |ms| ==> EngagedAt(cs, input, i, k)
    case Requires(_, flag, dependsOn) => input.PresentForDeps(flag) ==> input.PresentForDeps(dependsOn)
    case Implies(_, _, _, _) => true
  }

  ghost predicate AllSatisfied(cs: seq<Decl>, input: Input)
    requires Registered(cs) && Finishes(cs)
  {
    forall i: nat :: i < |cs| ==> Satisfied(cs, input, i)
  }

  /** i is j, or is nested somewhere beneath j. */
  ghost predicate Beneath(cs: seq<Decl>, i: nat, j: nat) {
    Reaches(References(cs), j, i)
  }
}
