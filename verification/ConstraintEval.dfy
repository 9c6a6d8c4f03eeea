/** evaluateConstraints: the memoised post-order evaluation of one invocation. */
module ConstraintEval {
  import opened Names
  import opened Graphs
  import opened Constraints

  /** The refusal: which constraint failed and, for at-least-one, whose decline it names. */
  datatype Violation =
    | AtLeastOneRequired(idx: nat, decline: Option<string>)
    | TogetherRequired(idx: nat)
    | FlagRequiresFlag(idx: nat)

  /** The constraint whose sentence a walk of i reports: the first violated one with
      children before parents and siblings in declaration order. */
  ghost function FirstViolated(cs: seq<Decl>, input: Input, i: nat): (v: Option<nat>)
    requires Registered(cs) && Finishes(cs) && i < |cs| && cs[i].CoOccurrence()
    decreases Rank(cs, i), |cs[i].members| + 1
  {
    var below := FirstViolatedMember(cs, input, i, 0);
    if below.Some? then below
    else if Satisfied(cs, input, i) then None
    else Some(i)
  }

  /** The same over the members of i from position k on. */
  ghost function FirstViolatedMember(cs: seq<Decl>, input: Input, i: nat, k: nat): (v: Option<nat>)
    requires Registered(cs) && Finishes(cs) && i < |cs| && cs[i].CoOccurrence() && k <= |cs[i].members|
    decreases Rank(cs, i), |cs[i].members| - k
  {
    if k == |cs[i].members| then None
    else
      var m := cs[i].members[k];
      assert m in cs[i].members;
      if m.Nested? then
        NestedRanksBelow(cs, i, m);
        var v := FirstViolated(cs, input, m.idx);
        if v.Some? then v else FirstViolatedMember(cs, input, i, k + 1)
      else FirstViolatedMember(cs, input, i, k + 1)
  }

  /** The first bool member of the list itself that was provided as false. */
  ghost predicate Declines(input: Input, m: Member) {
    !m.Nested? && m.when == True && input.MemberValue(m) == Some(BoolValue(false))
  }

  ghost predicate FirstDecline(input: Input, members: seq<Member>, decline: Option<string>) {
    if decline.None? then forall m :: m in members ==> !Declines(input, m)
    else exists k :: FirstDeclineAt(input, members, k) && members[k].name == decline.value
  }

  ghost predicate FirstDeclineAt(input: Input, members: seq<Member>, k: int) {
    && 0 <= k < |members| && Declines(input, members[k])
    && forall j :: 0 <= j < k ==> !Declines(input, members[j])
  }

  method DeclineClause(input: Input, members: seq<Member>) returns (decline: Option<string>)
    ensures FirstDecline(input, members, decline)
  {
    for k := 0 to |members|
      invariant forall j :: 0 <= j < k ==> !Declines(input, members[j])
    {
      if !members[k].Nested? && members[k].when == True {
        var v := input.MemberValue(members[k]);
        if v.Some? && v.value == BoolValue(false) {
          assert FirstDeclineAt(input, members, k);
          return Some(members[k].name);
        }
      }
    }
    return None;
  }

  /** The report v is about the violated constraint, in its own family's sentence. */
  ghost predicate Tells(cs: seq<Decl>, input: Input, v: Violation, violated: Option<nat>) {
    violated.Some? && violated.value < |cs| &&
    match cs[violated.value]
    case AtLeastOne(_, ms) =>
      v.AtLeastOneRequired? && v.idx == violated.value && FirstDecline(input, ms, v.decline)
    case AllOrNone(_, _) => v == TogetherRequired(violated.value)
    case _ => v == FlagRequiresFlag(violated.value)
  }

  ghost predicate Settled(cs: seq<Decl>, input: Input, j: nat)
    requires Registered(cs) && Finishes(cs)
  {
    j < |cs| && cs[j].CoOccurrence() && FirstViolated(cs, input, j) == None
  }

  class Evaluation {
    const cs: seq<Decl>
    const input: Input
    var engagedMemo: map<nat, bool>

    /** Every memo entry is the plain meaning, of a constraint with nothing violated
        at or beneath it. */
    ghost predicate Valid()
      reads this
    {
      && Registered(cs) && Finishes(cs)
      && forall j :: j in engagedMemo ==> Settled(cs, input, j) && engagedMemo[j] == Engaged(cs, input, j)
    }

    constructor (cs: seq<Decl>, input: Input)
      requires Registered(cs) && Finishes(cs)
      ensures Valid() && this.cs == cs && this.input == input && engagedMemo == map[]
    {
      this.cs, this.input, this.engagedMemo := cs, input, map[];
    }

    /** engaged. A nested member has always been walked, so the recomputing fallback
        of the original is never taken. */
    method MemberIsEngaged(m: Member) returns (b: bool)
      requires Valid() && (m.Nested? ==> m.idx in engagedMemo)
      ensures b == MemberEngaged(cs, input, m)
    {
      if m.Nested? {
        if m.idx in engagedMemo {
          return engagedMemo[m.idx];
        }
        assert false; // the defensive branch
      } else {
        return input.LeafEngaged(m);
      }
    }

    /** One member's turn in check: walks it first when it is nested and not yet walked. */
    method CheckMember(i: nat, k: nat) returns (v: Option<Violation>, engaged: bool)
      requires Valid() && i < |cs| && cs[i].CoOccurrence() && k < |cs[i].members|
      modifies this`engagedMemo
      ensures v.None? ==> Valid() && engaged == EngagedAt(cs, input, i, k)
      ensures v.None? ==> FirstViolatedMember(cs, input, i, k) == FirstViolatedMember(cs, input, i, k + 1)
      ensures v.Some? ==> Tells(cs, input, v.value, FirstViolatedMember(cs, input, i, k))
      decreases Rank(cs, i), 0
    {
      var m := cs[i].members[k];
      assert m in cs[i].members;
      engaged := false;
      if m.Nested? {
        NestedRanksBelow(cs, i, m);
        if m.idx !in engagedMemo {
          v := Check(m.idx);
          if v.Some? { return; }
        }
        assert Settled(cs, input, m.idx);
      }
      engaged := MemberIsEngaged(m);
      return None, engaged;
    }

    /** The members loop of check, counting the engaged ones. */
    method CheckMembers(i: nat) returns (v: Option<Violation>, engagedCount: nat)
      requires Valid() && i < |cs| && cs[i].CoOccurrence()
      modifies this`engagedMemo
      ensures v.None? ==> Valid() && engagedCount == EngagedAmong(cs, input, i, |cs[i].members|)
      ensures v.None? ==> FirstViolatedMember(cs, input, i, 0).None?
      ensures v.Some? ==> Tells(cs, input, v.value, FirstViolatedMember(cs, input, i, 0))
      decreases Rank(cs, i), 1
    {
      hide Tells, EngagedAmong, FirstViolated, FirstViolatedMember, EngagedAt;
      v, engagedCount := None, 0;
      NoneYet(cs, input, i);
      for k := 0 to |cs[i].members|
        invariant Valid()
        invariant FirstViolatedMember(cs, input, i, 0) == FirstViolatedMember(cs, input, i, k)
        invariant engagedCount == EngagedAmong(cs, input, i, k)
      {
        var engaged;
        v, engaged := CheckMember(i, k);
        if v.Some? { return; }
        CountOneMore(cs, input, i, k);
        if engaged { engagedCount := engagedCount + 1; }
      }
      v := None;
    }

    /** check: evaluates one co-occurrence constraint's subtree, post-order. */
    method Check(i: nat) returns (v: Option<Violation>)
      requires Valid() && i < |cs| && cs[i].CoOccurrence()
      modifies this`engagedMemo
      ensures v.None? <==> FirstViolated(cs, input, i).None?
      ensures v.None? ==> Valid() && i in engagedMemo
      ensures v.Some? ==> Tells(cs, input, v.value, FirstViolated(cs, input, i))
      decreases Rank(cs, i), 2
    {
      var engagedCount;
      v, engagedCount := CheckMembers(i);
      if v.Some? { return; }
      CountMeaning(cs, input, i);
      engagedMemo := engagedMemo[i := engagedCount > 0];
      if cs[i].AtLeastOne? {
        if engagedCount == 0 {
          var decline := DeclineClause(input, cs[i].members);
          return Some(AtLeastOneRequired(i, decline));
        }
        return None;
      }
      if 0 < engagedCount < |cs[i].members| {
        return Some(TogetherRequired(i));
      }
      return None;
    }
  }

  ghost function CountTrue(flags: seq<bool>): (n: nat)
    ensures n <= |flags|
  {
    if flags == [] then 0
    else CountTrue(flags[..|flags| - 1]) + if flags[|flags| - 1] then 1 else 0
  }

  lemma {:induction false} CountBounds(flags: seq<bool>)
    ensures CountTrue(flags) == 0 <==> true !in flags
    ensures CountTrue(flags) == |flags| <==> false !in flags
  {
    if flags != [] {
      CountBounds(flags[..|flags| - 1]);
      assert flags == flags[..|flags| - 1] + [flags[|flags| - 1]];
    }
  }

  ghost function MemberFlags(cs: seq<Decl>, input: Input, i: nat): (r: seq<bool>)
    requires Registered(cs) && Finishes(cs) && i < |cs| && cs[i].CoOccurrence()
  {
    seq(|cs[i].members|, k requires 0 <= k < |cs[i].members| => EngagedAt(cs, input, i, k))
  }

  /** engagedCount after the first k members. */
  ghost function EngagedAmong(cs: seq<Decl>, input: Input, i: nat, k: nat): (n: nat)
    requires Registered(cs) && Finishes(cs) && i < |cs| && cs[i].CoOccurrence() && k <= |cs[i].members|
  {
    CountTrue(MemberFlags(cs, input, i)[..k])
  }

  lemma NoneYet(cs: seq<Decl>, input: Input, i: nat)
    requires Registered(cs) && Finishes(cs) && i < |cs| && cs[i].CoOccurrence()
    ensures EngagedAmong(cs, input, i, 0) == 0 && FirstViolatedMember(cs, input, i, |cs[i].members|) == None
  {
  }

  lemma CountOneMore(cs: seq<Decl>, input: Input, i: nat, k: nat)
    requires Registered(cs) && Finishes(cs) && i < |cs| && cs[i].CoOccurrence() && k < |cs[i].members|
    ensures EngagedAmong(cs, input, i, k + 1) ==
      EngagedAmong(cs, input, i, k) + if EngagedAt(cs, input, i, k) then 1 else 0
  {
    var flags := MemberFlags(cs, input, i);
    assert flags[..k + 1][..k] == flags[..k];
  }

  /** The two verdicts read off the count are the two families' meanings. */
  lemma CountMeaning(cs: seq<Decl>, input: Input, i: nat)
    requires Registered(cs) && Finishes(cs) && i < |cs| && cs[i].CoOccurrence()
    ensures var n := EngagedAmong(cs, input, i, |cs[i].members|);
      && (n > 0 <==> Engaged(cs, input, i))
      && (Satisfied(cs, input, i) <==> if cs[i].AtLeastOne? then n > 0 else n == 0 || n == |cs[i].members|)
  {
    var flags := MemberFlags(cs, input, i);
    assert flags[..|cs[i].members|] == flags;
    CountBounds(flags);
    EngagedMeans(cs, input, i);
    assert true in flags <==> exists k: nat :: k < |flags| && EngagedAt(cs, input, i, k) by {
      if exists k: nat :: k < |flags| && EngagedAt(cs, input, i, k) {
        var k: nat :| k < |flags| && EngagedAt(cs, input, i, k);
        assert flags[k];
      }
    }
    assert false !in flags <==> forall k: nat :: k < |flags| ==> EngagedAt(cs, input, i, k) by {
      if k: nat :| k < |flags| && !EngagedAt(cs, input, i, k) {
        assert !flags[k];
      }
    }
  }

  // --- The whole set -------------------------------------------------------------

  /** The first refusal in declaration order from k on, rules included. */
  ghost function FirstRefused(cs: seq<Decl>, input: Input, k: nat): Option<nat>
    requires Registered(cs) && Finishes(cs) && k <= |cs|
    decreases |cs| - k
  {
    if k == |cs| then None
    else
      var v := if cs[k].CoOccurrence() then FirstViolated(cs, input, k)
               else if Satisfied(cs, input, k) then None else Some(k);
      if v.Some? then v else FirstRefused(cs, input, k + 1)
  }

  /** evaluateConstraints: the first violation's report, or nothing. */
  method EvaluateConstraints(cs: seq<Decl>, input: Input) returns (v: Option<Violation>)
    requires Registered(cs) && Finishes(cs)
    ensures v.None? <==> AllSatisfied(cs, input)
    ensures v.None? <==> FirstRefused(cs, input, 0).None?
    ensures v.Some? ==> Tells(cs, input, v.value, FirstRefused(cs, input, 0))
  {
    RefusedMeans(cs, input, 0);
    var ev := new Evaluation(cs, input);
    for i := 0 to |cs|
      invariant ev.Valid() && ev.cs == cs && ev.input == input && fresh(ev)
      invariant FirstRefused(cs, input, 0) == FirstRefused(cs, input, i)
    {
      if cs[i].CoOccurrence() {
        v := ev.Check(i);
        if v.Some? { return; }
      } else if cs[i].Requires? {
        if input.PresentForDeps(cs[i].flag) && !input.PresentForDeps(cs[i].dependsOn) {
          return Some(FlagRequiresFlag(i));
        }
      }
    }
    return None;
  }

  /** A walk of i is silent only when i and everything nested beneath it is satisfied;
      otherwise it names a violated constraint with nothing violated beneath it. */
  lemma {:induction false} ViolatedMeans(cs: seq<Decl>, input: Input, i: nat)
    requires Registered(cs) && Finishes(cs) && i < |cs| && cs[i].CoOccurrence()
    ensures FirstViolated(cs, input, i).None? ==> SatisfiedFrom(cs, input, i)
    ensures FirstViolated(cs, input, i).Some? ==> Innermost(cs, input, FirstViolated(cs, input, i).value)
    decreases Rank(cs, i), |cs[i].members| + 1
  {
    ViolatedMemberMeans(cs, input, i, 0);
    if FirstViolatedMember(cs, input, i, 0).None? && Satisfied(cs, input, i) {
      SatisfiedFromRoot(cs, input, i);
    }
  }

  /** Every constraint nested strictly beneath i is satisfied, and i is not. */
  ghost predicate Innermost(cs: seq<Decl>, input: Input, i: nat)
    requires Registered(cs) && Finishes(cs)
  {
    && i < |cs| && !Satisfied(cs, input, i)
    && forall m :: m in cs[i].Resolved() && m.Nested? ==> SatisfiedFrom(cs, input, m.idx)
  }

  /** Every constraint reachable from i by nesting, i included, is satisfied. */
  ghost predicate SatisfiedFrom(cs: seq<Decl>, input: Input, i: nat)
    requires Registered(cs) && Finishes(cs)
  {
    forall j: nat :: Beneath(cs, j, i) ==> j < |cs| && Satisfied(cs, input, j)
  }

  lemma SatisfiedFromRoot(cs: seq<Decl>, input: Input, i: nat)
    requires Registered(cs) && Finishes(cs) && i < |cs| && Satisfied(cs, input, i)
    requires forall m :: m in cs[i].Resolved() && m.Nested? ==> SatisfiedFrom(cs, input, m.idx)
    ensures SatisfiedFrom(cs, input, i)
  {
    var g := References(cs);
    forall j: nat | Beneath(cs, j, i) ensures j < |cs| && Satisfied(cs, input, j) {
      var p: seq<nat> :| WalkFromTo(g, p, i, j);
      if |p| > 1 {
        assert Nested(p[1]) in cs[i].Resolved();
        WalkTail(g, p);
        assert Beneath(cs, j, p[1]);
      }
    }
  }

  lemma {:induction false} ViolatedMemberMeans(cs: seq<Decl>, input: Input, i: nat, k: nat)
    requires Registered(cs) && Finishes(cs) && i < |cs| && cs[i].CoOccurrence() && k <= |cs[i].members|
    ensures FirstViolatedMember(cs, input, i, k).None? ==>
      forall m :: m in cs[i].members[k..] && m.Nested? ==> SatisfiedFrom(cs, input, m.idx)
    ensures FirstViolatedMember(cs, input, i, k).Some? ==>
      Innermost(cs, input, FirstViolatedMember(cs, input, i, k).value)
    decreases Rank(cs, i), |cs[i].members| - k
  {
    var ms := cs[i].members;
    if k < |ms| {
      assert ms[k] in ms && ms[k..] == [ms[k]] + ms[k + 1..];
      if ms[k].Nested? {
        NestedRanksBelow(cs, i, ms[k]);
        ViolatedMeans(cs, input, ms[k].idx);
      }
      ViolatedMemberMeans(cs, input, i, k + 1);
    }
  }

  /** Silence means everything from k on is satisfied; a refusal names a violated
      constraint with everything nested beneath it satisfied. */
  lemma {:induction false} RefusedMeans(cs: seq<Decl>, input: Input, k: nat)
    requires Registered(cs) && Finishes(cs) && k <= |cs|
    ensures FirstRefused(cs, input, k).None? ==> forall i: nat :: k <= i < |cs| ==> Satisfied(cs, input, i)
    ensures FirstRefused(cs, input, k).Some? ==> Innermost(cs, input, FirstRefused(cs, input, k).value)
    decreases |cs| - k
  {
    if k < |cs| {
      RefusedMeans(cs, input, k + 1);
      if cs[k].CoOccurrence() && FirstViolated(cs, input, k).Some? {
        ViolatedMeans(cs, input, k);
      }
    }
  }
}
