/** What the emitted keywords do to a legal call: when they never refuse one, and when they
    refuse one that the evaluation accepts. */
module ConstraintSoundness {
  import opened Graphs
  import opened Constraints
  import opened ConstraintProjection

  // --- When an at-least-one's anyOf never refuses a legal call -----------------------------

  /** Every constraint at or beneath i is an all-or-none. */
  ghost predicate OnlyGroups(cs: seq<Decl>, i: nat) {
    forall j: nat :: Beneath(cs, j, i) ==> j < |cs| && cs[j].AllOrNone?
  }

  lemma OnlyGroupsNested(cs: seq<Decl>, i: nat, m: Member)
    requires i < |cs| && OnlyGroups(cs, i) && m in cs[i].Resolved() && m.Nested?
    ensures m.idx < |cs| && cs[m.idx].AllOrNone? && OnlyGroups(cs, m.idx)
  {
    var g := References(cs);
    assert m.idx in g[i];
    forall j: nat | Beneath(cs, j, m.idx) ensures Beneath(cs, j, i) {
      ReachesStep<nat>(g, i, m.idx, j);
    }
    WalkStart<nat>(g, m.idx);
    assert Beneath(cs, m.idx, m.idx);
  }

  /** In a legal call an engaged group of groups has every leaf's key. */
  lemma {:induction false} GroupKeys(cs: seq<Decl>, input: Input, keys: set<string>, i: nat, k: nat)
    requires Registered(cs) && Finishes(cs) && i < |cs| && cs[i].AllOrNone? && k <= |cs[i].members|
    requires KeysMatch(cs, input, keys) && AllSatisfied(cs, input) && OnlyGroups(cs, i)
    requires Engaged(cs, input, i)
    ensures BranchAccepts(LeavesFrom(cs, i, k), keys)
    decreases Rank(cs, i), |cs[i].members| - k
  {
    if k < |cs[i].members| {
      GroupKeys(cs, input, keys, i, k + 1);
      GroupMember(cs, input, i, k);
      var m := cs[i].members[k];
      if m.Nested? {
        OnlyGroupsNested(cs, i, m);
        GroupKeys(cs, input, keys, m.idx, 0);
      } else {
        LeafKey(cs, input, keys, i, k);
      }
      hide BranchAccepts, KeysMatch, AllSatisfied, OnlyGroups, Engaged;
      LeavesStep(cs, keys, i, k);
    }
  }

  /** In a legal call every member of an engaged group is engaged. */
  lemma GroupMember(cs: seq<Decl>, input: Input, i: nat, k: nat)
    requires Registered(cs) && Finishes(cs) && i < |cs| && cs[i].AllOrNone? && k < |cs[i].members|
    requires AllSatisfied(cs, input) && Engaged(cs, input, i)
    ensures EngagedAt(cs, input, i, k) && cs[i].members[k] in cs[i].Resolved()
    ensures var m := cs[i].members[k]; m.Nested? ==>
      m.idx < |cs| && cs[m.idx].CoOccurrence() && Rank(cs, m.idx) < Rank(cs, i) && Engaged(cs, input, m.idx)
  {
    assert Satisfied(cs, input, i);
    var m := cs[i].members[k];
    assert m in cs[i].members;
    if m.Nested? { NestedRanksBelow(cs, i, m); }
  }

  lemma LeavesStep(cs: seq<Decl>, keys: set<string>, i: nat, k: nat)
    requires Registered(cs) && Finishes(cs) && i < |cs| && cs[i].CoOccurrence() && k < |cs[i].members|
    requires cs[i].members[k].Nested? ==> cs[i].members[k].idx < |cs| && cs[cs[i].members[k].idx].CoOccurrence()
    requires BranchAccepts(LeavesFrom(cs, i, k + 1), keys)
    requires if cs[i].members[k].Nested? then BranchAccepts(LeavesFrom(cs, cs[i].members[k].idx, 0), keys)
      else PropertyName(cs[i].members[k]) in keys
    ensures BranchAccepts(LeavesFrom(cs, i, k), keys)
  {
    assert cs[i].members[k] in cs[i].members;
  }

  /** Position k of i nests an at-least-one, or a group. */
  predicate NestsAny(cs: seq<Decl>, i: nat, k: nat) {
    && i < |cs| && cs[i].CoOccurrence() && k < |cs[i].members| && cs[i].members[k].Nested?
    && cs[i].members[k].idx < |cs| && cs[cs[i].members[k].idx].AtLeastOne?
  }

  predicate NestsGroup(cs: seq<Decl>, i: nat, k: nat) {
    && i < |cs| && cs[i].CoOccurrence() && k < |cs[i].members| && cs[i].members[k].Nested?
    && cs[i].members[k].idx < |cs| && cs[cs[i].members[k].idx].AllOrNone?
  }

  /** Whatever engages i, one of its branches has all its keys: a nested at-least-one is always
      engaged and lends its branches, and without one, groups of groups alone are all there or not. */
  ghost predicate Delivers(cs: seq<Decl>, i: nat)
    requires Registered(cs) && Finishes(cs) && i < |cs| && cs[i].AtLeastOne?
    decreases Rank(cs, i)
  {
    if exists k: nat :: NestsAny(cs, i, k) then
      exists k: nat :: NestsAny(cs, i, k) && (NestedBelow(cs, i, k); Delivers(cs, cs[i].members[k].idx))
    else forall k: nat :: NestsGroup(cs, i, k) ==> OnlyGroups(cs, cs[i].members[k].idx)
  }

  lemma NestedBelow(cs: seq<Decl>, i: nat, k: nat)
    requires Registered(cs) && Finishes(cs) && i < |cs| && cs[i].CoOccurrence()
    requires k < |cs[i].members| && cs[i].members[k].Nested?
    ensures var j := cs[i].members[k].idx; j < |cs| && cs[j].CoOccurrence() && Rank(cs, j) < Rank(cs, i)
    ensures cs[i].members[k] in cs[i].Resolved()
  {
    NestedRanksBelow(cs, i, cs[i].members[k]);
  }

  /** A member's accepted branch is accepted by its parent. */
  lemma MemberAccepted(cs: seq<Decl>, input: Input, keys: set<string>, i: nat, k: nat, n: nat)
    requires Registered(cs) && Finishes(cs) && i < |cs| && cs[i].CoOccurrence() && n <= k < |cs[i].members|
    requires cs[i].members[k].Nested? ==> cs[i].members[k].idx < |cs| && cs[cs[i].members[k].idx].CoOccurrence()
    requires AnyOfAccepts(MemberBranches(cs, cs[i].members[k]), keys)
    ensures AnyOfAccepts(BranchesFrom(cs, i, n), keys)
    decreases k - n
  {
    BranchesStep(cs, input, keys, i, n);
    if n < k { MemberAccepted(cs, input, keys, i, k, n + 1); }
  }

  /** In a legal call, one of the branches of a delivering at-least-one accepts. */
  lemma {:induction false} DeliveredSound(cs: seq<Decl>, input: Input, keys: set<string>, i: nat)
    requires Registered(cs) && Finishes(cs) && i < |cs| && cs[i].AtLeastOne? && Delivers(cs, i)
    requires KeysMatch(cs, input, keys) && AllSatisfied(cs, input)
    ensures AnyOfAccepts(BranchesFrom(cs, i, 0), keys)
    decreases Rank(cs, i)
  {
    if exists k: nat :: NestsAny(cs, i, k) {
      var k: nat :| NestsAny(cs, i, k) && (NestedBelow(cs, i, k); Delivers(cs, cs[i].members[k].idx));
      NestedBelow(cs, i, k);
      DeliveredSound(cs, input, keys, cs[i].members[k].idx);
      MemberAccepted(cs, input, keys, i, k, 0);
    } else {
      assert Satisfied(cs, input, i);
      EngagedMeans(cs, input, i);
      var k: nat :| k < |cs[i].members| && EngagedAt(cs, input, i, k);
      EngagedMember(cs, input, keys, i, k);
      MemberAccepted(cs, input, keys, i, k, 0);
    }
  }

  /** An engaged leaf or group of groups has its branch. */
  lemma EngagedMember(cs: seq<Decl>, input: Input, keys: set<string>, i: nat, k: nat)
    requires Registered(cs) && Finishes(cs) && i < |cs| && cs[i].AtLeastOne? && k < |cs[i].members|
    requires KeysMatch(cs, input, keys) && AllSatisfied(cs, input) && EngagedAt(cs, input, i, k)
    requires !NestsAny(cs, i, k) && (NestsGroup(cs, i, k) ==> OnlyGroups(cs, cs[i].members[k].idx))
    ensures cs[i].members[k].Nested? ==> cs[i].members[k].idx < |cs| && cs[cs[i].members[k].idx].CoOccurrence()
    ensures AnyOfAccepts(MemberBranches(cs, cs[i].members[k]), keys)
  {
    var m := cs[i].members[k];
    if m.Nested? {
      NestedBelow(cs, i, k);
      GroupKeys(cs, input, keys, m.idx, 0);
      AnyOfOne(LeavesFrom(cs, m.idx, 0), keys);
    } else {
      LeafKey(cs, input, keys, i, k);
      AnyOfOne([PropertyName(m)], keys);
    }
  }

  ghost predicate AllDeliver(cs: seq<Decl>)
    requires Registered(cs) && Finishes(cs)
  {
    forall i: nat :: i < |cs| && cs[i].AtLeastOne? ==> Delivers(cs, i)
  }

  /** Whatever the verdicts, the keywords never refuse a call the evaluation accepts when every
      at-least-one delivers. */
  lemma SoundProjection(cs: seq<Decl>, input: Input, keys: set<string>)
    requires Registered(cs) && Finishes(cs) && KeysMatch(cs, input, keys) && AllSatisfied(cs, input) && AllDeliver(cs)
    ensures KeyRules(cs, |cs|, keys)
  {
    forall i: nat | i < |cs| ensures KeyRule(cs, i, keys) {
      if cs[i].AtLeastOne? {
        DeliveredSound(cs, input, keys, i);
      } else {
        OtherRuleSound(cs, input, keys, i);
      }
    }
  }

  lemma OtherRuleSound(cs: seq<Decl>, input: Input, keys: set<string>, i: nat)
    requires Registered(cs) && Finishes(cs) && i < |cs| && !cs[i].AtLeastOne?
    requires KeysMatch(cs, input, keys) && AllSatisfied(cs, input)
    ensures KeyRule(cs, i, keys)
  {
    assert Satisfied(cs, input, i);
    if cs[i].AllOrNone? && Verdict(cs, i) == Exact { AllOrNoneExact(cs, input, keys, i); }
  }

  // --- A simple nesting that always delivers ---------------------------------------------------

  /** An at-least-one beneath an all-or-none beneath an at-least-one. */
  ghost predicate Sandwiched(cs: seq<Decl>, top: nat, group: nat, inner: nat) {
    && top < |cs| && group < |cs| && inner < |cs|
    && cs[top].AtLeastOne? && cs[group].AllOrNone? && cs[inner].AtLeastOne?
    && Beneath(cs, group, top) && Beneath(cs, inner, group)
  }

  /** Nesting never leaves the declared co-occurrence constraints. */
  lemma ReachedIsDeclared(cs: seq<Decl>, i: nat, j: nat)
    requires Registered(cs) && i < |cs| && cs[i].CoOccurrence() && Beneath(cs, j, i)
    ensures j < |cs| && cs[j].CoOccurrence()
  {
    var g := References(cs);
    var p: seq<nat> :| WalkFromTo(g, p, i, j);
    if |p| > 1 {
      assert p[|p| - 2] in g && p[|p| - 1] in g[p[|p| - 2]];
      assert Nested(j) in cs[p[|p| - 2]].Resolved();
    }
  }

  lemma UnderTop(cs: seq<Decl>, i: nat, k: nat)
    requires Registered(cs) && Finishes(cs) && i < |cs| && cs[i].AtLeastOne? && NestsGroup(cs, i, k)
    requires forall t: nat, n: nat, b: nat :: !Sandwiched(cs, t, n, b)
    ensures OnlyGroups(cs, cs[i].members[k].idx)
  {
    var g, m := References(cs), cs[i].members[k];
    assert m in cs[i].Resolved() && m.idx in g[i];
    WalkStart<nat>(g, i);
    ReachesExtend<nat>(g, i, i, m.idx);
    forall j: nat | Beneath(cs, j, m.idx) ensures j < |cs| && cs[j].AllOrNone? {
      ReachedIsDeclared(cs, m.idx, j);
      assert !Sandwiched(cs, i, m.idx, j);
    }
  }

  lemma {:induction false} UnsandwichedDelivers(cs: seq<Decl>, i: nat)
    requires Registered(cs) && Finishes(cs) && i < |cs| && cs[i].AtLeastOne?
    requires forall t: nat, n: nat, b: nat :: !Sandwiched(cs, t, n, b)
    ensures Delivers(cs, i)
    decreases Rank(cs, i)
  {
    if k: nat :| NestsAny(cs, i, k) {
      NestedBelow(cs, i, k);
      UnsandwichedDelivers(cs, cs[i].members[k].idx);
    } else {
      forall k: nat | NestsGroup(cs, i, k) ensures OnlyGroups(cs, cs[i].members[k].idx) {
        UnderTop(cs, i, k);
      }
    }
  }
}
