/** Legal calls that the emitted keywords refuse: exactly which sets have one, and what an
    implication does to the keys. */
module ConstraintRefusals {
  import opened Names
  import opened Graphs
  import opened Constraints
  import opened ConstraintProjection
  import opened ConstraintSoundness

  // --- Sets in which every constraint and every key has its own place -----------------------

  predicate LeafAt(cs: seq<Decl>, i: nat, k: nat) {
    i < |cs| && cs[i].CoOccurrence() && k < |cs[i].members| && !cs[i].members[k].Nested?
  }

  predicate NestsAt(cs: seq<Decl>, i: nat, k: nat) {
    NestsAny(cs, i, k) || NestsGroup(cs, i, k)
  }

  /** A constraint is nested in one place at most. */
  ghost predicate Forest(cs: seq<Decl>) {
    forall i: nat, k: nat, j: nat, l: nat ::
      NestsAt(cs, i, k) && NestsAt(cs, j, l) && cs[i].members[k].idx == cs[j].members[l].idx ==> i == j && k == l
  }

  /** No key stands for two leaves. */
  ghost predicate DistinctKeys(cs: seq<Decl>) {
    forall i: nat, k: nat, j: nat, l: nat ::
      LeafAt(cs, i, k) && LeafAt(cs, j, l) && PropertyName(cs[i].members[k]) == PropertyName(cs[j].members[l]) ==>
        i == j && k == l
  }

  /** Co-occurrence constraints in a forest, whatever their elections. */
  ghost predicate PlainForest(cs: seq<Decl>) {
    && (forall i: nat :: i < |cs| ==> cs[i].CoOccurrence())
    && Forest(cs) && DistinctKeys(cs)
  }

  /** What a call is made of: which flags are selectors, and what each flag or argument is given. */
  datatype Door = Door(selectors: set<string>, values: string -> Value)

  /** The value engages the member. A selector is elected by presence: its value is a record. */
  predicate Suits(door: Door, m: Member)
    requires !m.Nested?
  {
    match m.when
    case Present => true
    case True => !(m.FlagMember? && m.name in door.selectors) && door.values(m.name) == BoolValue(true)
    case NonEmpty => !(m.FlagMember? && m.name in door.selectors) && IsNonEmptyValue(door.values(m.name))
  }

  ghost predicate AllSuit(cs: seq<Decl>, door: Door) {
    forall i: nat, k: nat :: LeafAt(cs, i, k) ==> Suits(door, cs[i].members[k])
  }

  // --- A sparse legal call -----------------------------------------------------------------

  /** A nested constraint that every legal call engages: an at-least-one, or a group above one. */
  ghost predicate Forced(cs: seq<Decl>, i: nat, k: nat) {
    NestsAny(cs, i, k) || (NestsGroup(cs, i, k) && !OnlyGroups(cs, cs[i].members[k].idx))
  }

  ghost predicate Quiet(cs: seq<Decl>, i: nat) {
    forall k: nat :: !Forced(cs, i, k)
  }

  /** A group is engaged when every legal call engages it, or its parent takes it. */
  ghost predicate Wanted(cs: seq<Decl>, i: nat)
    requires Registered(cs) && Finishes(cs) && i < |cs|
    decreases |SomeOrder(cs)| - Rank(cs, i), 0
  {
    !Quiet(cs, i) ||
      exists p: nat, q: nat :: NestsGroup(cs, p, q) && cs[p].members[q].idx == i &&
        (NestedBelow(cs, p, q); Chosen(cs, p, q))
  }

  /** An at-least-one that nothing beneath it engages takes its first member; an engaged group
      takes them all. */
  ghost predicate Chosen(cs: seq<Decl>, p: nat, q: nat)
    requires Registered(cs) && Finishes(cs) && p < |cs|
    decreases |SomeOrder(cs)| - Rank(cs, p), 1
  {
    if cs[p].AllOrNone? then Wanted(cs, p) else Quiet(cs, p) && q == 0
  }

  ghost function ChosenFlags(cs: seq<Decl>): set<string>
    requires Registered(cs) && Finishes(cs)
  {
    set i, k | 0 <= i < |cs| && 0 <= k < |cs[i].Resolved()| && LeafAt(cs, i, k) &&
      cs[i].members[k].FlagMember? && Chosen(cs, i, k)
      :: cs[i].members[k].name
  }

  ghost function ChosenArgs(cs: seq<Decl>): set<string>
    requires Registered(cs) && Finishes(cs)
  {
    set i, k | 0 <= i < |cs| && 0 <= k < |cs[i].Resolved()| && LeafAt(cs, i, k) &&
      cs[i].members[k].ArgMember? && Chosen(cs, i, k)
      :: cs[i].members[k].name
  }

  ghost function CallKeys(cs: seq<Decl>): set<string>
    requires Registered(cs) && Finishes(cs)
  {
    set i, k | 0 <= i < |cs| && 0 <= k < |cs[i].Resolved()| && LeafAt(cs, i, k) && Chosen(cs, i, k)
      :: PropertyName(cs[i].members[k])
  }

  /** The call that provides the chosen leaves. */
  ghost function Call(cs: seq<Decl>, door: Door): Input
    requires Registered(cs) && Finishes(cs)
  {
    Input(map n | n in ChosenFlags(cs) :: Entry(door.values(n), FromCLI), map n | n in ChosenArgs(cs) :: door.values(n),
          door.selectors, ChosenFlags(cs))
  }

  lemma SamePlace(cs: seq<Decl>, i: nat, k: nat, j: nat, l: nat)
    requires DistinctKeys(cs) && LeafAt(cs, i, k) && LeafAt(cs, j, l)
    requires PropertyName(cs[i].members[k]) == PropertyName(cs[j].members[l])
    ensures i == j && k == l
  {
  }

  lemma KeyChosen(cs: seq<Decl>, i: nat, k: nat)
    requires Registered(cs) && Finishes(cs) && DistinctKeys(cs) && LeafAt(cs, i, k)
    ensures PropertyName(cs[i].members[k]) in CallKeys(cs) <==> Chosen(cs, i, k)
  {
    hide Chosen, DistinctKeys, PropertyName;
    if PropertyName(cs[i].members[k]) in CallKeys(cs) {
      var j, l :| 0 <= j < |cs| && 0 <= l < |cs[j].Resolved()| && LeafAt(cs, j, l) && Chosen(cs, j, l)
        && PropertyName(cs[j].members[l]) == PropertyName(cs[i].members[k]);
      SamePlace(cs, i, k, j, l);
    }
  }

  lemma FlagChosen(cs: seq<Decl>, i: nat, k: nat)
    requires Registered(cs) && Finishes(cs) && DistinctKeys(cs) && LeafAt(cs, i, k) && cs[i].members[k].FlagMember?
    ensures cs[i].members[k].name in ChosenFlags(cs) <==> Chosen(cs, i, k)
  {
    hide Chosen, DistinctKeys;
    if cs[i].members[k].name in ChosenFlags(cs) {
      var j, l :| 0 <= j < |cs| && 0 <= l < |cs[j].Resolved()| && LeafAt(cs, j, l) && cs[j].members[l].FlagMember?
        && Chosen(cs, j, l) && cs[j].members[l].name == cs[i].members[k].name;
      SamePlace(cs, i, k, j, l);
    }
  }

  lemma ArgChosen(cs: seq<Decl>, i: nat, k: nat)
    requires Registered(cs) && Finishes(cs) && DistinctKeys(cs) && LeafAt(cs, i, k) && cs[i].members[k].ArgMember?
    ensures cs[i].members[k].name in ChosenArgs(cs) <==> Chosen(cs, i, k)
  {
    hide Chosen, DistinctKeys;
    if cs[i].members[k].name in ChosenArgs(cs) {
      var j, l :| 0 <= j < |cs| && 0 <= l < |cs[j].Resolved()| && LeafAt(cs, j, l) && cs[j].members[l].ArgMember?
        && Chosen(cs, j, l) && cs[j].members[l].name == cs[i].members[k].name;
      SamePlace(cs, i, k, j, l);
    }
  }

  lemma LeafProvided(cs: seq<Decl>, door: Door, i: nat, k: nat)
    requires Registered(cs) && Finishes(cs) && PlainForest(cs) && LeafAt(cs, i, k)
    ensures Call(cs, door).MemberValue(cs[i].members[k]).Some? <==> Chosen(cs, i, k)
    ensures Suits(door, cs[i].members[k]) ==> (Call(cs, door).LeafEngaged(cs[i].members[k]) <==> Chosen(cs, i, k))
    ensures PropertyName(cs[i].members[k]) in CallKeys(cs) <==> Chosen(cs, i, k)
  {
    KeyChosen(cs, i, k);
    if cs[i].members[k].FlagMember? { FlagProvided(cs, door, i, k); } else { ArgProvided(cs, door, i, k); }
  }

  lemma FlagProvided(cs: seq<Decl>, door: Door, i: nat, k: nat)
    requires Registered(cs) && Finishes(cs) && DistinctKeys(cs) && LeafAt(cs, i, k) && cs[i].members[k].FlagMember?
    ensures Call(cs, door).MemberValue(cs[i].members[k]).Some? <==> Chosen(cs, i, k)
    ensures Suits(door, cs[i].members[k]) ==> (Call(cs, door).LeafEngaged(cs[i].members[k]) <==> Chosen(cs, i, k))
  {
    FlagChosen(cs, i, k);
    hide Chosen, ChosenFlags, ChosenArgs, DistinctKeys, Registered, Finishes;
  }

  lemma ArgProvided(cs: seq<Decl>, door: Door, i: nat, k: nat)
    requires Registered(cs) && Finishes(cs) && DistinctKeys(cs) && LeafAt(cs, i, k) && cs[i].members[k].ArgMember?
    ensures Call(cs, door).MemberValue(cs[i].members[k]).Some? <==> Chosen(cs, i, k)
    ensures Suits(door, cs[i].members[k]) ==> (Call(cs, door).LeafEngaged(cs[i].members[k]) <==> Chosen(cs, i, k))
  {
    ArgChosen(cs, i, k);
    hide Chosen, ChosenFlags, ChosenArgs, DistinctKeys, Registered, Finishes;
  }

  lemma CallMatches(cs: seq<Decl>, door: Door)
    requires Registered(cs) && Finishes(cs) && PlainForest(cs)
    ensures KeysMatch(cs, Call(cs, door), CallKeys(cs))
  {
    hide Chosen, Call, CallKeys;
    forall i: nat, m | i < |cs| && m in cs[i].Resolved() && !m.Nested?
      ensures PropertyName(m) in CallKeys(cs) <==> Call(cs, door).MemberValue(m).Some?
    {
      var k: nat :| k < |cs[i].Resolved()| && cs[i].Resolved()[k] == m;
      assert LeafAt(cs, i, k);
      LeafProvided(cs, door, i, k);
    }
  }

  /** A group is one of groups exactly when nothing in it is forced. */
  lemma OnlyGroupsQuiet(cs: seq<Decl>, i: nat)
    requires Registered(cs) && i < |cs| && cs[i].AllOrNone?
    ensures OnlyGroups(cs, i) <==> Quiet(cs, i)
  {
    if OnlyGroups(cs, i) {
      forall k: nat ensures !Forced(cs, i, k) {
        if NestsAt(cs, i, k) {
          assert cs[i].members[k] in cs[i].Resolved();
          OnlyGroupsNested(cs, i, cs[i].members[k]);
        }
      }
    } else {
      var j: nat :| Beneath(cs, j, i) && !(j < |cs| && cs[j].AllOrNone?);
      var g := References(cs);
      var p: seq<nat> :| WalkFromTo(g, p, i, j);
      assert |p| > 1;
      assert Nested(p[1]) in cs[i].Resolved();
      var k: nat :| k < |cs[i].members| && cs[i].members[k] == Nested(p[1]);
      WalkTail(g, p);
      assert Beneath(cs, j, p[1]);
      assert Forced(cs, i, k);
    }
  }

  /** A nested group is wanted when it is forced or its place is chosen. */
  lemma WantedNested(cs: seq<Decl>, i: nat, k: nat)
    requires Registered(cs) && Finishes(cs) && PlainForest(cs) && NestsGroup(cs, i, k)
    ensures Wanted(cs, cs[i].members[k].idx) <==> Forced(cs, i, k) || Chosen(cs, i, k)
  {
    var j := cs[i].members[k].idx;
    NestedBelow(cs, i, k);
    OnlyGroupsQuiet(cs, j);
    hide OnlyGroups, DistinctKeys, Chosen, Quiet;
    forall p: nat, q: nat | NestsGroup(cs, p, q) && cs[p].members[q].idx == j ensures p == i && q == k {
      assert NestsAt(cs, p, q) && NestsAt(cs, i, k);
    }
  }

  /** What the call engages, of a member whose own constraint it engages when it should. */
  ghost predicate EngagedAsWanted(cs: seq<Decl>, input: Input, j: nat)
    requires Registered(cs) && Finishes(cs) && j < |cs| && cs[j].CoOccurrence()
  {
    Engaged(cs, input, j) <==> cs[j].AtLeastOne? || Wanted(cs, j)
  }

  lemma MemberEngages(cs: seq<Decl>, door: Door, i: nat, k: nat)
    requires Registered(cs) && Finishes(cs) && PlainForest(cs) && AllSuit(cs, door) && i < |cs| && k < |cs[i].members|
    requires cs[i].members[k].Nested? ==>
      cs[i].members[k].idx < |cs| && EngagedAsWanted(cs, Call(cs, door), cs[i].members[k].idx)
    ensures EngagedAt(cs, Call(cs, door), i, k) <==> Forced(cs, i, k) || Chosen(cs, i, k)
  {
    if cs[i].members[k].Nested? {
      NestedBelow(cs, i, k);
      if NestsGroup(cs, i, k) { WantedNested(cs, i, k); }
    } else {
      assert LeafAt(cs, i, k);
      LeafProvided(cs, door, i, k);
    }
  }

  lemma {:induction false} CallEngages(cs: seq<Decl>, door: Door, i: nat)
    requires Registered(cs) && Finishes(cs) && PlainForest(cs) && AllSuit(cs, door) && i < |cs|
    ensures EngagedAsWanted(cs, Call(cs, door), i)
    ensures Satisfied(cs, Call(cs, door), i)
    decreases Rank(cs, i)
  {
    var input, ms := Call(cs, door), cs[i].members;
    forall k: nat | k < |ms| ensures EngagedAt(cs, input, i, k) <==> Forced(cs, i, k) || Chosen(cs, i, k) {
      if ms[k].Nested? {
        NestedBelow(cs, i, k);
        CallEngages(cs, door, ms[k].idx);
      }
      MemberEngages(cs, door, i, k);
    }
    EngagedMeans(cs, input, i);
    hide Call, EngagedAt, Engaged, Forced, PlainForest, AllSuit;
    if cs[i].AllOrNone? {
      if Wanted(cs, i) { assert EngagedAt(cs, input, i, 0); }
    } else if Quiet(cs, i) {
      assert EngagedAt(cs, input, i, 0);
    } else {
      var k: nat :| Forced(cs, i, k);
      assert k < |ms| by { ForcedWithin(cs, i, k); }
      assert EngagedAt(cs, input, i, k);
    }
  }

  lemma ForcedWithin(cs: seq<Decl>, i: nat, k: nat)
    requires Forced(cs, i, k)
    ensures NestsAt(cs, i, k)
  {
  }

  /** The call is legal. */
  lemma CallLegal(cs: seq<Decl>, door: Door)
    requires Registered(cs) && Finishes(cs) && PlainForest(cs) && AllSuit(cs, door)
    ensures AllSatisfied(cs, Call(cs, door)) && KeysMatch(cs, Call(cs, door), CallKeys(cs))
  {
    forall i: nat | i < |cs| ensures Satisfied(cs, Call(cs, door), i) {
      CallEngages(cs, door, i);
    }
    CallMatches(cs, door);
  }

  // --- What the sparse call leaves out ---------------------------------------------------------

  /** The leaves of a member are leaves of its parent. */
  lemma {:induction false} LeavesInclude(cs: seq<Decl>, i: nat, k: nat, n: nat)
    requires Registered(cs) && Finishes(cs) && i < |cs| && cs[i].CoOccurrence() && n <= k < |cs[i].members|
    ensures cs[i].members[k].Nested? ==> cs[i].members[k].idx < |cs| && cs[cs[i].members[k].idx].CoOccurrence()
    ensures cs[i].members[k].Nested? ==>
      forall p :: p in LeavesFrom(cs, cs[i].members[k].idx, 0) ==> p in LeavesFrom(cs, i, n)
    ensures !cs[i].members[k].Nested? ==> PropertyName(cs[i].members[k]) in LeavesFrom(cs, i, n)
    decreases k - n
  {
    assert cs[i].members[n] in cs[i].members && cs[i].members[k] in cs[i].members;
    if n < k { LeavesInclude(cs, i, k, n + 1); }
  }

  lemma MissingMember(cs: seq<Decl>, keys: set<string>, i: nat, k: nat)
    requires Registered(cs) && Finishes(cs) && i < |cs| && cs[i].CoOccurrence() && k < |cs[i].members|
    requires cs[i].members[k].Nested? ==> cs[i].members[k].idx < |cs| && cs[cs[i].members[k].idx].CoOccurrence()
    requires if cs[i].members[k].Nested? then !BranchAccepts(LeavesFrom(cs, cs[i].members[k].idx, 0), keys)
      else PropertyName(cs[i].members[k]) !in keys
    ensures !BranchAccepts(LeavesFrom(cs, i, 0), keys)
  {
    LeavesInclude(cs, i, k, 0);
  }

  /** A leaf beneath it has no key: beneath every at-least-one, every group above one, and every
      group the call does not engage. */
  lemma {:induction false} MissingKey(cs: seq<Decl>, j: nat)
    requires Registered(cs) && Finishes(cs) && PlainForest(cs) && j < |cs|
    requires cs[j].AtLeastOne? || !Quiet(cs, j) || !Wanted(cs, j)
    ensures !BranchAccepts(LeavesFrom(cs, j, 0), CallKeys(cs))
    decreases Rank(cs, j)
  {
    if k: nat :| Forced(cs, j, k) {
      NestedBelow(cs, j, k);
      if NestsGroup(cs, j, k) { OnlyGroupsQuiet(cs, cs[j].members[k].idx); }
      MissingKey(cs, cs[j].members[k].idx);
      MissingMember(cs, CallKeys(cs), j, k);
    } else {
      var k: nat := if cs[j].AtLeastOne? then 1 else 0;
      assert !Chosen(cs, j, k);
      MissingUnchosen(cs, j, k);
      if cs[j].members[k].Nested? {
        MissingKey(cs, cs[j].members[k].idx);
      }
      MissingMember(cs, CallKeys(cs), j, k);
    }
  }

  /** A place neither forced nor chosen: a leaf without its key or a group not engaged. */
  lemma MissingUnchosen(cs: seq<Decl>, i: nat, k: nat)
    requires Registered(cs) && Finishes(cs) && PlainForest(cs) && i < |cs| && k < |cs[i].members|
    requires !Forced(cs, i, k) && !Chosen(cs, i, k)
    ensures if cs[i].members[k].Nested?
      then NestsGroup(cs, i, k) && Rank(cs, cs[i].members[k].idx) < Rank(cs, i) && !Wanted(cs, cs[i].members[k].idx)
      else PropertyName(cs[i].members[k]) !in CallKeys(cs)
  {
    if cs[i].members[k].Nested? {
      NestedBelow(cs, i, k);
      WantedNested(cs, i, k);
    } else {
      assert LeafAt(cs, i, k);
      KeyChosen(cs, i, k);
    }
  }

  // --- A set that does not deliver refuses it --------------------------------------------------

  lemma {:induction false} NoMemberAccepted(cs: seq<Decl>, input: Input, keys: set<string>, i: nat, n: nat)
    requires Registered(cs) && Finishes(cs) && i < |cs| && cs[i].CoOccurrence() && n <= |cs[i].members|
    requires forall k: nat :: k < |cs[i].members| ==> MemberRefused(cs, keys, i, k)
    ensures !AnyOfAccepts(BranchesFrom(cs, i, n), keys)
    decreases |cs[i].members| - n
  {
    if n < |cs[i].members| {
      BranchesStep(cs, input, keys, i, n);
      NoMemberAccepted(cs, input, keys, i, n + 1);
      assert MemberRefused(cs, keys, i, n);
    }
  }

  ghost predicate MemberRefused(cs: seq<Decl>, keys: set<string>, i: nat, k: nat)
    requires Registered(cs) && Finishes(cs) && i < |cs| && cs[i].CoOccurrence() && k < |cs[i].members|
  {
    assert cs[i].members[k] in cs[i].members;
    !AnyOfAccepts(MemberBranches(cs, cs[i].members[k]), keys)
  }

  /** An at-least-one with nothing forced in it delivers, and one that nests another does when
      the other does. */
  lemma NotDelivering(cs: seq<Decl>, i: nat)
    requires Registered(cs) && Finishes(cs) && i < |cs| && cs[i].AtLeastOne? && !Delivers(cs, i)
    ensures !Quiet(cs, i)
    ensures forall k: nat :: NestsAny(cs, i, k) ==> !Delivers(cs, cs[i].members[k].idx)
  {
    if !exists k: nat :: NestsAny(cs, i, k) {
      var k: nat :| NestsGroup(cs, i, k) && !OnlyGroups(cs, cs[i].members[k].idx);
      assert Forced(cs, i, k);
    } else {
      var k: nat :| NestsAny(cs, i, k);
      assert Forced(cs, i, k);
      forall l: nat | NestsAny(cs, i, l) ensures !Delivers(cs, cs[i].members[l].idx) {
        NestedBelow(cs, i, l);
      }
    }
  }

  lemma {:induction false} Undelivered(cs: seq<Decl>, door: Door, i: nat)
    requires Registered(cs) && Finishes(cs) && PlainForest(cs) && i < |cs| && cs[i].AtLeastOne? && !Delivers(cs, i)
    ensures !AnyOfAccepts(BranchesFrom(cs, i, 0), CallKeys(cs))
    decreases Rank(cs, i)
  {
    NotDelivering(cs, i);
    forall k: nat | k < |cs[i].members| ensures MemberRefused(cs, CallKeys(cs), i, k) {
      if NestsAny(cs, i, k) {
        NestedBelow(cs, i, k);
        Undelivered(cs, door, cs[i].members[k].idx);
      } else {
        UnchosenRefused(cs, i, k);
      }
    }
    NoMemberAccepted(cs, Call(cs, door), CallKeys(cs), i, 0);
  }

  lemma UnchosenRefused(cs: seq<Decl>, i: nat, k: nat)
    requires Registered(cs) && Finishes(cs) && PlainForest(cs) && i < |cs| && cs[i].AtLeastOne? && k < |cs[i].members|
    requires !NestsAny(cs, i, k) && !Chosen(cs, i, k)
    ensures MemberRefused(cs, CallKeys(cs), i, k)
  {
    var m := cs[i].members[k];
    if m.Nested? {
      NestedBelow(cs, i, k);
      if Forced(cs, i, k) { OnlyGroupsQuiet(cs, m.idx); } else { MissingUnchosen(cs, i, k); }
      MissingKey(cs, m.idx);
      AnyOfOne(LeavesFrom(cs, m.idx, 0), CallKeys(cs));
    } else {
      MissingUnchosen(cs, i, k);
      AnyOfOne([PropertyName(m)], CallKeys(cs));
      assert PropertyName(m) in [PropertyName(m)];
    }
  }

  /** No legal call of a command with these selector flags fails the keywords of rule i. */
  ghost predicate NeverRefused(cs: seq<Decl>, selectors: set<string>, i: nat)
    requires Registered(cs) && Finishes(cs) && i < |cs|
  {
    forall input: Input, keys: set<string> ::
      input.selectors == selectors && KeysMatch(cs, input, keys) && AllSatisfied(cs, input) ==> KeyRule(cs, i, keys)
  }

  /** The call gives flags and arguments these values only. */
  ghost predicate Gives(input: Input, door: Door) {
    && input.selectors == door.selectors
    && (forall n :: n in input.store ==> input.store[n].value == door.values(n))
    && forall n :: n in input.args ==> input.args[n] == door.values(n)
  }

  /** The same of the calls that give these values. */
  ghost predicate NeverRefusedGiving(cs: seq<Decl>, door: Door, i: nat)
    requires Registered(cs) && Finishes(cs) && i < |cs|
  {
    forall input: Input, keys: set<string> ::
      Gives(input, door) && KeysMatch(cs, input, keys) && AllSatisfied(cs, input) ==> KeyRule(cs, i, keys)
  }

  lemma DeliveredNeverRefused(cs: seq<Decl>, selectors: set<string>, i: nat)
    requires Registered(cs) && Finishes(cs) && i < |cs| && cs[i].AtLeastOne? && Delivers(cs, i)
    ensures NeverRefused(cs, selectors, i)
  {
    forall input: Input, keys: set<string> |
      input.selectors == selectors && KeysMatch(cs, input, keys) && AllSatisfied(cs, input)
      ensures KeyRule(cs, i, keys)
    {
      DeliveredSound(cs, input, keys, i);
    }
  }

  /** In a plain forest the at-least-ones whose keywords never refuse a legal call are exactly
      those that deliver; one that does not refuses a call that gives any values that suit. */
  lemma DeliversIff(cs: seq<Decl>, door: Door, i: nat)
    requires Registered(cs) && Finishes(cs) && PlainForest(cs) && AllSuit(cs, door) && i < |cs| && cs[i].AtLeastOne?
    ensures Delivers(cs, i) <==> NeverRefused(cs, door.selectors, i)
    ensures Delivers(cs, i) <==> NeverRefusedGiving(cs, door, i)
  {
    if Delivers(cs, i) {
      DeliveredNeverRefused(cs, door.selectors, i);
    } else {
      CallLegal(cs, door);
      Undelivered(cs, door, i);
      assert Gives(Call(cs, door), door);
    }
  }

  /** So the whole schema refuses no legal call exactly when every at-least-one delivers. */
  lemma AllDeliverIff(cs: seq<Decl>, door: Door)
    requires Registered(cs) && Finishes(cs) && PlainForest(cs) && AllSuit(cs, door)
    ensures AllDeliver(cs) <==> forall i: nat :: i < |cs| ==> NeverRefused(cs, door.selectors, i)
    ensures AllDeliver(cs) <==> forall i: nat :: i < |cs| ==> NeverRefusedGiving(cs, door, i)
  {
    forall i: nat | i < |cs| && cs[i].AtLeastOne?
      ensures Delivers(cs, i) <==> NeverRefused(cs, door.selectors, i)
      ensures Delivers(cs, i) <==> NeverRefusedGiving(cs, door, i)
    {
      DeliversIff(cs, door, i);
    }
    forall i: nat | i < |cs| && !cs[i].AtLeastOne?
      ensures NeverRefused(cs, door.selectors, i) && NeverRefusedGiving(cs, door, i)
    {
      forall input: Input, keys: set<string> |
        input.selectors == door.selectors && KeysMatch(cs, input, keys) && AllSatisfied(cs, input)
        ensures KeyRule(cs, i, keys)
      {
        OtherRuleSound(cs, input, keys, i);
      }
    }
  }

  // --- Implied values have no key ----------------------------------------------------------

  /** What the caller sent: the input without what implications turned on. */
  function ByHand(input: Input): Input {
    input.(store := map n | n in input.store && input.store[n].source != FromImplied :: input.store[n])
  }

  /** The member has its value from an implication. */
  predicate ByImplication(input: Input, m: Member)
    requires !m.Nested?
  {
    m.FlagMember? && m.name !in input.selectors && m.name in input.store && input.store[m.name].source == FromImplied
  }

  lemma HandValue(input: Input, m: Member)
    requires !m.Nested?
    ensures ByHand(input).MemberValue(m) == if ByImplication(input, m) then None else input.MemberValue(m)
    ensures ByImplication(input, m) ==> input.MemberValue(m).Some?
  {
  }

  /** With only exact rules beside the implications, the keywords accept the keys of what the
      caller sent exactly when that alone would be legal. */
  lemma HandProjection(cs: seq<Decl>, input: Input, keys: set<string>)
    requires Registered(cs) && Finishes(cs) && AllExact(cs) && KeysMatch(cs, ByHand(input), keys)
    ensures KeyRules(cs, |cs|, keys) <==> AllSatisfied(cs, ByHand(input))
  {
    ExactProjection(cs, ByHand(input), keys);
  }

  ghost predicate ProvidedAt(cs: seq<Decl>, input: Input, i: nat, k: nat) {
    LeafAt(cs, i, k) && input.MemberValue(cs[i].members[k]).Some?
  }

  ghost predicate ImpliedAt(cs: seq<Decl>, input: Input, i: nat, k: nat) {
    LeafAt(cs, i, k) && ByImplication(input, cs[i].members[k])
  }

  /** A legal call's group with an exact keyword is accepted exactly when its provided leaves
      are all implied or none is. */
  lemma GroupByHand(cs: seq<Decl>, input: Input, keys: set<string>, i: nat)
    requires Registered(cs) && Finishes(cs) && i < |cs| && cs[i].AllOrNone? && Verdict(cs, i) == Exact
    requires KeysMatch(cs, ByHand(input), keys) && Satisfied(cs, input, i)
    ensures KeyRule(cs, i, keys) <==>
      (forall k: nat :: ProvidedAt(cs, input, i, k) ==> ImpliedAt(cs, input, i, k)) ||
      (forall k: nat :: ProvidedAt(cs, input, i, k) ==> !ImpliedAt(cs, input, i, k))
  {
    AllOrNoneExact(cs, ByHand(input), keys, i);
    EngagedMeans(cs, input, i);
    EngagedMeans(cs, ByHand(input), i);
    FlatLeaves(cs, i, 0);
    forall k: nat | k < |cs[i].members|
      ensures EngagedAt(cs, input, i, k) == ProvidedAt(cs, input, i, k)
      ensures EngagedAt(cs, ByHand(input), i, k) == (ProvidedAt(cs, input, i, k) && !ImpliedAt(cs, input, i, k))
    {
      assert FlatLeaf(cs[i].members[k]);
      HandValue(input, cs[i].members[k]);
    }
    hide EngagedAt, Engaged, KeyRule, ByHand, ImpliedAt;
    var n := |cs[i].members|;
    assert forall k: nat :: ProvidedAt(cs, input, i, k) ==> k < n;
  }

  /** A legal call's dependency is refused exactly when its flag came by hand and the one it
      needs by an implication only. */
  lemma RequiresByHand(cs: seq<Decl>, input: Input, keys: set<string>, i: nat)
    requires Registered(cs) && Finishes(cs) && i < |cs| && cs[i].Requires?
    requires KeysMatch(cs, ByHand(input), keys) && Satisfied(cs, input, i)
    ensures !KeyRule(cs, i, keys) <==>
      && ByHand(input).PresentForDeps(cs[i].flag)
      && cs[i].dependsOn in input.store && input.store[cs[i].dependsOn].source == FromImplied
  {
  }

  /** The keywords of an at-least-one of leaves refuse exactly the calls whose provided leaves
      are all implied; with an exact verdict, those whose engaged leaves are. */
  lemma AnyByHand(cs: seq<Decl>, input: Input, keys: set<string>, i: nat)
    requires Registered(cs) && Finishes(cs) && i < |cs| && cs[i].AtLeastOne? && !HasConstraintMember(cs[i])
    requires KeysMatch(cs, ByHand(input), keys)
    ensures !KeyRule(cs, i, keys) <==> forall k: nat :: ProvidedAt(cs, input, i, k) ==> ImpliedAt(cs, input, i, k)
    ensures Verdict(cs, i) == Exact ==>
      forall k: nat :: k < |cs[i].members| ==> (EngagedAt(cs, input, i, k) <==> ProvidedAt(cs, input, i, k))
  {
    forall k: nat | k < |cs[i].members| ensures LeafAt(cs, i, k)
      ensures !MemberRefused(cs, keys, i, k) <==> ProvidedAt(cs, input, i, k) && !ImpliedAt(cs, input, i, k)
    {
      var m := cs[i].members[k];
      assert m in cs[i].Resolved();
      HandValue(input, m);
      AnyOfOne([PropertyName(m)], keys);
      assert PropertyName(m) in [PropertyName(m)];
    }
    if k: nat :| ProvidedAt(cs, input, i, k) && !ImpliedAt(cs, input, i, k) {
      MemberAccepted(cs, input, keys, i, k, 0);
    } else {
      NoMemberAccepted(cs, input, keys, i, 0);
    }
    if Verdict(cs, i) == Exact { FlatLeaves(cs, i, 0); }
  }

  // --- The refusals on the smallest sets ----------------------------------------------------

  /** top = at least one of (aa with (bb or cc)), xx. */
  function Sandwich(): seq<Decl> {
    [ AtLeastOne("inner", [FlagMember("bb", Present), FlagMember("cc", Present)]),
      AllOrNone("pair", [FlagMember("aa", Present), Nested(0)]),
      AtLeastOne("top", [Nested(1), FlagMember("xx", Present)]) ]
  }

  function Given(names: set<string>, source: Source): Input {
    Input(map n | n in names :: Entry(BoolValue(true), source), map[], {}, {})
  }

  /** A set whose nested members are all declared earlier finishes. */
  lemma BackwardFinishes(cs: seq<Decl>)
    requires forall i: nat, m :: i < |cs| && m in cs[i].Resolved() && m.Nested? ==> m.idx < i
    ensures Finishes(cs)
  {
    var g, f: seq<nat> := References(cs), seq(|cs|, i => i);
    forall i: nat, d: nat | i < |f| && d in g[f[i]] ensures d in f[..i] {
      assert Nested(d) in cs[i].Resolved();
      assert f[..i][d] == d;
    }
    forall i: nat | i < |cs| ensures i in f {
      assert f[i] == i;
    }
    assert FinishesBy(cs, f);
  }

  lemma SandwichShape()
    ensures Registered(Sandwich()) && Finishes(Sandwich())
    ensures 1 in References(Sandwich())[2] && 0 in References(Sandwich())[1]
  {
    var cs := Sandwich();
    assert cs[1].members[1] == Nested(0) && cs[2].members[0] == Nested(1);
    BackwardFinishes(cs);
  }

  lemma SandwichKeys()
    ensures KeysMatch(Sandwich(), Given({"aa", "bb"}, FromCLI), {"aa", "bb"})
  {
    var cs, input, keys := Sandwich(), Given({"aa", "bb"}, FromCLI), {"aa", "bb"};
    forall i: nat, m | i < 3 && m in cs[i].Resolved() && !m.Nested?
      ensures PropertyName(m) in keys <==> input.MemberValue(m).Some?
    {
      assert m in {
        FlagMember("bb", Present), FlagMember("cc", Present), FlagMember("aa", Present), FlagMember("xx", Present)};
      assert PropertyName(m) == m.name;
    }
  }

  lemma SandwichLegal()
    requires Registered(Sandwich()) && Finishes(Sandwich())
    ensures AllSatisfied(Sandwich(), Given({"aa", "bb"}, FromCLI))
  {
    var cs, input := Sandwich(), Given({"aa", "bb"}, FromCLI);
    var n := |cs|;
    assert n == 3;
    SandwichGiven();
    SandwichInner(cs, input);
    SandwichPair(cs, input);
    SandwichTop(cs, input);
    hide Satisfied, Engaged, Given, Sandwich, Registered, Finishes;
    forall i: nat | i < n ensures Satisfied(cs, input, i) {
      if i == 1 {
      } else if i == 2 {
      } else {
        assert i == 0;
      }
    }
  }

  /** aa and bb given from the command line engage. */
  lemma SandwichGiven()
    ensures var input := Given({"aa", "bb"}, FromCLI);
      input.LeafEngaged(FlagMember("aa", Present)) && input.LeafEngaged(FlagMember("bb", Present))
  {
  }

  lemma SandwichInner(cs: seq<Decl>, input: Input)
    requires cs == Sandwich() && Registered(cs) && Finishes(cs) && input.LeafEngaged(FlagMember("bb", Present))
    ensures Engaged(cs, input, 0) && Satisfied(cs, input, 0)
  {
    assert EngagedAt(cs, input, 0, 0);
    EngagedMeans(cs, input, 0);
  }

  lemma SandwichPair(cs: seq<Decl>, input: Input)
    requires cs == Sandwich() && Registered(cs) && Finishes(cs) && input.LeafEngaged(FlagMember("aa", Present))
    requires Engaged(cs, input, 0)
    ensures Engaged(cs, input, 1) && Satisfied(cs, input, 1)
  {
    hide Engaged, Registered, Finishes;
    assert cs[1].members[0] == FlagMember("aa", Present) && cs[1].members[1] == Nested(0);
    assert EngagedAt(cs, input, 1, 0) && EngagedAt(cs, input, 1, 1);
    EngagedMeans(cs, input, 1);
  }

  lemma SandwichTop(cs: seq<Decl>, input: Input)
    requires cs == Sandwich() && Registered(cs) && Finishes(cs) && Engaged(cs, input, 1)
    ensures Satisfied(cs, input, 2)
  {
    hide Engaged, Registered, Finishes;
    assert EngagedAt(cs, input, 2, 0);
    EngagedMeans(cs, input, 2);
  }

  /** The call that provides aa and bb is legal, and the keywords refuse it: the group's
      branch demands cc as well. */
  lemma SandwichRefusesLegal()
    ensures Registered(Sandwich()) && Finishes(Sandwich()) && Sandwiched(Sandwich(), 2, 1, 0)
    ensures KeysMatch(Sandwich(), Given({"aa", "bb"}, FromCLI), {"aa", "bb"})
    ensures AllSatisfied(Sandwich(), Given({"aa", "bb"}, FromCLI))
    ensures !KeyRules(Sandwich(), 3, {"aa", "bb"}) && !Delivers(Sandwich(), 2)
  {
    SandwichShape();
    SandwichKeys();
    SandwichLegal();
    BeneathTwice(Sandwich(), 2, 1, 0);
    SandwichRule();
    if Delivers(Sandwich(), 2) { DeliveredSound(Sandwich(), Given({"aa", "bb"}, FromCLI), {"aa", "bb"}, 2); }
  }

  lemma SandwichRule()
    requires Registered(Sandwich()) && Finishes(Sandwich())
    ensures !KeyRule(Sandwich(), 2, {"aa", "bb"})
  {
    SandwichBranches();
    var keys, group, single, c, x := {"aa", "bb"}, ["aa", "bb", "cc"], ["xx"], "cc", "xx";
    assert c[0] == 'c' && x[0] == 'x' && "aa"[0] == 'a' && "bb"[0] == 'b';
    assert group[2] == c && single[0] == x;
    assert c in group && c !in keys && x in single && x !in keys;
    assert !BranchAccepts(group, keys) && !BranchAccepts(single, keys);
  }

  lemma SandwichBranches()
    requires Registered(Sandwich()) && Finishes(Sandwich())
    ensures BranchesFrom(Sandwich(), 2, 0) == [["aa", "bb", "cc"], ["xx"]]
  {
    var cs := Sandwich();
    assert forall n :: n in ["aa", "bb", "cc", "xx"] ==> FlagParamName(n) == n;
    assert LeavesFrom(cs, 0, 2) == [] && LeavesFrom(cs, 0, 1) == ["cc"];
    assert LeavesFrom(cs, 0, 0) == ["bb", "cc"];
    assert LeavesFrom(cs, 1, 2) == [] && LeavesFrom(cs, 1, 1) == ["bb", "cc"];
    assert LeavesFrom(cs, 1, 0) == ["aa", "bb", "cc"];
    assert BranchesFrom(cs, 2, 2) == [] && BranchesFrom(cs, 2, 1) == [["xx"]];
  }

  /** The same group beside another at-least-one, which lends the top its branches. */
  function SandwichBeside(): seq<Decl> {
    [ AtLeastOne("inner", [FlagMember("bb", Present), FlagMember("cc", Present)]),
      AllOrNone("pair", [FlagMember("aa", Present), Nested(0)]),
      AtLeastOne("other", [FlagMember("dd", Present), FlagMember("ee", Present)]),
      AtLeastOne("top", [Nested(1), Nested(2)]) ]
  }

  lemma BesideShape()
    ensures Registered(SandwichBeside()) && Finishes(SandwichBeside())
    ensures 1 in References(SandwichBeside())[3] && 0 in References(SandwichBeside())[1]
  {
    var cs := SandwichBeside();
    assert cs[1].members[1] == Nested(0) && cs[3].members[0] == Nested(1) && cs[3].members[1] == Nested(2);
    BackwardFinishes(cs);
  }

  /** i holds d, and d holds j. */
  lemma BeneathTwice(cs: seq<Decl>, i: nat, d: nat, j: nat)
    requires i < |cs| && d < |cs| && d in References(cs)[i] && j in References(cs)[d]
    ensures Beneath(cs, d, i) && Beneath(cs, j, d)
  {
    var g := References(cs);
    WalkStart<nat>(g, i);
    WalkStart<nat>(g, d);
    ReachesExtend<nat>(g, i, i, d);
    ReachesExtend<nat>(g, d, d, j);
  }

  lemma BesideDelivers(i: nat)
    requires Registered(SandwichBeside()) && Finishes(SandwichBeside()) && i < 4 && i != 1
    ensures Delivers(SandwichBeside(), i)
  {
    var cs := SandwichBeside();
    if i == 3 {
      PlainDelivers(cs, 2);
      LendsDelivery(cs, 3, 1);
    } else {
      PlainDelivers(cs, i);
    }
  }

  /** Without nested constraints an at-least-one delivers, and so does one that nests such a one. */
  lemma PlainDelivers(cs: seq<Decl>, i: nat)
    requires Registered(cs) && Finishes(cs) && i < |cs| && cs[i].AtLeastOne?
    requires forall m :: m in cs[i].members ==> !m.Nested?
    ensures Delivers(cs, i)
  {
  }

  lemma LendsDelivery(cs: seq<Decl>, i: nat, k: nat)
    requires Registered(cs) && Finishes(cs) && i < |cs| && cs[i].AtLeastOne? && NestsAny(cs, i, k)
    requires Delivers(cs, cs[i].members[k].idx)
    ensures Delivers(cs, i)
  {
    NestedBelow(cs, i, k);
  }

  /** A sandwiched at-least-one whose schema refuses no legal call all the same. */
  lemma SandwichDelivers()
    ensures Registered(SandwichBeside()) && Finishes(SandwichBeside())
    ensures Sandwiched(SandwichBeside(), 3, 1, 0) && AllDeliver(SandwichBeside())
  {
    BesideShape();
    var cs := SandwichBeside();
    BeneathTwice(cs, 3, 1, 0);
    hide Registered, Finishes, Beneath, Delivers, References;
    forall i: nat | i < |cs| && cs[i].AtLeastOne? ensures Delivers(cs, i) {
      BesideDelivers(i);
    }
  }

  /** aa turns bb on, and the two belong together. */
  function ImpliedPair(): seq<Decl> {
    [Implies("turns-on", "aa", "bb", true), AllOrNone("pair", [FlagMember("aa", Present), FlagMember("bb", Present)])]
  }

  /** The store after the injection: the caller sent aa only. */
  function InjectedInput(): Input {
    Input(map["aa" := Entry(BoolValue(true), FromCLI), "bb" := Entry(BoolValue(true), FromImplied)], map[], {}, {})
  }

  lemma ImpliedPairExact()
    requires Registered(ImpliedPair()) && Finishes(ImpliedPair())
    ensures Verdict(ImpliedPair(), 1) == Exact
  {
    var cs := ImpliedPair();
    assert !NonPresentFrom(cs, 1, 2) && !NonPresentFrom(cs, 1, 1) && !NonPresentFrom(cs, 1, 0);
  }

  lemma ImpliedPairKeys()
    ensures KeysMatch(ImpliedPair(), ByHand(InjectedInput()), {"aa"})
  {
    var cs, input := ImpliedPair(), ByHand(InjectedInput());
    assert FlagParamName("aa") == "aa" && FlagParamName("bb") == "bb";
    assert "aa"[0] == 'a' && "bb"[0] == 'b';
    forall i: nat, m | i < |cs| && m in cs[i].Resolved() && !m.Nested?
      ensures PropertyName(m) in {"aa"} <==> input.MemberValue(m).Some?
    {
      assert m == FlagMember("aa", Present) || m == FlagMember("bb", Present);
    }
  }

  /** With an Implies, injected values have no key: sending aa alone is a legal call that
      the keywords of the pair refuse. */
  lemma ImpliesRefusesLegal()
    ensures Registered(ImpliedPair()) && Finishes(ImpliedPair())
    ensures AllSatisfied(ImpliedPair(), InjectedInput()) && KeysMatch(ImpliedPair(), ByHand(InjectedInput()), {"aa"})
    ensures !KeyRule(ImpliedPair(), 1, {"aa"})
  {
    BackwardFinishes(ImpliedPair());
    ImpliedPairLegal();
    ImpliedPairExact();
    ImpliedPairKeys();
    ImpliedPairPlaces();
    hide AllSatisfied, KeysMatch, KeyRule, Registered, Finishes, Verdict, ProvidedAt, ImpliedAt, ByHand;
    assert Satisfied(ImpliedPair(), InjectedInput(), 1) by { AllMeansEach(ImpliedPair(), InjectedInput(), 1); }
    GroupByHand(ImpliedPair(), InjectedInput(), {"aa"}, 1);
  }

  lemma AllMeansEach(cs: seq<Decl>, input: Input, i: nat)
    requires Registered(cs) && Finishes(cs) && AllSatisfied(cs, input) && i < |cs|
    ensures Satisfied(cs, input, i)
  {
  }

  lemma ImpliedPairLegal()
    requires Registered(ImpliedPair()) && Finishes(ImpliedPair())
    ensures AllSatisfied(ImpliedPair(), InjectedInput())
  {
    assert EngagedAt(ImpliedPair(), InjectedInput(), 1, 0) && EngagedAt(ImpliedPair(), InjectedInput(), 1, 1);
  }

  lemma ImpliedPairPlaces()
    ensures ProvidedAt(ImpliedPair(), InjectedInput(), 1, 0) && !ImpliedAt(ImpliedPair(), InjectedInput(), 1, 0)
    ensures ProvidedAt(ImpliedPair(), InjectedInput(), 1, 1) && ImpliedAt(ImpliedPair(), InjectedInput(), 1, 1)
  {
    assert "aa"[0] == 'a' && "bb"[0] == 'b';
  }
}
