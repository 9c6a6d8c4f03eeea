/** When the projection calls a constraint exact, and what it gives for reason when it does not. */
module ConstraintVerdicts {
  import opened Graphs
  import opened Constraints
  import opened ConstraintProjection

  /** Somewhere at or beneath i stands a flag or argument that is asked for more than presence. */
  ghost predicate AsksMore(cs: seq<Decl>, i: nat) {
    exists j: nat, m :: MoreAt(cs, i, j, m)
  }

  ghost predicate MoreAt(cs: seq<Decl>, i: nat, j: nat, m: Member) {
    Beneath(cs, j, i) && j < |cs| && m in cs[j].Resolved() && !m.Nested? && m.when != Present
  }

  /** The same from position k on. */
  ghost predicate AsksMoreFrom(cs: seq<Decl>, i: nat, k: nat)
    requires i < |cs| && k <= |cs[i].Resolved()|
  {
    || (exists m :: m in cs[i].Resolved()[k..] && !m.Nested? && m.when != Present)
    || (exists m :: m in cs[i].Resolved()[k..] && m.Nested? && AsksMore(cs, m.idx))
  }

  lemma AsksMoreSplits(cs: seq<Decl>, i: nat)
    requires i < |cs|
    ensures AsksMore(cs, i) <==> AsksMoreFrom(cs, i, 0)
  {
    var g, ms := References(cs), cs[i].Resolved();
    assert ms[0..] == ms;
    if AsksMore(cs, i) {
      var j: nat, m :| MoreAt(cs, i, j, m);
      var p: seq<nat> :| WalkFromTo(g, p, i, j);
      if |p| > 1 {
        WalkTail(g, p);
        assert Nested(p[1]) in ms && MoreAt(cs, p[1], j, m);
      }
    }
    if AsksMoreFrom(cs, i, 0) {
      if m :| m in ms && !m.Nested? && m.when != Present {
        WalkStart(g, i);
        assert MoreAt(cs, i, i, m);
      } else {
        var m :| m in ms && m.Nested? && AsksMore(cs, m.idx);
        var j: nat, x :| MoreAt(cs, m.idx, j, x);
        ReachesStep(g, i, m.idx, j);
        assert MoreAt(cs, i, j, x);
      }
    }
  }

  lemma {:induction false} NonPresentMeans(cs: seq<Decl>, i: nat, k: nat)
    requires Registered(cs) && Finishes(cs) && i < |cs| && cs[i].CoOccurrence() && k <= |cs[i].members|
    ensures NonPresentFrom(cs, i, k) <==> AsksMoreFrom(cs, i, k)
    decreases Rank(cs, i), |cs[i].members| - k
  {
    var ms := cs[i].members;
    if k < |ms| {
      var m := ms[k];
      assert m in ms && ms[k..] == [m] + ms[k + 1..];
      NonPresentMeans(cs, i, k + 1);
      if m.Nested? {
        NestedRanksBelow(cs, i, m);
        NonPresentMeans(cs, m.idx, 0);
        AsksMoreSplits(cs, m.idx);
      }
      hide AsksMore;
    }
  }

  /** A group is exact just when its members are flags and arguments asked for presence only, and names its
      nesting before its elections; an at-least-one is exact just when all the flags and arguments beneath it
      are; a requirement is always exact and an implication never. */
  lemma VerdictMeans(cs: seq<Decl>, i: nat)
    requires Registered(cs) && Finishes(cs) && i < |cs|
    ensures match cs[i]
      case AtLeastOne(_, _) => Verdict(cs, i) == if AsksMore(cs, i) then Partial(Selectors) else Exact
      case AllOrNone(_, ms) =>
        && (Verdict(cs, i) == Partial(Nesting) <==> exists m :: m in ms && m.Nested?)
        && (Verdict(cs, i) == Exact <==> forall m :: m in ms ==> !m.Nested? && m.when == Present)
      case Requires(_, _, _) => Verdict(cs, i) == Exact
      case Implies(_, _, _, _) => Verdict(cs, i) == Partial(Injection)
  {
    if cs[i].CoOccurrence() {
      AsksMoreSplits(cs, i);
      NonPresentMeans(cs, i, 0);
      hide NonPresentFrom, AsksMore;
      assert cs[i].members[0..] == cs[i].members;
    }
  }
}
