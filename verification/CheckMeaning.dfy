/** What becomes of each selected check, read off the registrations, the resolved values and what
    the implementations return. */
module CheckMeaning {
  import opened Names
  import opened CheckRunner

  /** The value a check runs at: the resolved one, or what it was registered with. */
  function ValueOf(s: Setup, n: string): CheckValue
    requires n in s.defs
  {
    if n in s.values then s.values[n].value else if s.defs[n].severity == Error then AsError else AsWarn
  }

  predicate SomeError(problems: seq<Problem>) {
    exists i :: 0 <= i < |problems| && problems[i].severity == Error
  }

  /** A broken implementation, whatever the value, or one that found an error and is not lowered
      to warn. */
  predicate Blocks(s: Setup, n: string)
    requires n in s.defs && n in s.impls
  {
    match s.impls[n]
    case Aborted(_) => true
    case Returned(o) => o.kind == Found && ValueOf(s, n) != AsWarn && SomeError(o.problems)
  }

  /** Broken, or anything found at all. */
  predicate Complains(s: Setup, n: string)
    requires n in s.impls
  {
    s.impls[n].Aborted? || s.impls[n].outcome.kind == Found
  }

  /** A check that was skipped itself, or ran and blocks, holds back what depends on it. */
  predicate HoldsBack(s: Setup, f: map<string, Fate>, d: string)
    requires d in s.defs && d in s.impls && d in f
  {
    f[d].CascadeSkipped? || (f[d].Ran? && Blocks(s, d))
  }

  ghost predicate HeldBack(s: Setup, f: map<string, Fate>, n: string)
    requires n in s.defs && s.defs.Keys == s.impls.Keys && f.Keys <= s.defs.Keys
  {
    exists d :: d in s.defs[n].dependsOn && d in f && HoldsBack(s, f, d)
  }

  /** It does more than compute, or a dependency was listed. */
  ghost predicate Withheld(s: Setup, f: map<string, Fate>, n: string)
    requires n in s.defs
  {
    || !s.defs[n].pure || s.defs[n].needsNetwork
    || exists d :: d in s.defs[n].dependsOn && d in f && f[d] == Listed
  }

  lemma {:induction false} HasErrorMeans(problems: seq<Problem>)
    ensures HasError(problems) <==> SomeError(problems)
  {
    if problems != [] {
      HasErrorMeans(problems[1..]);
      if SomeError(problems) && problems[0].severity != Error {
        var i :| 0 <= i < |problems| && problems[i].severity == Error;
        assert problems[1..][i - 1] == problems[i];
      }
      if SomeError(problems[1..]) {
        var i :| 0 <= i < |problems[1..]| && problems[1..][i].severity == Error;
        assert problems[i + 1] == problems[1..][i];
      }
    }
  }

  /** The status a row shows: an executed check fails exactly when it blocks, and warns exactly when it
      complains without blocking; the others show what they returned. */
  lemma StatusMeans(s: Setup, f: map<string, Fate>, n: string)
    requires s.Valid() && Solves(s, f) && n in f && f[n].Ran?
    ensures DeriveStatus(f[n].outcome) == Fail <==> Blocks(s, n)
    ensures DeriveStatus(f[n].outcome) == Warning <==> Complains(s, n) && !Blocks(s, n)
    ensures s.impls[n].Returned? && s.impls[n].outcome.kind != Found ==> f[n].outcome == s.impls[n].outcome
    ensures DeriveStatus(f[n].outcome) == Skip <==> s.impls[n].Returned? && s.impls[n].outcome.kind == Skipped
    ensures DeriveStatus(f[n].outcome) == Pass <==> s.impls[n].Returned? && s.impls[n].outcome.kind == Passed
  {
    assert FateHolds(s, f, n);
    HasErrorMeans(f[n].outcome.problems);
    match s.impls[n]
    case Aborted(text) => assert f[n].outcome.problems[0] == Problem(text, Error);
    case Returned(o) =>
      HasErrorMeans(o.problems);
      AsWarningsStatus(o);
  }

  /** What the row of an executed check says: an abort's own text as one error, findings with their texts
      in order and their severities kept or, at warn, lowered. */
  lemma ProblemsMean(s: Setup, f: map<string, Fate>, n: string)
    requires s.Valid() && Solves(s, f) && n in f && f[n].Ran?
    ensures s.impls[n].Aborted? ==>
      f[n].outcome.message == s.impls[n].text && f[n].outcome.problems == [Problem(s.impls[n].text, Error)]
    ensures s.impls[n].Returned? ==>
      var o := s.impls[n].outcome;
      && o.minted && f[n].outcome.message == o.message && f[n].outcome.kind == o.kind
      && |f[n].outcome.problems| == |o.problems|
      && forall i :: 0 <= i < |o.problems| ==>
           f[n].outcome.problems[i] ==
             if o.kind == Found && ValueOf(s, n) == AsWarn then Problem(o.problems[i].text, Warn) else o.problems[i]
  {
    assert FateHolds(s, f, n);
  }

  lemma FailedMeans(s: Setup, f: map<string, Fate>)
    requires s.Valid() && Solves(s, f)
    ensures forall d :: d in f ==> (Failed(f[d]) <==> HoldsBack(s, f, d))
  {
    forall d | d in f ensures Failed(f[d]) <==> HoldsBack(s, f, d) {
      if f[d].Ran? { StatusMeans(s, f, d); }
    }
  }

  /** Off by its value; otherwise skipped exactly when a dependency holds it back; otherwise listed
      exactly when only the pure may run and it is withheld; otherwise executed. */
  lemma FateMeans(s: Setup, f: map<string, Fate>, n: string)
    requires s.Valid() && Solves(s, f) && n in f
    ensures f[n].TurnedOffFate? <==> ValueOf(s, n) == TurnedOff
    ensures f[n].CascadeSkipped? <==> ValueOf(s, n) != TurnedOff && HeldBack(s, f, n)
    ensures f[n].Listed? <==>
      ValueOf(s, n) != TurnedOff && !HeldBack(s, f, n) && s.pureOnly && Withheld(s, f, n)
    ensures f[n].Ran? <==>
      ValueOf(s, n) != TurnedOff && !HeldBack(s, f, n) && !(s.pureOnly && Withheld(s, f, n))
  {
    assert FateHolds(s, f, n);
    FailedMeans(s, f);
    assert DependsOnFailed(s, f, n) <==> HeldBack(s, f, n);
  }

  /** A skipped check names the first dependency that holds it back. */
  lemma SkipNamesFirst(s: Setup, f: map<string, Fate>, n: string)
    requires s.Valid() && Solves(s, f) && n in f && f[n].CascadeSkipped?
    ensures exists i :: 0 <= i < |s.defs[n].dependsOn| && Holder(s, f, n, i) && f[n].dep == s.defs[n].dependsOn[i]
  {
    assert FateHolds(s, f, n);
    FailedMeans(s, f);
    hide Failed, HoldsBack, Blocks;
    var deps := s.defs[n].dependsOn;
    assert FirstFailed(s, f, n, f[n].dep);
    var i :| 0 <= i < |deps| && deps[i] == f[n].dep && f[n].dep in f && Failed(f[f[n].dep]) &&
      forall k :: 0 <= k < i && deps[k] in f ==> !Failed(f[deps[k]]);
    assert Holder(s, f, n, i);
  }

  /** The first dependency of n, in declaration order, that holds it back. */
  ghost predicate Holder(s: Setup, f: map<string, Fate>, n: string, i: nat)
    requires s.defs.Keys == s.impls.Keys && f.Keys <= s.defs.Keys && n in s.defs && i < |s.defs[n].dependsOn|
  {
    var deps := s.defs[n].dependsOn;
    && deps[i] in f && HoldsBack(s, f, deps[i])
    && forall k :: 0 <= k < i && deps[k] in f ==> !HoldsBack(s, f, deps[k])
  }

  /** What the row of a check that did not run says, and that every row stands for a check of the order. */
  lemma {:induction false} RowsMean(order: seq<string>, f: map<string, Fate>, i: nat)
    requires Elements(order) <= f.Keys && i < |Rows(order, f)|
    ensures var row := Rows(order, f)[i];
      && row.name in order && row.name in f && !f[row.name].Listed?
      && (f[row.name].Ran? ==> row.outcome == f[row.name].outcome)
      && (f[row.name].TurnedOffFate? ==>
            row.outcome.kind == Off && row.outcome.message == "off: " + f[row.name].source)
      && (f[row.name].CascadeSkipped? ==>
            row.outcome.kind == Skipped
            && row.outcome.message == "skipped: dependency \"" + f[row.name].dep + "\" failed")
      && (!f[row.name].Ran? ==> row.outcome.problems == [])
  {
    var front, n := Front(order, f), order[|order| - 1];
    assert n in Elements(order);
    if i < |Rows(front, f)| {
      RowsMean(front, f, i);
    }
  }

  /** The run exits 1 exactly when a check was skipped for a dependency, or ran and complains. */
  lemma ExitMeans(s: Setup, f: map<string, Fate>)
    requires s.Valid() && Solves(s, f)
    ensures ExitCode(f) == 1 <==> exists n :: n in f && (f[n].CascadeSkipped? || (f[n].Ran? && Complains(s, n)))
    ensures ExitCode(f) == 0 || ExitCode(f) == 1
  {
    forall n | n in f ensures Spoils(f[n]) <==> f[n].CascadeSkipped? || (f[n].Ran? && Complains(s, n)) {
      if f[n].Ran? { StatusMeans(s, f, n); }
    }
  }

  /** One broken check: it fails whatever its value, every check that depends on it is skipped unless it
      is off, and the run exits 1. */
  lemma AbortBlocks(s: Setup, f: map<string, Fate>, n: string)
    requires s.Valid() && Solves(s, f) && n in f && f[n].Ran? && s.impls[n].Aborted?
    ensures DeriveStatus(f[n].outcome) == Fail && ExitCode(f) == 1
    ensures forall m :: m in f && n in s.defs[m].dependsOn ==>
      if ValueOf(s, m) == TurnedOff then f[m].TurnedOffFate? else f[m].CascadeSkipped?
  {
    StatusMeans(s, f, n);
    ExitMeans(s, f);
    forall m | m in f && n in s.defs[m].dependsOn
      ensures if ValueOf(s, m) == TurnedOff then f[m].TurnedOffFate? else f[m].CascadeSkipped?
    {
      FateMeans(s, f, m);
    }
  }
}
