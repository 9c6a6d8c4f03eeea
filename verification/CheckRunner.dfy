/** runChecks: outcomes, the failure cascade, the purity partition and resolved values. */
module CheckRunner {
  import opened Names
  import opened Graphs

  datatype Severity = Error | Warn

  datatype Problem = Problem(text: string, severity: Severity)

  datatype Kind = Passed | Skipped | Found | Off

  /** minted is false only for a value no reporter produced. */
  datatype CheckOutcome = CheckOutcome(minted: bool, kind: Kind, message: string, problems: seq<Problem>)

  datatype Status = Pass | Fail | Warning | Skip | OffStatus

  predicate HasError(problems: seq<Problem>) {
    problems != [] && (problems[0].severity == Error || HasError(problems[1..]))
  }

  function DeriveStatus(o: CheckOutcome): Status {
    match o.kind
    case Passed => Pass
    case Skipped => Skip
    case Off => OffStatus
    case Found => if HasError(o.problems) then Fail else Warning
  }

  datatype CheckDef = CheckDef(severity: Severity, pure: bool, needsNetwork: bool, dependsOn: seq<string>)

  type Checks = map<string, CheckDef>

  function Dependencies(defs: Checks): Graph<string> {
    map n | n in defs :: defs[n].dependsOn
  }

  predicate CheckIsPure(def: CheckDef) {
    def.pure && !def.needsNetwork
  }

  /** What a check's impl does when it is run: return an outcome, or abort (panic). */
  datatype ImplResult = Returned(outcome: CheckOutcome) | Aborted(text: string)

  datatype CheckValue = AsError | AsWarn | TurnedOff

  datatype Resolved = Resolved(value: CheckValue, source: string)

  function MintCheckOff(source: string): CheckOutcome {
    CheckOutcome(true, Off, "off: " + source, [])
  }

  /** A check's name is quoted as it stands. */
  function MintSkip(dep: string): CheckOutcome {
    CheckOutcome(true, Skipped, "skipped: dependency \"" + dep + "\" failed", [])
  }

  function MintCheckAbort(text: string): CheckOutcome {
    CheckOutcome(true, Found, text, [Problem(text, Error)])
  }

  /** mintAsWarnings: every problem of a found outcome becomes a warning. */
  method MintAsWarnings(o: CheckOutcome) returns (r: CheckOutcome)
    ensures r == AsWarnings(o)
  {
    if o.kind != Found { return o; }
    var problems := [];
    for i := 0 to |o.problems|
      invariant |problems| == i
      invariant forall k :: 0 <= k < i ==> problems[k] == Problem(o.problems[k].text, Warn)
    {
      problems := problems + [Problem(o.problems[i].text, Warn)];
    }
    return o.(problems := problems);
  }

  function AsWarnings(o: CheckOutcome): CheckOutcome {
    if o.kind != Found then o
    else o.(problems := seq(|o.problems|, i requires 0 <= i < |o.problems| => Problem(o.problems[i].text, Warn)))
  }

  /** Demotion never leaves a failure and changes no other status. */
  lemma AsWarningsStatus(o: CheckOutcome)
    ensures DeriveStatus(AsWarnings(o)) == if o.kind == Found then Warning else DeriveStatus(o)
  {
    if o.kind == Found { NoErrors(AsWarnings(o).problems); }
  }

  lemma {:induction false} NoErrors(problems: seq<Problem>)
    requires forall p :: p in problems ==> p.severity == Warn
    ensures !HasError(problems)
  {
    if problems != [] { NoErrors(problems[1..]); }
  }

  // --- The meaning: one fate per check ----------------------------------------

  datatype Fate =
    | TurnedOffFate(source: string)
    | CascadeSkipped(dep: string)
    | Listed
    | Ran(outcome: CheckOutcome)

  predicate Failed(f: Fate) {
    f.CascadeSkipped? || (f.Ran? && DeriveStatus(f.outcome) == Fail)
  }

  /** A fate that makes the run exit 1. */
  predicate Spoils(f: Fate) {
    Failed(f) || (f.Ran? && DeriveStatus(f.outcome) == Warning)
  }

  /** One run: the checks, their impls, the resolved values and the partition switch. */
  datatype Setup = Setup(defs: Checks, impls: map<string, ImplResult>, values: map<string, Resolved>, pureOnly: bool)
  {
    ghost predicate Valid() {
      && Closed(Dependencies(defs))
      && impls.Keys == defs.Keys
    }

    predicate IsOff(n: string) {
      n in values && values[n].value == TurnedOff
    }

    /** Resolved to warn, or registered at warn and left alone. */
    predicate IsWarn(n: string)
      requires n in defs
    {
      if n in values then values[n].value == AsWarn else defs[n].severity == Warn
    }

    function RunOutcome(n: string): CheckOutcome
      requires n in defs && n in impls
    {
      match impls[n]
      case Aborted(text) => MintCheckAbort(text)
      case Returned(o) => if IsWarn(n) then AsWarnings(o) else o
    }

    predicate Unminted(n: string)
      requires n in impls
    {
      impls[n].Returned? && !impls[n].outcome.minted
    }
  }

  predicate DependsOnFailed(s: Setup, f: map<string, Fate>, n: string)
    requires n in s.defs
  {
    exists d :: d in s.defs[n].dependsOn && d in f && Failed(f[d])
  }

  predicate DependsOnListed(s: Setup, f: map<string, Fate>, n: string)
    requires n in s.defs
  {
    exists d :: d in s.defs[n].dependsOn && d in f && f[d].Listed?
  }

  /** dep is the first failed dependency of n in declaration order. */
  ghost predicate FirstFailed(s: Setup, f: map<string, Fate>, n: string, dep: string)
    requires n in s.defs
  {
    exists i :: 0 <= i < |s.defs[n].dependsOn| && s.defs[n].dependsOn[i] == dep && dep in f && Failed(f[dep]) &&
      forall k :: 0 <= k < i && s.defs[n].dependsOn[k] in f ==> !Failed(f[s.defs[n].dependsOn[k]])
  }

  /** Not off, no failed dependency, not listed: the check's impl is invoked. */
  predicate Executes(s: Setup, f: map<string, Fate>, n: string)
    requires n in s.defs
  {
    && !s.IsOff(n) && !DependsOnFailed(s, f, n)
    && !(s.pureOnly && (!CheckIsPure(s.defs[n]) || DependsOnListed(s, f, n)))
  }

  /** The cascade and listing rules for one check, given the fates of its dependencies:
      off beats everything, a failed dependency beats the listing, the rest runs. */
  ghost predicate Settles(s: Setup, f: map<string, Fate>, n: string, x: Fate)
    requires n in s.defs && n in s.impls
  {
    if s.IsOff(n) then x == TurnedOffFate(s.values[n].source)
    else if DependsOnFailed(s, f, n) then x.CascadeSkipped? && FirstFailed(s, f, n, x.dep)
    else if s.pureOnly && (!CheckIsPure(s.defs[n]) || DependsOnListed(s, f, n)) then x == Listed
    else x == Ran(s.RunOutcome(n)) && !s.Unminted(n)
  }

  ghost predicate FateHolds(s: Setup, f: map<string, Fate>, n: string)
    requires n in s.defs && n in s.impls && n in f
  {
    Settles(s, f, n, f[n])
  }

  /** f solves the equations over the checks it covers, which hold their dependencies. */
  ghost predicate Solves(s: Setup, f: map<string, Fate>)
    requires s.Valid()
  {
    && f.Keys <= s.defs.Keys
    && (forall n, d :: n in f && d in s.defs[n].dependsOn ==> d in f)
    && forall n :: n in f ==> FateHolds(s, f, n)
  }

  // --- The runner -------------------------------------------------------------

  datatype Row = Row(name: string, outcome: CheckOutcome)

  /** What runChecks returns, or the panic on an outcome no reporter minted. */
  datatype Report = Report(results: seq<Row>, impureListed: seq<string>, exitCode: int) | NotMinted(name: string)

  function FateOutcome(f: Fate): CheckOutcome
    requires !f.Listed?
  {
    match f
    case TurnedOffFate(source) => MintCheckOff(source)
    case CascadeSkipped(dep) => MintSkip(dep)
    case Ran(o) => o
  }

  ghost function Rows(order: seq<string>, f: map<string, Fate>): seq<Row>
    requires Elements(order) <= f.Keys
  {
    if order == [] then [] else
      var n := order[|order| - 1];
      assert n in f by { assert n in Elements(order); }
      var rows := Rows(Front(order, f), f);
      if f[n].Listed? then rows else rows + [Row(n, FateOutcome(f[n]))]
  }

  ghost function ListedNames(order: seq<string>, f: map<string, Fate>): seq<string>
    requires Elements(order) <= f.Keys
  {
    if order == [] then [] else
      var n := order[|order| - 1];
      assert n in f by { assert n in Elements(order); }
      var names := ListedNames(Front(order, f), f);
      if f[n].Listed? then names + [n] else names
  }

  ghost function Front(order: seq<string>, f: map<string, Fate>): (r: seq<string>)
    requires order != [] && Elements(order) <= f.Keys
    ensures r == order[..|order| - 1] && Elements(r) <= f.Keys
  {
    assert forall x :: x in order[..|order| - 1] ==> x in Elements(order);
    order[..|order| - 1]
  }

  ghost function ExitCode(f: map<string, Fate>): int {
    if exists n :: n in f && Spoils(f[n]) then 1 else 0
  }

  /** r reports the fates f of the checks in order. */
  ghost predicate Reports(order: seq<string>, f: map<string, Fate>, r: Report) {
    Elements(order) == f.Keys && r == Report(Rows(order, f), ListedNames(order, f), ExitCode(f))
  }

  method FirstFailedDependency(deps: seq<string>, failedChecks: set<string>) returns (dep: Option<string>)
    ensures dep.None? ==> forall d :: d in deps ==> d !in failedChecks
    ensures dep.Some? ==> dep.value in failedChecks
    ensures dep.Some? ==>
      exists i :: 0 <= i < |deps| && deps[i] == dep.value && forall k :: 0 <= k < i ==> deps[k] !in failedChecks
  {
    for i := 0 to |deps|
      invariant forall k :: 0 <= k < i ==> deps[k] !in failedChecks
    {
      if deps[i] in failedChecks { return Some(deps[i]); }
    }
    return None;
  }

  method AnyListed(deps: seq<string>, listedChecks: set<string>) returns (listed: bool)
    ensures listed <==> exists d :: d in deps && d in listedChecks
  {
    for i := 0 to |deps|
      invariant forall k :: 0 <= k < i ==> deps[k] !in listedChecks
    {
      if deps[i] in listedChecks { return true; }
    }
    return false;
  }

  /** One check's turn: what the loop body of runChecks decides for it. */
  method Decide(s: Setup, name: string, failedChecks: set<string>, listedChecks: set<string>,
                ghost f: map<string, Fate>)
    returns (fate: Option<Fate>)
    requires name in s.defs && name in s.impls
    requires forall d :: d in s.defs[name].dependsOn ==> d in f
    requires forall d :: d in s.defs[name].dependsOn ==> (d in failedChecks <==> Failed(f[d]))
    requires forall d :: d in s.defs[name].dependsOn ==> (d in listedChecks <==> f[d].Listed?)
    ensures fate.Some? ==> Settles(s, f, name, fate.value)
    ensures fate.None? ==> s.Unminted(name) && Executes(s, f, name)
  {
    var def := s.defs[name];
    if s.IsOff(name) {
      return Some(TurnedOffFate(s.values[name].source));
    }
    var dep := FirstFailedDependency(def.dependsOn, failedChecks);
    if dep.Some? {
      assert dep.value in def.dependsOn;
      assert FirstFailed(s, f, name, dep.value);
      return Some(CascadeSkipped(dep.value));
    }
    if s.pureOnly {
      var listed := !CheckIsPure(def);
      if !listed {
        listed := AnyListed(def.dependsOn, listedChecks);
      }
      if listed {
        return Some(Fate.Listed);
      }
    }
    match s.impls[name]
    case Aborted(text) =>
      return Some(Ran(MintCheckAbort(text)));
    case Returned(o) =>
      if !o.minted { return None; }
      var shown := o;
      if s.IsWarn(name) { shown := MintAsWarnings(o); }
      return Some(Ran(shown));
  }

  /** A new fate leaves the equations of the settled checks alone. */
  lemma SolvesExtend(s: Setup, f: map<string, Fate>, name: string, fate: Fate)
    requires s.Valid() && Solves(s, f) && name in s.defs && name !in f
    requires forall d :: d in s.defs[name].dependsOn ==> d in f
    requires Settles(s, f, name, fate)
    ensures Solves(s, f[name := fate])
  {
    var h := f[name := fate];
    forall n | n in h ensures FateHolds(s, h, n) {
      SameDependencies(s, f, h, n, h[n]);
    }
  }

  /** What settles n reads only the fates of its dependencies. */
  lemma SameDependencies(s: Setup, f: map<string, Fate>, h: map<string, Fate>, n: string, x: Fate)
    requires n in s.defs && n in s.impls
    requires forall d :: d in s.defs[n].dependsOn ==> d in f && d in h && f[d] == h[d]
    requires Settles(s, f, n, x)
    ensures Settles(s, h, n, x)
  {
    if x.CascadeSkipped? && FirstFailed(s, f, n, x.dep) {
      assert FirstFailed(s, h, n, x.dep);
    }
  }

  /** What the runner's two sets say after a prefix of the order. */
  ghost predicate Marks(f: map<string, Fate>, failedChecks: set<string>, listedChecks: set<string>) {
    && (forall n :: n in failedChecks <==> n in f && Failed(f[n]))
    && (forall n :: n in listedChecks <==> n in f && f[n].Listed?)
  }

  lemma MarksStep(f: map<string, Fate>, failedChecks: set<string>, listedChecks: set<string>, name: string, fate: Fate,
                  failedChecks': set<string>, listedChecks': set<string>)
    requires Marks(f, failedChecks, listedChecks) && name !in f
    requires failedChecks' == if Failed(fate) then failedChecks + {name} else failedChecks
    requires listedChecks' == if fate.Listed? then listedChecks + {name} else listedChecks
    ensures Marks(f[name := fate], failedChecks', listedChecks')
  {
  }

  /** f solves the equations up to the check at i, which is executed and returned no minted outcome. */
  ghost predicate StopsAt(s: Setup, order: seq<string>, f: map<string, Fate>, i: nat, name: string)
    requires s.Valid()
  {
    && i < |order| && order[i] == name && Solves(s, f) && f.Keys == Elements(order[..i])
    && name in s.defs && name in s.impls && s.Unminted(name) && Executes(s, f, name)
  }

  /** runChecks. Over a dependency-respecting order the report is that of a solution
      of the equations; the runner panics only when the equations have none. */
  method RunChecks(s: Setup, order: seq<string>) returns (r: Report, ghost f: map<string, Fate>)
    requires s.Valid() && FinishOrder(Dependencies(s.defs), order)
    ensures r.Report? ==> Solves(s, f) && Reports(order, f, r)
    ensures r.NotMinted? ==> r.name in order && s.Unminted(r.name)
    ensures r.NotMinted? ==> exists i: nat :: StopsAt(s, order, f, i, r.name)
    ensures r.NotMinted? ==> forall h: map<string, Fate> :: h.Keys == Elements(order) ==> !Solves(s, h)
  {
    hide FinishOrder, Spoils, Failed;
    var results, impureListed, exitCode := [], [], 0;
    var failedChecks: set<string>, listedChecks: set<string> := {}, {};
    f := map[];
    assert order[..0] == [];
    for i := 0 to |order|
      invariant Solves(s, f)
      invariant Marks(f, failedChecks, listedChecks)
      invariant Reports(order[..i], f, Report(results, impureListed, exitCode))
    {
      var name := order[i];
      NextCheck(s, order, i, f);
      var fate := Decide(s, name, failedChecks, listedChecks, f);
      if fate.None? {
        NoSolution(s, f, order, i);
        assert StopsAt(s, order, f, i, name);
        return NotMinted(name), f;
      }
      SolvesExtend(s, f, name, fate.value);
      Extended(order[..i], f, name, fate.value);
      ghost var failedWas, listedWas := failedChecks, listedChecks;
      ghost var was := f;
      f := f[name := fate.value];
      if fate.value.Listed? {
        listedChecks := listedChecks + {name};
        impureListed := impureListed + [name];
      } else {
        results := results + [Row(name, FateOutcome(fate.value))];
      }
      if Failed(fate.value) { failedChecks := failedChecks + {name}; }
      if Spoils(fate.value) { exitCode := 1; }
      MarksStep(was, failedWas, listedWas, name, fate.value, failedChecks, listedChecks);
    }
    assert order[..|order|] == order;
    return Report(results, impureListed, exitCode), f;
  }

  /** The next check of a dependency order is new and its dependencies are settled. */
  lemma NextCheck(s: Setup, order: seq<string>, i: nat, f: map<string, Fate>)
    requires s.Valid() && FinishOrder(Dependencies(s.defs), order) && i < |order|
    requires Elements(order[..i]) <= f.Keys
    ensures order[i] in s.defs && order[i] in s.impls && order[i] !in order[..i]
    ensures f.Keys == Elements(order[..i]) ==> order[i] !in f
    ensures forall d :: d in s.defs[order[i]].dependsOn ==> d in order[..i] && d in f
    ensures order[..i + 1] == order[..i] + [order[i]]
  {
    assert order[i] in Dependencies(s.defs);
    forall d | d in s.defs[order[i]].dependsOn ensures d in order[..i] && d in f {
      assert d in Elements(order[..i]);
    }
  }

  lemma Extended(prefix: seq<string>, f: map<string, Fate>, name: string, fate: Fate)
    requires Elements(prefix) == f.Keys && name !in f
    ensures Elements(prefix + [name]) == f[name := fate].Keys
    ensures Rows(prefix + [name], f[name := fate]) ==
      if fate.Listed? then Rows(prefix, f) else Rows(prefix, f) + [Row(name, FateOutcome(fate))]
    ensures ListedNames(prefix + [name], f[name := fate]) ==
      if fate.Listed? then ListedNames(prefix, f) + [name] else ListedNames(prefix, f)
    ensures ExitCode(f[name := fate]) == if Spoils(fate) then 1 else ExitCode(f)
  {
    var h := f[name := fate];
    ElementsAppend(prefix, name);
    assert (prefix + [name])[..|prefix|] == prefix;
    RowsSame(prefix, f, h);
    if ExitCode(f) == 1 {
      var n :| n in f && Spoils(f[n]);
      assert Spoils(h[n]);
    }
    if Spoils(fate) { assert Spoils(h[name]); }
  }

  lemma {:induction false} RowsSame(order: seq<string>, f: map<string, Fate>, h: map<string, Fate>)
    requires Elements(order) <= f.Keys && Elements(order) <= h.Keys
    requires forall n :: n in order ==> n in f && n in h && f[n] == h[n]
    ensures Rows(order, f) == Rows(order, h) && ListedNames(order, f) == ListedNames(order, h)
  {
    if order != [] {
      var _ := Front(order, f);
      var _ := Front(order, h);
      RowsSame(order[..|order| - 1], f, h);
    }
  }

  // --- Consequences: uniqueness, order independence, monotonicity -----------------

  /** Two solutions agree on everything a dependency order reaches. */
  lemma {:induction false} SolutionsAgree(s: Setup, f: map<string, Fate>, h: map<string, Fate>,
                                          order: seq<string>, k: nat)
    requires s.Valid() && Solves(s, f) && Solves(s, h)
    requires FinishOrder(Dependencies(s.defs), order) && k <= |order|
    requires Elements(order[..k]) <= f.Keys && Elements(order[..k]) <= h.Keys
    ensures forall n :: n in order[..k] ==> f[n] == h[n]
  {
    if k > 0 {
      var n := order[k - 1];
      assert order[..k] == order[..k - 1] + [n];
      ElementsAppend(order[..k - 1], n);
      SolutionsAgree(s, f, h, order, k - 1);
      NextCheck(s, order, k - 1, f);
      EquationUnique(s, f, h, n);
    }
  }

  lemma EquationUnique(s: Setup, f: map<string, Fate>, h: map<string, Fate>, n: string)
    requires n in s.defs && n in s.impls && n in f && n in h
    requires forall d :: d in s.defs[n].dependsOn ==> d in f && d in h && f[d] == h[d]
    requires FateHolds(s, f, n) && FateHolds(s, h, n)
    ensures f[n] == h[n]
  {
    if f[n].CascadeSkipped? && h[n].CascadeSkipped? {
      var deps := s.defs[n].dependsOn;
      var i :| 0 <= i < |deps| && deps[i] == f[n].dep && Failed(f[deps[i]]) &&
               forall k :: 0 <= k < i && deps[k] in f ==> !Failed(f[deps[k]]);
      var j :| 0 <= j < |deps| && deps[j] == h[n].dep && Failed(h[deps[j]]) &&
               forall k :: 0 <= k < j && deps[k] in h ==> !Failed(h[deps[k]]);
      assert deps[i] in deps && deps[j] in deps;
    }
  }

  lemma NoSolution(s: Setup, f: map<string, Fate>, order: seq<string>, i: nat)
    requires s.Valid() && FinishOrder(Dependencies(s.defs), order) && i < |order|
    requires Solves(s, f) && f.Keys == Elements(order[..i])
    requires order[i] in s.defs && order[i] in s.impls && Executes(s, f, order[i]) && s.Unminted(order[i])
    ensures forall h: map<string, Fate> :: h.Keys == Elements(order) ==> !Solves(s, h)
  {
    forall h: map<string, Fate> | h.Keys == Elements(order) ensures !Solves(s, h) {
      if Solves(s, h) {
        var name := order[i];
        forall n | n in order[..i] ensures n in h { assert n in Elements(order); }
        NextCheck(s, order, i, h);
        NextCheck(s, order, i, f);
        SolutionsAgree(s, f, h, order, i);
        assert name in h by { assert name in Elements(order); }
        SameDependencies(s, h, f, name, h[name]);
      }
    }
  }

  /** The runner's report is the same for every order that respects the dependencies:
      same fate per check, hence same rows, listing and exit code. */
  lemma OrderIndependent(s: Setup, o: seq<string>, q: seq<string>, f: map<string, Fate>, h: map<string, Fate>,
                         r: Report, t: Report)
    requires s.Valid() && FinishOrder(Dependencies(s.defs), o) && FinishOrder(Dependencies(s.defs), q)
    requires Elements(o) == Elements(q)
    requires Solves(s, f) && Reports(o, f, r) && Solves(s, h) && Reports(q, h, t)
    ensures f == h && r.exitCode == t.exitCode
    ensures forall row :: row in r.results <==> row in t.results
    ensures forall n :: n in r.impureListed <==> n in t.impureListed
  {
    assert o[..|o|] == o;
    SolutionsAgree(s, f, h, o, |o|);
    forall n | n in f ensures f[n] == h[n] { assert n in o; }
    assert f == h;
    RowsExact(o, f);
    RowsExact(q, f);
    forall row ensures row in r.results <==> row in t.results {
      assert row.name in o <==> row.name in q by {
        assert row.name in Elements(o) <==> row.name in Elements(q);
      }
    }
    forall n ensures n in r.impureListed <==> n in t.impureListed {
      assert n in o <==> n in q by { assert n in Elements(o) <==> n in Elements(q); }
    }
  }

  /** A row stands for each check that is not listed, and no other. */
  lemma {:induction false} RowsExact(order: seq<string>, f: map<string, Fate>)
    requires Elements(order) <= f.Keys
    ensures forall n :: n in order ==> n in f
    ensures forall row :: row in Rows(order, f) <==>
      row.name in order && !f[row.name].Listed? && row.outcome == FateOutcome(f[row.name])
    ensures forall n :: n in ListedNames(order, f) <==> n in order && f[n].Listed?
  {
    forall n | n in order ensures n in f { assert n in Elements(order); }
    if order != [] {
      var front := Front(order, f);
      RowsExact(front, f);
      assert order == front + [order[|order| - 1]];
    }
  }

  function RowNames(rows: seq<Row>): seq<string> {
    if rows == [] then [] else RowNames(rows[..|rows| - 1]) + [rows[|rows| - 1].name]
  }

  lemma RowNamesAppend(rows: seq<Row>, row: Row)
    ensures RowNames(rows + [row]) == RowNames(rows) + [row.name]
  {
    assert (rows + [row])[..|rows|] == rows;
  }

  lemma MoreOf(s: seq<string>, x: string)
    ensures multiset(s + [x]) == multiset(s) + multiset{x}
  {
  }

  /** The checks in the rows and in the listing. */
  ghost function Landed(order: seq<string>, f: map<string, Fate>): multiset<string>
    requires Elements(order) <= f.Keys
  {
    multiset(RowNames(Rows(order, f))) + multiset(ListedNames(order, f))
  }

  lemma NoneLands(f: map<string, Fate>)
    ensures Landed([], f) == multiset{}
  {
  }

  /** The last check lands in one row or once in the listing. */
  lemma LastLands(order: seq<string>, f: map<string, Fate>)
    requires order != [] && Elements(order) <= f.Keys
    ensures Landed(order, f) == Landed(Front(order, f), f) + multiset{order[|order| - 1]}
  {
    var front, n := Front(order, f), order[|order| - 1];
    assert n in Elements(order);
    if f[n].Listed? {
      MoreOf(ListedNames(front, f), n);
    } else {
      RowNamesAppend(Rows(front, f), Row(n, FateOutcome(f[n])));
      MoreOf(RowNames(Rows(front, f)), n);
    }
  }

  lemma {:induction false} AllLand(order: seq<string>, f: map<string, Fate>)
    requires Elements(order) <= f.Keys
    ensures Landed(order, f) == multiset(order)
  {
    hide Landed;
    if order == [] {
      NoneLands(f);
    } else {
      var front, n := Front(order, f), order[|order| - 1];
      AllLand(front, f);
      LastLands(order, f);
      assert order == front + [n];
      MoreOf(front, n);
    }
  }

  /** Each check lands exactly once: in one row, or once in the listing. */
  lemma LandsOnce(order: seq<string>, f: map<string, Fate>)
    requires Elements(order) <= f.Keys
    ensures multiset(RowNames(Rows(order, f))) + multiset(ListedNames(order, f)) == multiset(order)
  {
    AllLand(order, f);
  }

  /** t lowers values of s from error to warn and changes nothing else that runs. */
  ghost predicate Lowered(s: Setup, t: Setup) {
    && t.defs == s.defs && t.impls == s.impls && t.pureOnly == s.pureOnly
    && forall n :: n in s.defs ==> (s.IsOff(n) <==> t.IsOff(n)) && (s.IsWarn(n) ==> t.IsWarn(n))
  }

  /** Lowering values from error to warn never adds a failed check, with or without
      the purity partition. */
  lemma {:induction false} LoweringNeverFailsMore(s: Setup, t: Setup, f: map<string, Fate>, h: map<string, Fate>,
                                                  order: seq<string>, k: nat)
    requires s.Valid() && t.Valid() && Lowered(s, t) && Solves(s, f) && Solves(t, h)
    requires FinishOrder(Dependencies(s.defs), order) && k <= |order|
    requires Elements(order) == f.Keys && f.Keys == h.Keys
    ensures forall n :: n in order[..k] ==> FailsNoMore(f, h, n)
  {
    if k > 0 {
      var n := order[k - 1];
      assert order[..k] == order[..k - 1] + [n];
      LoweringNeverFailsMore(s, t, f, h, order, k - 1);
      PrefixCovered(order, k - 1);
      NextCheck(s, order, k - 1, f);
      assert n in Elements(order);
      hide Solves, Lowered, FinishOrder, FailsNoMore;
      LoweredOne(s, t, f, h, n);
    }
  }

  /** n did not newly fail, and is still listed if it was. */
  ghost predicate FailsNoMore(f: map<string, Fate>, h: map<string, Fate>, n: string) {
    n in f && n in h && (Failed(h[n]) ==> Failed(f[n])) && (f[n].Listed? ==> h[n].Listed?)
  }

  lemma PrefixCovered(order: seq<string>, k: nat)
    requires k <= |order|
    ensures Elements(order[..k]) <= Elements(order)
  {
  }

  lemma LoweredOne(s: Setup, t: Setup, f: map<string, Fate>, h: map<string, Fate>, n: string)
    requires s.Valid() && t.Valid() && Lowered(s, t) && Solves(s, f) && Solves(t, h)
    requires n in f && n in h
    requires forall d :: d in s.defs[n].dependsOn ==> FailsNoMore(f, h, d)
    ensures FailsNoMore(f, h, n)
  {
    assert FateHolds(s, f, n) && FateHolds(t, h, n);
    if s.impls[n].Returned? {
      AsWarningsStatus(s.impls[n].outcome);
    }
    if DependsOnFailed(s, h, n) { assert DependsOnFailed(s, f, n); }
  }
}
