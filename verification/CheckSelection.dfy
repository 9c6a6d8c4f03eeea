/** A selection of checks run through: resolved to an order, given its values, and executed. */
module CheckSelection {
  import opened Names
  import opened Graphs
  import opened CheckOrder
  import opened CheckRunner
  import opened CheckValues

  /** The registered checks, what their implementations return, and what the app's resolver says. */
  datatype Registry =
    Registry(defs: Checks, impls: map<string, ImplResult>, resolver: map<string, Given>, pureOnly: bool)
  {
    ghost predicate Valid() {
      Closed(Dependencies(defs)) && impls.Keys == defs.Keys
    }

    function With(values: map<string, Resolved>): Setup {
      Setup(defs, impls, values, pureOnly)
    }
  }

  datatype Answer = Cyclic(name: string) | Refused(refusal: Refusal) | Completed(report: Report)

  /** The values of exactly these checks, each its own resolution. */
  ghost predicate Values(g: Registry, order: seq<string>, values: map<string, Resolved>)
    requires forall n :: n in order ==> n in g.defs
  {
    values.Keys == Elements(order) &&
      forall n :: n in order ==> n in values && Resolve(g.defs, g.resolver, n) == Success(values[n])
  }

  /** What running the checks in this order answers. */
  ghost predicate Answers(g: Registry, order: seq<string>, a: Answer)
    requires g.Valid() && FinishOrder(Dependencies(g.defs), order)
  {
    OrderRegistered(g, order);
    match a
    case Cyclic(_) => false
    case Refused(refusal) =>
      exists i ::
        FirstRefused(g.defs, g.resolver, order, i) && Resolve(g.defs, g.resolver, order[i]) == Failure(refusal)
    case Completed(report) => exists values, f :: Values(g, order, values) && Outcome(g.With(values), order, f, report)
  }

  /** The report of a solution, or the panic at the check that has none. */
  ghost predicate Outcome(s: Setup, order: seq<string>, f: map<string, Fate>, report: Report)
    requires s.Valid()
  {
    match report
    case Report(_, _, _) => Solves(s, f) && Reports(order, f, report)
    case NotMinted(name) => exists i: nat :: StopsAt(s, order, f, i, name)
  }

  lemma OrderRegistered(g: Registry, order: seq<string>)
    requires FinishOrder(Dependencies(g.defs), order)
    ensures forall n :: n in order ==> n in g.defs
  {
    forall n | n in order ensures n in g.defs {
      var i :| 0 <= i < |order| && order[i] == n;
    }
  }

  /** runSelectedChecks, from the selection on. */
  method RunSelected(g: Registry, selected: set<string>) returns (a: Answer)
    requires g.Valid() && selected <= g.defs.Keys
    ensures a.Cyclic? <==> PullsInCycle(Dependencies(g.defs), selected)
    ensures a.Cyclic? ==>
      PulledIn(Dependencies(g.defs), selected, a.name) && OnCycle(Dependencies(g.defs), a.name)
    ensures !a.Cyclic? ==>
      exists order :: LeastDependencyOrder(Dependencies(g.defs), selected, order) && Answers(g, order, a)
  {
    var resolved := ResolveCheckOrder(Dependencies(g.defs), selected);
    if resolved.Failure? { return Cyclic(resolved.error); }
    var order := resolved.value;
    OrderRegistered(g, order);
    var values := ResolveCheckValues(g.defs, order, g.resolver);
    if values.Failure? {
      a := Refused(values.error);
      assert Answers(g, order, a);
      return;
    }
    var report, f := RunChecks(g.With(values.value), order);
    a := Completed(report);
    assert Values(g, order, values.value) by { ValuesResolved(g, order, values.value); }
    assert Outcome(g.With(values.value), order, f, report);
    assert Answers(g, order, a);
  }

  lemma ValuesResolved(g: Registry, order: seq<string>, values: map<string, Resolved>)
    requires (forall n :: n in order ==> n in g.defs) && values.Keys == Elements(order)
    requires forall n :: n in order ==> Resolve(g.defs, g.resolver, n) == Success(values[n])
    ensures Values(g, order, values)
  {
    forall n | n in order ensures n in values {
      assert n in Elements(order);
    }
  }

  // --- One selection, one answer -------------------------------------------------------------

  lemma PrefixFinishes(g: Graph<string>, order: seq<string>, j: nat)
    requires FinishOrder(g, order) && j <= |order|
    ensures FinishOrder(g, order[..j])
  {
    forall i | 0 <= i < j ensures order[..j][..i] == order[..i] {
    }
  }

  /** No solution covers a check that stopped an earlier run. */
  lemma StoppedUnsolved(s: Setup, order: seq<string>, f: map<string, Fate>, i: nat, name: string,
                        h: map<string, Fate>, j: nat)
    requires s.Valid() && FinishOrder(Dependencies(s.defs), order) && StopsAt(s, order, f, i, name)
    requires i < j <= |order| && h.Keys == Elements(order[..j])
    ensures !Solves(s, h)
  {
    PrefixFinishes(Dependencies(s.defs), order, j);
    assert order[..j][..i] == order[..i] && order[..j][i] == name;
    NoSolution(s, f, order[..j], i);
  }

  /** One setup and order have one outcome. */
  lemma OneOutcome(s: Setup, order: seq<string>, f: map<string, Fate>, h: map<string, Fate>, r: Report, t: Report)
    requires s.Valid() && FinishOrder(Dependencies(s.defs), order) && Outcome(s, order, f, r) && Outcome(s, order, h, t)
    ensures r == t
  {
    assert order[..|order|] == order;
    if r.Report? && t.Report? {
      SolutionsAgree(s, f, h, order, |order|);
      forall n | n in f ensures f[n] == h[n] {
        assert n in Elements(order);
      }
      assert f == h;
    } else if r.NotMinted? && t.NotMinted? {
      var i: nat :| StopsAt(s, order, f, i, r.name);
      var j: nat :| StopsAt(s, order, h, j, t.name);
      if i < j { StoppedUnsolved(s, order, f, i, r.name, h, j); }
      if j < i { StoppedUnsolved(s, order, h, j, t.name, f, i); }
    } else if r.NotMinted? {
      var i: nat :| StopsAt(s, order, f, i, r.name);
      StoppedUnsolved(s, order, f, i, r.name, h, |order|);
    } else {
      var j: nat :| StopsAt(s, order, h, j, t.name);
      StoppedUnsolved(s, order, h, j, t.name, f, |order|);
    }
  }

  lemma ValuesAgree(g: Registry, order: seq<string>, v: map<string, Resolved>, w: map<string, Resolved>)
    requires (forall n :: n in order ==> n in g.defs) && Values(g, order, v) && Values(g, order, w)
    ensures v == w
  {
    forall n | n in v ensures v[n] == w[n] {
      assert n in Elements(order);
    }
  }

  lemma OneAnswer(g: Registry, order: seq<string>, a: Answer, b: Answer)
    requires g.Valid() && FinishOrder(Dependencies(g.defs), order) && Answers(g, order, a) && Answers(g, order, b)
    ensures a == b
  {
    OrderRegistered(g, order);
    match (a, b) {
      case (Completed(r), Completed(t)) =>
        var v, f :| Values(g, order, v) && Outcome(g.With(v), order, f, r);
        var w, h :| Values(g, order, w) && Outcome(g.With(w), order, h, t);
        ValuesAgree(g, order, v, w);
        OneOutcome(g.With(v), order, f, h, r, t);
      case (Completed(_), Refused(_)) => CompletedNotRefused(g, order, a, b);
      case (Refused(_), Completed(_)) => CompletedNotRefused(g, order, b, a);
      case _ =>
    }
  }

  lemma CompletedNotRefused(g: Registry, order: seq<string>, a: Answer, b: Answer)
    requires g.Valid() && FinishOrder(Dependencies(g.defs), order) && Answers(g, order, a) && Answers(g, order, b)
    ensures !(a.Completed? && b.Refused?)
  {
  }

  /** A selection without a reachable cycle has one answer, whatever the maps' orders: the rows,
      their order, the listing and the exit code, the first refusal, or the panic. */
  lemma SelectionDecides(g: Registry, selected: set<string>, o: seq<string>, q: seq<string>, a: Answer, b: Answer)
    requires g.Valid()
    requires LeastDependencyOrder(Dependencies(g.defs), selected, o) && Answers(g, o, a)
    requires LeastDependencyOrder(Dependencies(g.defs), selected, q) && Answers(g, q, b)
    ensures a == b
  {
    LeastOrderUnique(Dependencies(g.defs), selected, o, q);
    OneAnswer(g, o, a, b);
  }
}
