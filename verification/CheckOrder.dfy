/** resolveCheckOrder: pull-in of dependencies by depth-first search, then Kahn's
    algorithm over a sorted queue. */
module CheckOrder {
  import opened Names
  import opened Graphs

  /** The closure of the selection under dependsOn. */
  ghost predicate PulledIn(g: Graph<string>, selected: set<string>, n: string) {
    exists s :: s in selected && Reaches(g, s, n)
  }

  /** An arrangement of exactly the pulled-in checks, dependencies first. */
  ghost predicate DependencyOrder(g: Graph<string>, selected: set<string>, o: seq<string>) {
    FinishOrder(g, o) && forall n :: n in o <==> PulledIn(g, selected, n)
  }

  /** o and q part first at k, where o has the smaller name. */
  ghost predicate PartsBelow(o: seq<string>, q: seq<string>, k: nat) {
    k < |o| && k < |q| && o[..k] == q[..k] && Less(o[k], q[k])
  }

  ghost predicate LeastDependencyOrder(g: Graph<string>, selected: set<string>, o: seq<string>) {
    && DependencyOrder(g, selected, o)
    && forall q :: DependencyOrder(g, selected, q) && q != o ==> exists k: nat :: PartsBelow(o, q, k)
  }

  /** A dependency cycle the selection pulls in. */
  ghost predicate PullsInCycle(g: Graph<string>, selected: set<string>) {
    exists n :: PulledIn(g, selected, n) && OnCycle(g, n)
  }

  /** Ready next: pulled in, not yet placed, every dependency placed. */
  ghost predicate Ready(g: Graph<string>, pulled: set<string>, placed: seq<string>, n: string) {
    n in pulled && n !in placed && n in g && forall d :: d in g[n] ==> d in placed
  }

  /** Each entry is the least name that was ready when it was placed. */
  ghost predicate Greedy(g: Graph<string>, pulled: set<string>, o: seq<string>) {
    forall i :: 0 <= i < |o| ==>
      Ready(g, pulled, o[..i], o[i]) &&
      forall n :: Ready(g, pulled, o[..i], n) ==> !Less(n, o[i])
  }

  // --- The expansion -------------------------------------------------------

  /** The recursive closure expand. visited holds the checks being expanded, which
      are the nodes of the walk path; finish records the order of completion. */
  method Expand(g: Graph<string>, name: string, expanded: set<string>, visited: set<string>,
                ghost path: seq<string>, ghost finish: seq<string>)
    returns (involving: Option<string>, expanded': set<string>, ghost finish': seq<string>)
    requires Closed(g) && name in g && visited <= g.Keys
    requires IsWalk(g, path + [name]) && Elements(path) == visited
    requires FinishOrder(g, finish) && Elements(finish) == expanded && expanded !! visited
    ensures involving.Some? ==> Reaches(g, name, involving.value) && OnCycle(g, involving.value)
    ensures involving.None? ==> name in expanded' && expanded <= expanded' && expanded' !! visited
    ensures involving.None? ==> FinishOrder(g, finish') && Elements(finish') == expanded'
    ensures involving.None? ==> forall n :: n in expanded' - expanded ==> Reaches(g, name, n)
    decreases g.Keys - visited
  {
    expanded', finish' := expanded, finish;
    if name in expanded {
      return None, expanded', finish';
    }
    if name in visited {
      WalkStart(g, name);
      ghost var i :| 0 <= i < |path| && path[i] == name;
      CycleFromReturn(g, path + [name], i);
      assert OnCycle(g, name);
      return Some(name), expanded', finish';
    }
    var visiting := visited + {name};
    ElementsAppend(path, name);
    var deps := g[name];
    for k := 0 to |deps|
      invariant expanded <= expanded' && expanded' !! visiting
      invariant FinishOrder(g, finish') && Elements(finish') == expanded'
      invariant forall d :: d in deps[..k] ==> d in expanded'
      invariant forall n :: n in expanded' - expanded ==> Reaches(g, name, n)
    {
      assert IsWalk(g, path + [name] + [deps[k]]);
      ghost var before := expanded';
      involving, expanded', finish' := Expand(g, deps[k], expanded', visiting, path + [name], finish');
      if involving.Some? {
        ReachesStep(g, name, deps[k], involving.value);
        return;
      }
      forall n | n in expanded' - expanded ensures Reaches(g, name, n) {
        if n !in before { ReachesStep(g, name, deps[k], n); }
      }
    }
    assert deps[..|deps|] == deps;
    WalkStart(g, name);
    FinishAppend(g, finish', name);
    return None, expanded' + {name}, finish' + [name];
  }

  /** Expands the whole selection, in sorted order. */
  method ExpandAll(g: Graph<string>, selected: set<string>)
    returns (involving: Option<string>, expanded: set<string>, ghost finish: seq<string>)
    requires Closed(g) && selected <= g.Keys
    ensures involving.Some? ==> PulledIn(g, selected, involving.value) && OnCycle(g, involving.value)
    ensures involving.None? ==> forall n :: n in expanded <==> PulledIn(g, selected, n)
    ensures involving.None? ==> FinishOrder(g, finish) && Elements(finish) == expanded
  {
    hide FinishOrder, PulledIn, Reaches, OnCycle;
    var names := SortedKeys(selected);
    expanded, finish, involving := {}, [], None;
    NothingFinished(g);
    for k := 0 to |names|
      invariant FinishOrder(g, finish) && Elements(finish) == expanded
      invariant forall s :: s in names[..k] ==> s in expanded
      invariant forall n :: n in expanded ==> PulledIn(g, selected, n)
      invariant involving.None?
    {
      assert names[k] in selected;
      ghost var before := expanded;
      involving, expanded, finish := Expand(g, names[k], expanded, {}, [], finish);
      if involving.Some? {
        PulledFrom(g, selected, names[k]);
        return;
      }
      PulledFrom(g, selected, names[k]);
    }
    assert names[..|names|] == names;
    ClosureExpanded(g, selected, expanded, finish);
  }

  lemma NothingFinished(g: Graph<string>)
    ensures FinishOrder(g, []) && Elements<string>([]) == {}
  {
  }

  lemma PulledFrom(g: Graph<string>, selected: set<string>, start: string)
    requires start in selected
    ensures forall n :: Reaches(g, start, n) ==> PulledIn(g, selected, n)
  {
  }

  lemma ClosureExpanded(g: Graph<string>, selected: set<string>, expanded: set<string>, finish: seq<string>)
    requires FinishOrder(g, finish) && Elements(finish) == expanded && selected <= expanded
    ensures forall n :: PulledIn(g, selected, n) ==> n in expanded
  {
    forall n | PulledIn(g, selected, n) ensures n in expanded {
      var s :| s in selected && Reaches(g, s, n);
      FinishedReach(g, finish, s, n);
    }
  }

  // --- Kahn's algorithm -----------------------------------------------------

  /** How many entries of a dependency list are not yet placed. */
  ghost function Unplaced(deps: seq<string>, placed: seq<string>): nat {
    if deps == [] then 0
    else (if deps[0] in placed then 0 else 1) + Unplaced(deps[1..], placed)
  }

  lemma {:induction false} UnplacedZero(deps: seq<string>, placed: seq<string>)
    ensures Unplaced(deps, placed) == 0 <==> forall d :: d in deps ==> d in placed
  {
    if deps != [] {
      UnplacedZero(deps[1..], placed);
      assert deps == [deps[0]] + deps[1..];
    }
  }

  lemma {:induction false} UnplacedAppend(deps: seq<string>, placed: seq<string>, n: string)
    requires n !in placed
    ensures Unplaced(deps, placed + [n]) + multiset(deps)[n] == Unplaced(deps, placed)
  {
    if deps != [] {
      UnplacedAppend(deps[1..], placed, n);
      assert deps == [deps[0]] + deps[1..];
    }
  }

  ghost function DependentsOf(dependents: map<string, seq<string>>, d: string): seq<string> {
    if d in dependents then dependents[d] else []
  }

  /** dependents inverts the dependency lists of the given checks, with multiplicity. */
  ghost predicate Inverts(g: Graph<string>, of: set<string>, dependents: map<string, seq<string>>) {
    forall d, n :: multiset(DependentsOf(dependents, d))[n] == if n in of && n in g then multiset(g[n])[d] else 0
  }

  /** now extends was by the reverse edges of name over deps. */
  ghost predicate Linked(was: map<string, seq<string>>, now: map<string, seq<string>>, name: string,
                         deps: seq<string>) {
    forall d, n :: multiset(DependentsOf(now, d))[n] ==
      (multiset(DependentsOf(was, d))[n] + if n == name then multiset(deps)[d] else 0)
  }

  lemma LinkOne(was: map<string, seq<string>>, now: map<string, seq<string>>, name: string, deps: seq<string>,
                dep: string)
    requires Linked(was, now, name, deps)
    ensures Linked(was, now[dep := DependentsOf(now, dep) + [name]], name, deps + [dep])
  {
    var next := now[dep := DependentsOf(now, dep) + [name]];
    forall d, n
      ensures multiset(DependentsOf(next, d))[n] ==
        (multiset(DependentsOf(was, d))[n] + if n == name then multiset(deps + [dep])[d] else 0)
    {
      DependentsNext(now, name, dep, d);
      LinkOneAt(DependentsOf(next, d), DependentsOf(now, d), name, deps, dep, d, n);
    }
  }

  lemma DependentsNext(now: map<string, seq<string>>, name: string, dep: string, d: string)
    ensures DependentsOf(now[dep := DependentsOf(now, dep) + [name]], d) ==
      if d == dep then DependentsOf(now, d) + [name] else DependentsOf(now, d)
  {
  }

  /** One more reverse edge from dep to name, counted at d. */
  lemma LinkOneAt(next: seq<string>, now: seq<string>, name: string, deps: seq<string>, dep: string, d: string,
                  n: string)
    requires next == if d == dep then now + [name] else now
    ensures multiset(next)[n] + (if n == name then multiset(deps)[d] else 0) ==
      multiset(now)[n] + (if n == name then multiset(deps + [dep])[d] else 0)
  {
    OneMoreIn(now, name, n);
    OneMoreIn(deps, dep, d);
  }

  lemma OneMoreIn(s: seq<string>, x: string, y: string)
    ensures multiset(s + [x])[y] == multiset(s)[y] + if x == y then 1 else 0
  {
  }

  lemma LinkedInverts(g: Graph<string>, of: set<string>, was: map<string, seq<string>>, now: map<string, seq<string>>,
                      name: string)
    requires name in g && name !in of
    requires Inverts(g, of, was) && Linked(was, now, name, g[name])
    ensures Inverts(g, of + {name}, now)
  {
  }

  /** The inner loop over one check's dependencies. */
  method CountOne(g: Graph<string>, expanded: set<string>, name: string, inDegree: map<string, nat>,
                  dependents: map<string, seq<string>>)
    returns (inDegree': map<string, nat>, dependents': map<string, seq<string>>)
    requires name in g && name in inDegree && inDegree[name] == 0
    requires forall d :: d in g[name] ==> d in expanded
    ensures inDegree' == inDegree[name := |g[name]|]
    ensures Linked(dependents, dependents', name, g[name])
  {
    var deps := g[name];
    inDegree', dependents' := inDegree, dependents;
    for k := 0 to |deps|
      invariant inDegree' == inDegree[name := k]
      invariant Linked(dependents, dependents', name, deps[..k])
    {
      var dep := deps[k];
      assert deps[..k + 1] == deps[..k] + [dep];
      if dep in expanded {
        inDegree' := inDegree'[name := inDegree'[name] + 1];
        LinkOne(dependents, dependents', name, deps[..k], dep);
        dependents' := dependents'[dep := (if dep in dependents' then dependents'[dep] else []) + [name]];
      }
    }
    assert deps[..|deps|] == deps;
  }

  /** Fills the in-degrees and the reverse adjacency of the pulled-in checks. */
  method CountDegrees(g: Graph<string>, expanded: set<string>)
    returns (inDegree: map<string, nat>, dependents: map<string, seq<string>>)
    requires expanded <= g.Keys && forall n, d :: n in expanded && d in g[n] ==> d in expanded
    ensures inDegree.Keys == expanded && forall n :: n in expanded ==> inDegree[n] == |g[n]|
    ensures Inverts(g, expanded, dependents)
  {
    inDegree, dependents := map n | n in expanded :: 0, map[];
    var todo := expanded;
    while todo != {}
      invariant todo <= expanded && inDegree.Keys == expanded
      invariant forall n :: n in expanded ==> inDegree[n] == (if n in todo then 0 else |g[n]|)
      invariant Inverts(g, expanded - todo, dependents)
    {
      var name :| name in todo;
      ghost var was, counted := dependents, expanded - todo;
      inDegree, dependents := CountOne(g, expanded, name, inDegree, dependents);
      LinkedInverts(g, counted, was, dependents, name);
      todo := todo - {name};
      assert expanded - todo == counted + {name};
    }
    assert expanded - todo == expanded;
  }

  /** The in-degrees after placing n: what its dependents lists account for is gone. */
  lemma PlacedOnce(g: Graph<string>, expanded: set<string>, o: seq<string>, dependents: map<string, seq<string>>,
                   node: string, n: string)
    requires Inverts(g, expanded, dependents) && expanded <= g.Keys && n in expanded && node !in o
    ensures Unplaced(g[n], o + [node]) + multiset(DependentsOf(dependents, node))[n] == Unplaced(g[n], o)
  {
    UnplacedAppend(g[n], o, node);
  }

  lemma GreedyPlaced(g: Graph<string>, expanded: set<string>, o: seq<string>, n: string)
    requires Greedy(g, expanded, o) && n in o
    ensures n in g && n in expanded && Unplaced(g[n], o) == 0
  {
    var i :| 0 <= i < |o| && o[i] == n;
    assert Ready(g, expanded, o[..i], o[i]);
    UnplacedZero(g[n], o);
  }

  lemma GreedyAppend(g: Graph<string>, expanded: set<string>, o: seq<string>, node: string)
    requires Greedy(g, expanded, o) && Ready(g, expanded, o, node)
    requires forall n :: Ready(g, expanded, o, n) ==> !Less(n, node)
    ensures Greedy(g, expanded, o + [node])
  {
    var h := o + [node];
    forall i | 0 <= i < |h|
      ensures Ready(g, expanded, h[..i], h[i]) && forall n :: Ready(g, expanded, h[..i], n) ==> !Less(n, h[i])
    {
      assert h[..i] == o[..i];
      if i == |o| { assert o[..i] == o; }
    }
  }

  lemma GreedyDistinct(g: Graph<string>, expanded: set<string>, o: seq<string>)
    requires Greedy(g, expanded, o)
    ensures Distinct(o)
  {
    forall i, j | 0 <= i < j < |o| ensures o[i] != o[j] {
      assert Ready(g, expanded, o[..j], o[j]);
      assert o[..j][i] == o[i];
    }
  }

  /** In-degrees count unplaced dependencies, short of the already released ones. */
  ghost predicate Owed(g: Graph<string>, expanded: set<string>, placed: seq<string>, released: seq<string>,
                       inDegree: map<string, nat>) {
    && expanded <= g.Keys && inDegree.Keys == expanded
    && forall n :: n in expanded ==> inDegree[n] + multiset(released)[n] == Unplaced(g[n], placed)
  }

  /** The queue is sorted and holds exactly the unplaced checks of in-degree zero. */
  ghost predicate Queued(placed: seq<string>, inDegree: map<string, nat>, queue: seq<string>) {
    && Ascending(queue) && Distinct(queue)
    && forall n :: n in queue <==> n in inDegree && n !in placed && inDegree[n] == 0
  }

  lemma QueuePush(placed: seq<string>, inDegree: map<string, nat>, queue: seq<string>, dep: string)
    requires Queued(placed, inDegree, queue)
    requires dep in inDegree && inDegree[dep] == 1 && dep !in placed
    ensures Queued(placed, inDegree[dep := 0], Sort(queue + [dep]))
  {
    SortElements(queue + [dep]);
    SortDistinct(queue + [dep]);
  }

  /** Releasing all of node's dependents turns the in-degrees into those after placing it. */
  lemma ReleaseAll(g: Graph<string>, expanded: set<string>, placed: seq<string>, node: string,
                   dependents: map<string, seq<string>>, deps: seq<string>)
    requires Inverts(g, expanded, dependents) && expanded <= g.Keys && node !in placed
    requires multiset(deps) == multiset(DependentsOf(dependents, node))
    ensures forall n :: n in deps ==> n in expanded
    ensures forall n :: n in expanded ==> multiset(deps)[n] <= Unplaced(g[n], placed)
    ensures forall inDegree ::
      Owed(g, expanded, placed, deps, inDegree) ==> Owed(g, expanded, placed + [node], [], inDegree)
  {
    forall n | n in expanded
      ensures Unplaced(g[n], placed + [node]) + multiset(deps)[n] == Unplaced(g[n], placed)
    {
      PlacedOnce(g, expanded, placed, dependents, node, n);
    }
    forall n | n in deps ensures n in expanded {
      assert multiset(deps)[n] > 0;
    }
  }

  lemma ReleaseStep(g: Graph<string>, expanded: set<string>, placed: seq<string>, deps: seq<string>, j: nat,
                    inDegree: map<string, nat>)
    requires j < |deps| && Owed(g, expanded, placed, deps[..j], inDegree)
    requires forall n :: n in deps ==> n in expanded
    requires forall n :: n in expanded ==> multiset(deps)[n] <= Unplaced(g[n], placed)
    ensures deps[j] in expanded && inDegree[deps[j]] > 0
    ensures Owed(g, expanded, placed, deps[..j + 1], inDegree[deps[j] := inDegree[deps[j]] - 1])
  {
    var d := deps[j];
    ReleaseCounts(deps, j);
    assert d in deps;
    hide Unplaced;
    assert inDegree[d] + multiset(deps[..j])[d] == Unplaced(g[d], placed);
  }

  lemma ReleaseCounts(deps: seq<string>, j: nat)
    requires j < |deps|
    ensures forall n :: multiset(deps[..j + 1])[n] == multiset(deps[..j])[n] + if n == deps[j] then 1 else 0
    ensures multiset(deps)[deps[j]] >= multiset(deps[..j])[deps[j]] + 1
  {
    assert deps[..j + 1] == deps[..j] + [deps[j]];
    assert deps == deps[..j + 1] + deps[j + 1..];
  }

  /** One decrement of the release loop. */
  method ReleaseOne(g: Graph<string>, expanded: set<string>, ghost placed: seq<string>, ghost node: string,
                    deps: seq<string>, j: nat, inDegree: map<string, nat>, queue: seq<string>)
    returns (inDegree': map<string, nat>, queue': seq<string>)
    requires Greedy(g, expanded, placed + [node])
    requires j < |deps| && Owed(g, expanded, placed, deps[..j], inDegree) && Queued(placed + [node], inDegree, queue)
    requires forall n :: n in deps ==> n in expanded
    requires forall n :: n in expanded ==> multiset(deps)[n] <= Unplaced(g[n], placed)
    ensures Owed(g, expanded, placed, deps[..j + 1], inDegree') && Queued(placed + [node], inDegree', queue')
  {
    var dep := deps[j];
    ReleaseStep(g, expanded, placed, deps, j, inDegree);
    ReleasedUnplaced(g, expanded, placed, node, dep);
    inDegree', queue' := inDegree[dep := inDegree[dep] - 1], queue;
    if inDegree'[dep] == 0 {
      QueuePush(placed + [node], inDegree, queue, dep);
      queue' := Sort(queue' + [dep]);
    }
  }

  /** Decrements the in-degree of every dependent of node, queueing those that reach zero. */
  method Release(g: Graph<string>, expanded: set<string>, ghost placed: seq<string>, node: string,
                 dependents: map<string, seq<string>>, inDegree: map<string, nat>, queue: seq<string>)
    returns (inDegree': map<string, nat>, queue': seq<string>)
    requires Inverts(g, expanded, dependents)
    requires node !in placed && Greedy(g, expanded, placed + [node])
    requires Owed(g, expanded, placed, [], inDegree) && Queued(placed + [node], inDegree, queue)
    ensures Owed(g, expanded, placed + [node], [], inDegree') && Queued(placed + [node], inDegree', queue')
  {
    inDegree', queue' := inDegree, queue;
    var deps := Sort(if node in dependents then dependents[node] else []);
    ReleaseAll(g, expanded, placed, node, dependents, deps);
    assert deps[..0] == [];
    for j := 0 to |deps|
      invariant Owed(g, expanded, placed, deps[..j], inDegree')
      invariant Queued(placed + [node], inDegree', queue')
    {
      inDegree', queue' := ReleaseOne(g, expanded, placed, node, deps, j, inDegree', queue');
    }
    assert deps[..|deps|] == deps;
  }

  /** A check that still owes a dependency has not been placed. */
  lemma ReleasedUnplaced(g: Graph<string>, expanded: set<string>, placed: seq<string>, node: string, dep: string)
    requires Greedy(g, expanded, placed + [node])
    requires dep in g && Unplaced(g[dep], placed) > 0
    ensures dep !in placed + [node]
  {
    var o := placed + [node];
    if dep in o {
      var i :| 0 <= i < |o| && o[i] == dep;
      assert Ready(g, expanded, o[..i], o[i]);
      UnplacedZero(g[dep], placed);
    }
  }

  lemma FinishedClosed(g: Graph<string>, finish: seq<string>)
    requires FinishOrder(g, finish)
    ensures Elements(finish) <= g.Keys
    ensures forall n, d :: n in Elements(finish) && d in g[n] ==> d in Elements(finish)
  {
    forall n, d | n in Elements(finish) && n in g && d in g[n] ensures d in Elements(finish) {
      var i :| 0 <= i < |finish| && finish[i] == n;
      assert d in finish[..i];
    }
  }

  lemma {:induction false} UnplacedNone(deps: seq<string>)
    ensures Unplaced(deps, []) == |deps|
  {
    if deps != [] { UnplacedNone(deps[1..]); }
  }

  /** The queue holds exactly the ready checks, so its head is the least of them. */
  lemma QueueHead(g: Graph<string>, expanded: set<string>, o: seq<string>, queue: seq<string>,
                  inDegree: map<string, nat>)
    requires Owed(g, expanded, o, [], inDegree) && Queued(o, inDegree, queue) && queue != []
    ensures Ready(g, expanded, o, queue[0])
    ensures forall n :: Ready(g, expanded, o, n) ==> !Less(n, queue[0])
  {
    assert queue[0] in queue;
    UnplacedZero(g[queue[0]], o);
    forall n | Ready(g, expanded, o, n) ensures !Less(n, queue[0]) {
      UnplacedZero(g[n], o);
      assert n in queue;
      var i :| 0 <= i < |queue| && queue[i] == n;
      LessIrreflexive(n);
    }
  }

  lemma QueuePop(placed: seq<string>, inDegree: map<string, nat>, queue: seq<string>)
    requires Queued(placed, inDegree, queue) && queue != []
    ensures Queued(placed + [queue[0]], inDegree, queue[1..])
  {
    assert queue == [queue[0]] + queue[1..];
  }

  /** While some pulled-in check is unplaced, the one that finished first is ready. */
  lemma {:induction false} AllPlaced(g: Graph<string>, finish: seq<string>, o: seq<string>, k: nat)
    requires FinishOrder(g, finish) && k <= |finish|
    requires forall n :: n in finish && Unplaced(g[n], o) == 0 ==> n in o
    ensures forall i :: 0 <= i < k ==> finish[i] in o
  {
    if k > 0 {
      AllPlaced(g, finish, o, k - 1);
      forall d | d in g[finish[k - 1]] ensures d in o {
        assert d in finish[..k - 1];
      }
      UnplacedZero(g[finish[k - 1]], o);
    }
  }

  /** Kahn's algorithm: always place the first of the sorted queue. */
  method Kahn(g: Graph<string>, expanded: set<string>, ghost finish: seq<string>) returns (order: seq<string>)
    requires FinishOrder(g, finish) && Elements(finish) == expanded
    ensures Greedy(g, expanded, order) && Elements(order) == expanded
  {
    FinishedClosed(g, finish);
    var inDegree, dependents := CountDegrees(g, expanded);
    forall n | n in expanded ensures inDegree[n] == Unplaced(g[n], []) {
      UnplacedNone(g[n]);
    }
    var queue := SortedKeys(set n | n in expanded && inDegree[n] == 0);
    order := [];
    assert expanded == expanded - Elements([]);
    ghost var left := expanded;
    while queue != []
      invariant Greedy(g, expanded, order) && left == expanded - Elements(order)
      invariant Owed(g, expanded, order, [], inDegree) && Queued(order, inDegree, queue)
      decreases left
    {
      var node := queue[0];
      QueueHead(g, expanded, order, queue, inDegree);
      GreedyAppend(g, expanded, order, node);
      QueuePop(order, inDegree, queue);
      ElementsAppend(order, node);
      assert node in left;
      LeftOver(expanded, order, node);
      ghost var placed := order;
      queue, order, left := queue[1..], order + [node], left - {node};
      inDegree, queue := Release(g, expanded, placed, node, dependents, inDegree, queue);
    }
    assert forall n :: n in finish ==> n in expanded;
    AllPlaced(g, finish, order, |finish|);
    PlacedIsExpanded(g, expanded, finish, order);
  }

  lemma LeftOver(expanded: set<string>, order: seq<string>, node: string)
    requires Elements(order + [node]) == Elements(order) + {node}
    ensures expanded - Elements(order + [node]) == expanded - Elements(order) - {node}
  {
  }

  lemma PlacedIsExpanded(g: Graph<string>, expanded: set<string>, finish: seq<string>, order: seq<string>)
    requires Greedy(g, expanded, order) && Elements(finish) == expanded && forall n :: n in finish ==> n in order
    ensures Elements(order) == expanded
  {
    forall n | n in order ensures n in expanded {
      GreedyPlaced(g, expanded, order, n);
    }
  }

  // --- The greedy order is the least dependency order -------------------------

  lemma GreedyIsDependencyOrder(g: Graph<string>, pulled: set<string>, selected: set<string>, o: seq<string>)
    requires Greedy(g, pulled, o) && Elements(o) == pulled
    requires forall n :: n in pulled <==> PulledIn(g, selected, n)
    ensures DependencyOrder(g, selected, o)
  {
    GreedyDistinct(g, pulled, o);
    forall n ensures n in o <==> PulledIn(g, selected, n) {
      assert n in o <==> n in Elements(o);
    }
    forall i | 0 <= i < |o| ensures o[i] in g && forall d :: d in g[o[i]] ==> d in o[..i] {
      assert Ready(g, pulled, o[..i], o[i]);
    }
  }

  /** Where another dependency order first departs from the greedy one, its name is
      larger: it was ready there too, and the greedy order took the least. */
  lemma GreedyIsLeast(g: Graph<string>, pulled: set<string>, selected: set<string>, o: seq<string>, q: seq<string>)
    returns (k: nat)
    requires Greedy(g, pulled, o) && Elements(o) == pulled
    requires forall n :: n in pulled <==> PulledIn(g, selected, n)
    requires DependencyOrder(g, selected, q) && q != o
    ensures PartsBelow(o, q, k)
  {
    GreedyIsDependencyOrder(g, pulled, selected, o);
    DistinctCount(o);
    DistinctCount(q);
    assert Elements(q) == Elements(o);
    k := 0;
    while k < |o| && o[k] == q[k]
      invariant k <= |o| && o[..k] == q[..k]
    {
      k := k + 1;
    }
    assert o[..|o|] == o && q[..|q|] == q;
    assert k < |o|;
    assert q[k] !in q[..k];
    assert q[k] in q;
    assert Ready(g, pulled, o[..k], q[k]);
    LessTotal(o[k], q[k]);
  }

  /** resolveCheckOrder. It fails exactly when the selection pulls in a cycle, naming
      a check on one; otherwise the result is the least dependency order of the
      closure, whatever order the map ranges visit their keys in. */
  method ResolveCheckOrder(g: Graph<string>, selected: set<string>) returns (r: Result<seq<string>, string>)
    requires Closed(g) && selected <= g.Keys
    ensures r.Failure? <==> PullsInCycle(g, selected)
    ensures r.Failure? ==> PulledIn(g, selected, r.error) && OnCycle(g, r.error)
    ensures r.Success? ==> LeastDependencyOrder(g, selected, r.value)
  {
    var involving, expanded, finish := ExpandAll(g, selected);
    if involving.Some? {
      return Failure(involving.value);
    }
    var order := Kahn(g, expanded, finish);
    DistinctOrder(g, expanded, order);
    if |order| != |expanded| {
      assert false; // the shortfall branch: a cycle never survives the expansion
    }
    forall n | PulledIn(g, selected, n) ensures !OnCycle(g, n) {
      var s :| s in selected && Reaches(g, s, n);
      WalkStart(g, s);
      assert PulledIn(g, selected, s) && s in Elements(finish);
      FinishedReach(g, finish, s, n);
    }
    GreedyIsDependencyOrder(g, expanded, selected, order);
    forall q | DependencyOrder(g, selected, q) && q != order ensures exists k: nat :: PartsBelow(order, q, k) {
      var k := GreedyIsLeast(g, expanded, selected, order, q);
    }
    return Success(order);
  }

  lemma DistinctOrder(g: Graph<string>, expanded: set<string>, o: seq<string>)
    requires Greedy(g, expanded, o) && Elements(o) == expanded
    ensures |o| == |expanded|
  {
    GreedyDistinct(g, expanded, o);
    DistinctCount(o);
  }

  /** No two orders qualify, so the result does not depend on the iteration order. */
  lemma LeastOrderUnique(g: Graph<string>, selected: set<string>, o: seq<string>, q: seq<string>)
    requires LeastDependencyOrder(g, selected, o) && LeastDependencyOrder(g, selected, q)
    ensures o == q
  {
    if o != q {
      var k: nat :| PartsBelow(o, q, k);
      var m: nat :| PartsBelow(q, o, m);
      if k < m {
        assert q[..m][k] == o[..m][k];
        LessIrreflexive(o[k]);
      } else if m < k {
        assert q[..k][m] == o[..k][m];
        LessIrreflexive(o[m]);
      } else {
        LessAsymmetric(o[k], q[k]);
      }
    }
  }
}
