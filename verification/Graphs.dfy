/** Reference graphs: what a walk, a cycle and a finishing order are. Both the
    check dependencies and the constraint nesting are read through this module. */
module Graphs {
  import opened Names

  /** Each node's outgoing references, in declaration order, repeats allowed. */
  type Graph<N> = map<N, seq<N>>

  ghost predicate Closed<N>(g: Graph<N>) {
    forall n, d :: n in g && d in g[n] ==> d in g
  }

  ghost predicate IsWalk<N>(g: Graph<N>, p: seq<N>) {
    p != [] && forall i :: 0 <= i < |p| - 1 ==> p[i] in g && p[i + 1] in g[p[i]]
  }

  ghost predicate WalkFromTo<N>(g: Graph<N>, p: seq<N>, a: N, b: N) {
    IsWalk(g, p) && p[0] == a && p[|p| - 1] == b
  }

  ghost predicate Reaches<N(!new)>(g: Graph<N>, a: N, b: N) {
    exists p :: WalkFromTo(g, p, a, b)
  }

  /** A walk of at least one edge that ends where it started. */
  ghost predicate IsCycle<N>(g: Graph<N>, p: seq<N>) {
    |p| >= 2 && IsWalk(g, p) && p[0] == p[|p| - 1]
  }

  ghost predicate OnCycle<N(!new)>(g: Graph<N>, n: N) {
    exists p :: IsCycle(g, p) && p[0] == n
  }

  ghost predicate Acyclic<N(!new)>(g: Graph<N>) {
    forall p :: !IsCycle(g, p)
  }

  /** An order in which depth-first search finishes nodes: every reference of a
      node stands before it. */
  ghost predicate FinishOrder<N(!new)>(g: Graph<N>, f: seq<N>) {
    && Distinct(f)
    && forall i :: 0 <= i < |f| ==> f[i] in g && forall d :: d in g[f[i]] ==> d in f[..i]
  }

  lemma WalkTail<N(!new)>(g: Graph<N>, p: seq<N>)
    requires IsWalk(g, p) && |p| > 1
    ensures WalkFromTo(g, p[1..], p[1], p[|p| - 1]) && p[0] in g && p[1] in g[p[0]]
  {
    var t := p[1..];
    forall k | 0 <= k < |t| - 1 ensures t[k] in g && t[k + 1] in g[t[k]] {
      assert t[k] == p[k + 1] && t[k + 1] == p[k + 2];
    }
  }

  lemma WalkStart<N(!new)>(g: Graph<N>, a: N)
    ensures Reaches(g, a, a)
  {
    assert WalkFromTo(g, [a], a, a);
  }

  lemma ReachesExtend<N(!new)>(g: Graph<N>, a: N, b: N, c: N)
    requires Reaches(g, a, b) && b in g && c in g[b]
    ensures Reaches(g, a, c)
  {
    var p :| WalkFromTo(g, p, a, b);
    assert WalkFromTo(g, p + [c], a, c);
  }

  lemma ReachesTransitive<N(!new)>(g: Graph<N>, a: N, b: N, c: N)
    requires Reaches(g, a, b) && Reaches(g, b, c)
    ensures Reaches(g, a, c)
  {
    var p :| WalkFromTo(g, p, a, b);
    var q :| WalkFromTo(g, q, b, c);
    var r := p + q[1..];
    forall i | 0 <= i < |r| - 1 ensures r[i] in g && r[i + 1] in g[r[i]] {
      if i >= |p| - 1 {
        assert r[i] == q[i - (|p| - 1)] && r[i + 1] == q[i - (|p| - 1) + 1];
      } else {
        assert r[i] == p[i] && r[i + 1] == p[i + 1];
      }
    }
    assert r[|r| - 1] == c;
    assert WalkFromTo(g, r, a, c);
  }

  lemma ReachesStep<N(!new)>(g: Graph<N>, a: N, b: N, c: N)
    requires a in g && b in g[a] && Reaches(g, b, c)
    ensures Reaches(g, a, c)
  {
    WalkStart(g, a);
    ReachesExtend(g, a, a, b);
    ReachesTransitive(g, a, b, c);
  }

  /** Following references from a finished node never leaves the finished nodes
      and moves strictly towards the front of the order. */
  lemma {:induction false} WalkDescends<N(!new)>(g: Graph<N>, f: seq<N>, p: seq<N>, i: nat) returns (k: nat)
    requires FinishOrder(g, f) && IsWalk(g, p)
    requires i < |f| && p[0] == f[i]
    ensures k < |f| && f[k] == p[|p| - 1]
    ensures |p| >= 2 ==> k < i
    ensures |p| == 1 ==> k == i
    decreases |p|
  {
    if |p| == 1 {
      k := i;
    } else {
      assert p[1] in f[..i];
      var j :| 0 <= j < i && f[j] == p[1];
      assert IsWalk(g, p[1..]) by {
        forall m | 0 <= m < |p[1..]| - 1
          ensures p[1..][m] in g && p[1..][m + 1] in g[p[1..][m]]
        {
          assert p[1..][m] == p[m + 1] && p[1..][m + 1] == p[m + 2];
        }
      }
      k := WalkDescends(g, f, p[1..], j);
    }
  }

  lemma FinishedReach<N(!new)>(g: Graph<N>, f: seq<N>, a: N, b: N)
    requires FinishOrder(g, f) && a in f && Reaches(g, a, b)
    ensures b in f && !OnCycle(g, b)
  {
    var p :| WalkFromTo(g, p, a, b);
    var i :| 0 <= i < |f| && f[i] == a;
    var k := WalkDescends(g, f, p, i);
    forall c | IsCycle(g, c) ensures c[0] != b {
      if c[0] == b {
        var m := WalkDescends(g, f, c, k);
        assert false;
      }
    }
  }

  /** Extending a finishing order by a node all of whose references it holds. */
  lemma FinishAppend<N(!new)>(g: Graph<N>, f: seq<N>, n: N)
    requires FinishOrder(g, f) && n in g && n !in f
    requires forall d :: d in g[n] ==> d in f
    ensures FinishOrder(g, f + [n])
    ensures Elements(f + [n]) == Elements(f) + {n}
  {
    ElementsAppend(f, n);
    var h := f + [n];
    forall i | 0 <= i < |h|
      ensures h[i] in g && forall d :: d in g[h[i]] ==> d in h[..i]
    {
      assert h[..i] == f[..i];
      if i == |f| { assert f[..i] == f; }
    }
  }

  /** The cycle closed by a walk that returns to one of its own nodes. */
  lemma CycleFromReturn<N(!new)>(g: Graph<N>, p: seq<N>, i: nat)
    requires IsWalk(g, p) && i < |p| - 1 && p[i] == p[|p| - 1]
    ensures IsCycle(g, p[i..])
  {
    var c := p[i..];
    forall m | 0 <= m < |c| - 1 ensures c[m] in g && c[m + 1] in g[c[m]] {
      assert c[m] == p[i + m] && c[m + 1] == p[i + m + 1];
    }
  }
}
