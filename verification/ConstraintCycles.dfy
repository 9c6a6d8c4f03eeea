/** checkConstraintCycles: the three-colour walk of the nesting graph. */
module ConstraintCycles {
  import opened Names
  import opened Graphs
  import opened Constraints

  datatype Color = White | Grey | Black

  /** The colours during the walk: the stack is grey, the finished nodes are black. */
  ghost predicate Coloring(cs: seq<Decl>, colors: seq<Color>, stack: seq<nat>, finish: seq<nat>) {
    && |colors| == |cs| && FinishOrder(References(cs), finish)
    && (forall k :: 0 <= k < |colors| ==>
          colors[k] == (if k in stack then Grey else if k in finish then Black else White))
    && (forall n :: n in stack ==> n < |cs| && n !in finish)
  }

  ghost predicate Colored(cs: seq<Decl>, color: array<Color>, stack: seq<nat>, finish: seq<nat>)
    reads color
  {
    Coloring(cs, color[..], stack, finish)
  }

  ghost function WhitesOf(colors: seq<Color>): set<int> {
    set k | 0 <= k < |colors| && colors[k] == White
  }

  ghost function Whites(color: array<Color>): set<int>
    reads color
  {
    WhitesOf(color[..])
  }

  /** A white node goes on the stack. */
  lemma GreyStep(cs: seq<Decl>, colors: seq<Color>, stack: seq<nat>, finish: seq<nat>, i: nat)
    requires Coloring(cs, colors, stack, finish) && i < |cs| && colors[i] == White
    ensures Coloring(cs, colors[i := Grey], stack + [i], finish)
    ensures WhitesOf(colors[i := Grey]) < WhitesOf(colors)
  {
    assert i in WhitesOf(colors) && i !in WhitesOf(colors[i := Grey]);
    assert i !in stack && i !in finish;
    hide FinishOrder;
    forall n | n in stack + [i] ensures n < |cs| && n !in finish {
    }
  }

  /** The node on top of the stack is finished once its references are. */
  lemma BlackStep(cs: seq<Decl>, colors: seq<Color>, stack: seq<nat>, finish: seq<nat>, i: nat)
    requires Coloring(cs, colors, stack + [i], finish) && i < |cs| && i !in stack
    requires forall d :: d in References(cs)[i] ==> d in finish
    ensures Coloring(cs, colors[i := Black], stack, finish + [i])
    ensures WhitesOf(colors[i := Black]) <= WhitesOf(colors)
  {
    assert i in stack + [i];
    FinishAppend(References(cs), finish, i);
    hide FinishOrder, References;
    forall n | n in stack ensures n < |cs| && n !in finish + [i] {
      assert n in stack + [i];
    }
  }

  /** The constraints nested in i up to position k are finished. */
  ghost predicate ResolvedFinished(cs: seq<Decl>, i: nat, k: nat, finish: seq<nat>) {
    i < |cs| &&
      forall j :: 0 <= j < k && j < |cs[i].Resolved()| && cs[i].Resolved()[j].Nested? ==>
        cs[i].Resolved()[j].idx in finish
  }

  lemma NothingResolved(cs: seq<Decl>, i: nat, finish: seq<nat>)
    requires i < |cs|
    ensures ResolvedFinished(cs, i, 0, finish)
  {
  }

  lemma ReferencesFinished(cs: seq<Decl>, i: nat, finish: seq<nat>)
    requires i < |cs| && ResolvedFinished(cs, i, |cs[i].Resolved()|, finish)
    ensures forall d :: d in References(cs)[i] ==> d in finish
  {
    forall d | d in References(cs)[i] ensures d in finish {
      assert Nested(d) in cs[i].Resolved();
    }
  }

  /** The reported path: a closed walk that meets each participant once and opens at
      the one declared first. */
  ghost predicate ReportedCycle(g: Graph<nat>, c: seq<nat>) {
    && IsCycle(g, c) && Distinct(c[..|c| - 1])
    && forall k :: 0 <= k < |c| ==> c[0] <= c[k]
  }

  /** The position of the first occurrence of n on the stack. */
  method EntryOf(stack: seq<nat>, n: nat) returns (entry: nat)
    requires n in stack
    ensures entry < |stack| && stack[entry] == n
  {
    entry := 0;
    while stack[entry] != n
      invariant entry < |stack| && n !in stack[..entry]
      decreases |stack| - entry
    {
      entry := entry + 1;
      assert stack == stack[..entry] + stack[entry..];
    }
  }

  /** The position of the participant declared first. */
  method OpenAt(cycle: seq<nat>) returns (open: nat)
    requires cycle != []
    ensures open < |cycle| && forall k :: 0 <= k < |cycle| ==> cycle[open] <= cycle[k]
  {
    open := 0;
    for ci := 0 to |cycle|
      invariant open < |cycle| && forall k :: 0 <= k < ci ==> cycle[open] <= cycle[k]
    {
      if cycle[ci] < cycle[open] { open := ci; }
    }
  }

  /** A closed walk rotated onto another of its nodes is a closed walk. */
  lemma RotatedCycle(g: Graph<nat>, cycle: seq<nat>, open: nat)
    requires cycle != [] && open < |cycle| && Distinct(cycle)
    requires IsWalk(g, cycle) && cycle[|cycle| - 1] in g && cycle[0] in g[cycle[|cycle| - 1]]
    requires forall k :: 0 <= k < |cycle| ==> cycle[open] <= cycle[k]
    ensures ReportedCycle(g, cycle[open..] + cycle[..open] + [cycle[open]])
  {
    var n := |cycle|;
    var c := cycle[open..] + cycle[..open] + [cycle[open]];
    forall k | 0 <= k < |c| - 1 ensures c[k] in g && c[k + 1] in g[c[k]] {
      if k < n - open {
        assert c[k] == cycle[open + k];
        if k + 1 == n - open { assert c[k + 1] == cycle[0]; }
      } else {
        assert c[k] == cycle[k - (n - open)] && c[k + 1] == cycle[k + 1 - (n - open)];
      }
    }
    var body := c[..|c| - 1];
    assert body == cycle[open..] + cycle[..open];
    forall i, j | 0 <= i < j < |body| ensures body[i] != body[j] {
      var i' := if i < n - open then open + i else i - (n - open);
      var j' := if j < n - open then open + j else j - (n - open);
      assert body[i] == cycle[i'] && body[j] == cycle[j'] && i' != j';
    }
  }

  /** The path of a reference from the top of the stack back to the grey idx. */
  method CyclePath(ghost g: Graph<nat>, stack: seq<nat>, idx: nat) returns (c: seq<nat>)
    requires IsWalk(g, stack) && Distinct(stack) && idx in stack
    requires stack[|stack| - 1] in g && idx in g[stack[|stack| - 1]]
    ensures ReportedCycle(g, c)
  {
    var entry := EntryOf(stack, idx);
    var loop := stack[entry..];
    SuffixWalk(g, stack, entry);
    var open := OpenAt(loop);
    RotatedCycle(g, loop, open);
    return loop[open..] + loop[..open] + [loop[open]];
  }

  /** The inner walk. Either every node under i finishes, or it panics with a cycle. */
  method Walk(cs: seq<Decl>, color: array<Color>, stack: seq<nat>, i: nat, ghost finish: seq<nat>)
    returns (cycle: Option<seq<nat>>, ghost finish': seq<nat>)
    requires Registered(cs) && i < |cs|
    requires Colored(cs, color, stack, finish) && color[i] == White
    requires IsWalk(References(cs), stack + [i]) && Distinct(stack + [i])
    modifies color
    ensures cycle.None? ==> finish <= finish' && i in finish'
    ensures cycle.None? ==> Colored(cs, color, stack, finish') && Whites(color) <= old(Whites(color))
    ensures cycle.Some? ==> ReportedCycle(References(cs), cycle.value)
    decreases Whites(color), 0
  {
    assert color.Length == |cs|;
    hide Coloring, FinishOrder, WhitesOf, IsWalk, ResolvedFinished, ReportedCycle;
    NothingResolved(cs, i, finish);
    GreyStep(cs, color[..], stack, finish, i);
    color[i] := Grey;
    assert color[..] == old(color[..])[i := Grey];
    var stack' := stack + [i];
    finish' := finish;
    var resolved := cs[i].Resolved();
    for k := 0 to |resolved|
      invariant finish <= finish' && Colored(cs, color, stack', finish') && Whites(color) < old(Whites(color))
      invariant ResolvedFinished(cs, i, k, finish')
    {
      cycle, finish' := VisitMember(cs, color, stack', i, k, finish');
      if cycle.Some? { return; }
    }
    ReferencesFinished(cs, i, finish');
    NotOnStack(stack, i);
    BlackStep(cs, color[..], stack, finish', i);
    ghost var colors := color[..];
    color[i] := Black;
    assert color[..] == colors[i := Black];
    finish' := finish' + [i];
    return None, finish';
  }

  lemma NotOnStack(stack: seq<nat>, i: nat)
    requires Distinct(stack + [i])
    ensures i !in stack
  {
    assert (stack + [i])[|stack|] == i;
    forall k | 0 <= k < |stack| ensures stack[k] != i {
      assert (stack + [i])[k] == stack[k];
    }
  }

  /** One turn of the walk's loop. */
  method VisitMember(cs: seq<Decl>, color: array<Color>, stack: seq<nat>, ghost i: nat, k: nat, ghost finish: seq<nat>)
    returns (cycle: Option<seq<nat>>, ghost finish': seq<nat>)
    requires Registered(cs) && i < |cs| && k < |cs[i].Resolved()| && ResolvedFinished(cs, i, k, finish)
    requires Colored(cs, color, stack, finish) && stack != [] && stack[|stack| - 1] == i
    requires IsWalk(References(cs), stack) && Distinct(stack)
    modifies color
    ensures cycle.None? ==> finish <= finish' && ResolvedFinished(cs, i, k + 1, finish')
    ensures cycle.None? ==> Colored(cs, color, stack, finish') && Whites(color) <= old(Whites(color))
    ensures cycle.Some? ==> ReportedCycle(References(cs), cycle.value)
    decreases Whites(color), 2
  {
    cycle, finish' := None, finish;
    var m := cs[stack[|stack| - 1]].Resolved()[k];
    if m.Nested? {
      cycle, finish' := Visit(cs, color, stack, i, m.idx, finish);
      if cycle.None? { PrefixKeeps(finish, finish'); }
    }
  }

  /** One reference of the walk: grey closes a cycle, white is walked, black is done. */
  method Visit(cs: seq<Decl>, color: array<Color>, stack: seq<nat>, ghost i: nat, idx: nat, ghost finish: seq<nat>)
    returns (cycle: Option<seq<nat>>, ghost finish': seq<nat>)
    requires Registered(cs) && i < |cs| && Nested(idx) in cs[i].Resolved()
    requires Colored(cs, color, stack, finish) && stack != [] && stack[|stack| - 1] == i
    requires IsWalk(References(cs), stack) && Distinct(stack)
    modifies color
    ensures cycle.None? ==> finish <= finish' && idx in finish'
    ensures cycle.None? ==> Colored(cs, color, stack, finish') && Whites(color) <= old(Whites(color))
    ensures cycle.Some? ==> ReportedCycle(References(cs), cycle.value)
    decreases Whites(color), 1
  {
    assert idx < |cs| && idx in References(cs)[i];
    finish' := finish;
    if color[idx] == Grey {
      var found := CyclePath(References(cs), stack, idx);
      return Some(found), finish';
    }
    if color[idx] == White {
      Descend(References(cs), stack, i, idx);
      cycle, finish' := Walk(cs, color, stack, idx, finish');
    } else {
      cycle := None;
    }
  }

  lemma SuffixWalk(g: Graph<nat>, stack: seq<nat>, entry: nat)
    requires IsWalk(g, stack) && Distinct(stack) && entry < |stack|
    ensures IsWalk(g, stack[entry..]) && Distinct(stack[entry..])
  {
    var loop := stack[entry..];
    forall m | 0 <= m < |loop| - 1 ensures loop[m] in g && loop[m + 1] in g[loop[m]] {
      assert loop[m] == stack[entry + m] && loop[m + 1] == stack[entry + m + 1];
    }
  }

  lemma Descend(g: Graph<nat>, stack: seq<nat>, i: nat, idx: nat)
    requires stack != [] && stack[|stack| - 1] == i && IsWalk(g, stack) && Distinct(stack)
    requires i in g && idx in g[i] && idx !in stack
    ensures IsWalk(g, stack + [idx]) && Distinct(stack + [idx])
  {
  }

  /** checkConstraintCycles: silent exactly on an acyclic nesting, and then every
      later recursion over the nesting has a rank to descend. */
  method CheckConstraintCycles(cs: seq<Decl>) returns (cycle: Option<seq<nat>>)
    requires Registered(cs)
    ensures cycle.None? <==> Acyclic(References(cs))
    ensures cycle.None? ==> Finishes(cs)
    ensures cycle.Some? ==> ReportedCycle(References(cs), cycle.value)
  {
    ghost var g := References(cs);
    var color := new Color[|cs|](_ => White);
    ghost var finish: seq<nat> := [];
    for i := 0 to |cs|
      invariant Colored(cs, color, [], finish)
      invariant forall k: nat :: k < i ==> k in finish
    {
      if color[i] == White {
        assert [] + [i] == [i];
        cycle, finish := Walk(cs, color, [], i, finish);
        if cycle.Some? { return; }
      }
    }
    assert FinishesBy(cs, finish);
    FinishesAcyclic(cs);
    return None;
  }

  lemma FinishesAcyclic(cs: seq<Decl>)
    requires Registered(cs) && Finishes(cs)
    ensures Acyclic(References(cs))
  {
    var g, f := References(cs), SomeOrder(cs);
    forall p | IsCycle(g, p) ensures false {
      assert p[0] in g && p[0] in f;
      WalkStart(g, p[0]);
      FinishedReach(g, f, p[0], p[0]);
      assert OnCycle(g, p[0]);
    }
  }
}
