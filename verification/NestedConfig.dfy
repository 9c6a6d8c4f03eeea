/** Nested configuration trees addressed by dotted paths. */
module NestedConfig {
  import opened Names

  /** A configuration value: a map, or anything else. */
  datatype Tree = Leaf(text: string) | Node(kids: Kids)
  type Kids = map<string, Tree>

  // --- Dotted paths ---------------------------------------------------------------------

  /** strings.Split on dots: always at least one part. */
  function Split(s: string): (r: seq<string>)
    ensures r != [] && forall i :: 0 <= i < |r| ==> DotFree(r[i])
  {
    if s == "" then [""]
    else
      var rest := Split(s[1..]);
      if s[0] == '.' then [""] + rest else [[s[0]] + rest[0]] + rest[1..]
  }

  predicate DotFree(key: string) {
    forall i :: 0 <= i < |key| ==> key[i] != '.'
  }

  predicate Parts(p: seq<string>) {
    p != [] && forall i :: 0 <= i < |p| ==> DotFree(p[i])
  }

  /** The dotted spelling of a path's parts. */
  function Dotted(p: seq<string>): string {
    Join(p, ".")
  }

  lemma {:induction false} SplitKey(key: string, rest: string)
    requires DotFree(key)
    ensures Split(key) == [key] && Split(key + "." + rest) == [key] + Split(rest)
    decreases |key|
  {
    if key == "" {
      assert "" + "." + rest == "." + rest && ("." + rest)[1..] == rest;
    } else {
      SplitKey(key[1..], rest);
      assert key == [key[0]] + key[1..];
      assert (key + "." + rest)[1..] == key[1..] + "." + rest;
    }
  }

  /** Dot-free parts come back from their spelling; so different paths are spelled apart. */
  lemma {:induction false} SplitDotted(p: seq<string>)
    requires Parts(p)
    ensures Split(Dotted(p)) == p
  {
    if |p| == 1 {
      SplitKey(p[0], "");
      assert [p[0]] == p;
    } else {
      SplitDotted(p[1..]);
      SplitKey(p[0], Dotted(p[1..]));
      assert p == [p[0]] + p[1..];
    }
  }

  // --- What the operations do, on values --------------------------------------------------

  function Get(m: Kids, p: seq<string>): Option<Tree>
    requires p != []
    decreases |p|
  {
    if p[0] !in m then None
    else if |p| == 1 then Some(m[p[0]])
    else if m[p[0]].Leaf? then None
    else Get(m[p[0]].kids, p[1..])
  }

  /** The map under a key; an empty one where there is no map. */
  function Under(m: Kids, key: string): Kids {
    if key in m && m[key].Node? then m[key].kids else map[]
  }

  function Set(m: Kids, p: seq<string>, value: Tree): Kids
    requires p != []
    decreases |p|
  {
    if |p| == 1 then m[p[0] := value] else m[p[0] := Node(Set(Under(m, p[0]), p[1..], value))]
  }

  /** Removes what is at the path, if anything, and the maps that are left empty on the way. */
  function Delete(m: Kids, p: seq<string>): Kids
    requires p != []
    decreases |p|
  {
    if |p| == 1 then m - {p[0]}
    else if Get(m, p).None? then m
    else
      var child := Delete(m[p[0]].kids, p[1..]);
      if child == map[] then m - {p[0]} else m[p[0] := Node(child)]
  }

  // --- Laws -----------------------------------------------------------------------------------

  lemma {:induction false} GetSet(m: Kids, p: seq<string>, value: Tree)
    requires p != []
    ensures Get(Set(m, p, value), p) == Some(value)
    decreases |p|
  {
    if |p| > 1 { GetSet(Under(m, p[0]), p[1..], value); }
  }

  /** Neither path leads through the other. */
  predicate Unrelated(p: seq<string>, q: seq<string>) {
    !(p <= q) && !(q <= p)
  }

  lemma UnrelatedTails(p: seq<string>, q: seq<string>)
    requires p != [] && q != [] && p[0] == q[0] && Unrelated(p, q)
    ensures |p| > 1 && |q| > 1 && Unrelated(p[1..], q[1..])
  {
    assert p == [p[0]] + p[1..] && q == [q[0]] + q[1..];
  }

  lemma {:induction false} SetElsewhere(m: Kids, p: seq<string>, q: seq<string>, value: Tree)
    requires p != [] && q != [] && Unrelated(p, q)
    ensures Get(Set(m, p, value), q) == Get(m, q)
    decreases |p|
  {
    if p[0] == q[0] {
      UnrelatedTails(p, q);
      SetElsewhere(Under(m, p[0]), p[1..], q[1..], value);
      if !(p[0] in m && m[p[0]].Node?) { NothingUnder(q[1..]); }
    }
  }

  lemma NothingUnder(q: seq<string>)
    requires q != []
    ensures Get(map[], q).None?
  {
  }

  lemma {:induction false} GetDeleted(m: Kids, p: seq<string>)
    requires p != []
    ensures Get(Delete(m, p), p).None?
    ensures Get(m, p).None? ==> Delete(m, p) == m
    decreases |p|
  {
    if |p| == 1 {
      if p[0] !in m { assert m - {p[0]} == m; }
    } else if Get(m, p).Some? {
      GetDeleted(m[p[0]].kids, p[1..]);
    }
  }

  lemma {:induction false} DeleteElsewhere(m: Kids, p: seq<string>, q: seq<string>)
    requires p != [] && q != [] && Unrelated(p, q)
    ensures Get(Delete(m, p), q) == Get(m, q)
    decreases |p|
  {
    if |p| > 1 && Get(m, p).Some? && p[0] == q[0] {
      UnrelatedTails(p, q);
      DeleteElsewhere(m[p[0]].kids, p[1..], q[1..]);
      if Delete(m[p[0]].kids, p[1..]) == map[] { NothingUnder(q[1..]); }
    }
  }

  /** No map in it is empty. */
  predicate Full(t: Tree) {
    t.Leaf? || (t.kids != map[] && forall k :: k in t.kids ==> Full(t.kids[k]))
  }

  /** No map below the top is empty. */
  predicate NoEmptyBelow(m: Kids) {
    forall k :: k in m ==> Full(m[k])
  }

  lemma {:induction false} SetKeepsFull(m: Kids, p: seq<string>, value: Tree)
    requires p != [] && NoEmptyBelow(m) && Full(value)
    ensures NoEmptyBelow(Set(m, p, value)) && Set(m, p, value) != map[]
    decreases |p|
  {
    var r := Set(m, p, value);
    assert p[0] in r;
    if |p| > 1 { SetKeepsFull(Under(m, p[0]), p[1..], value); }
    assert forall k :: k in m && k != p[0] ==> r[k] == m[k];
  }

  lemma {:induction false} DeleteKeepsFull(m: Kids, p: seq<string>)
    requires p != [] && NoEmptyBelow(m)
    ensures NoEmptyBelow(Delete(m, p))
    decreases |p|
  {
    if |p| > 1 && Get(m, p).Some? {
      assert Full(m[p[0]]);
      DeleteKeepsFull(m[p[0]].kids, p[1..]);
    }
  }

  /** The way to p: on it, nothing or maps that hold something; at its end, nothing. */
  ghost predicate FreshPath(m: Kids, p: seq<string>)
    requires p != []
    decreases |p|
  {
    if |p| == 1 then p[0] !in m
    else p[0] in m ==> m[p[0]].Node? && m[p[0]].kids != map[] && FreshPath(m[p[0]].kids, p[1..])
  }

  /** Deleting undoes setting exactly on a fresh path: where something was already there,
      where a scalar was crossed and where an empty map stood, it does not. */
  lemma {:induction false} DeleteUndoesSet(m: Kids, p: seq<string>, value: Tree)
    requires p != []
    ensures Delete(Set(m, p, value), p) == m <==> FreshPath(m, p)
    decreases |p|
  {
    GetSet(m, p, value);
    var s := Set(m, p, value);
    if |p| == 1 {
      assert s - {p[0]} == m - {p[0]};
      if p[0] !in m { assert m - {p[0]} == m; }
    } else {
      var under := Under(m, p[0]);
      DeleteUndoesSet(under, p[1..], value);
      var child := Delete(Set(under, p[1..], value), p[1..]);
      assert s[p[0]] == Node(Set(under, p[1..], value));
      if p[0] !in m {
        FreshNowhere(p[1..]);
        assert s - {p[0]} == m;
      } else if child == map[] {
        assert p[0] !in s - {p[0]};
      } else {
        assert s[p[0] := Node(child)] == m[p[0] := Node(child)];
        if m[p[0]] == Node(child) { assert m[p[0] := Node(child)] == m; }
      }
    }
  }

  lemma {:induction false} FreshNowhere(p: seq<string>)
    requires p != []
    ensures FreshPath(map[], p)
  {
  }

  /** With no empty sub-maps, fresh means absent and past no scalar. */
  lemma {:induction false} FreshMeans(m: Kids, p: seq<string>)
    requires p != [] && NoEmptyBelow(m)
    ensures FreshPath(m, p) <==>
      Get(m, p).None? && forall n :: 0 < n < |p| ==> !(Get(m, p[..n]).Some? && Get(m, p[..n]).value.Leaf?)
    decreases |p|
  {
    if |p| > 1 && p[0] in m {
      assert p[..1] == [p[0]];
      assert Get(m, p[..1]) == Some(m[p[0]]);
      if m[p[0]].Node? {
        assert Full(m[p[0]]);
        FreshMeans(m[p[0]].kids, p[1..]);
        forall n | 0 < n < |p| - 1 ensures Get(m, p[..n + 1]) == Get(m[p[0]].kids, p[1..][..n]) {
          assert p[..n + 1][1..] == p[1..][..n];
        }
        forall n | 1 < n < |p| ensures Get(m, p[..n]) == Get(m[p[0]].kids, p[1..][..n - 1]) {
          assert p[..n][1..] == p[1..][..n - 1];
        }
      }
    } else if |p| > 1 {
      forall n | 0 < n < |p| ensures Get(m, p[..n]).None? {
        assert p[..n][0] == p[0];
      }
    }
  }

  /** nestedGet: a cursor moved down one part at a time. */
  method NestedGet(data: Kids, dotPath: string) returns (r: Option<Tree>)
    ensures r == Get(data, Split(dotPath))
  {
    var parts := Split(dotPath);
    var current := Node(data);
    for i := 0 to |parts| - 1
      invariant Get(data, parts) == if current.Node? then Get(current.kids, parts[i..]) else None
    {
      if !current.Node? { return None; }
      if parts[i] !in current.kids { return None; }
      assert parts[i..][1..] == parts[i + 1..];
      current := current.kids[parts[i]];
    }
    if !current.Node? { return None; }
    var last := parts[|parts| - 1];
    assert parts[|parts| - 1..] == [last];
    return if last in current.kids then Some(current.kids[last]) else None;
  }

  // --- Collecting the leaves ------------------------------------------------------------------

  ghost predicate LeafAt(m: Kids, p: seq<string>) {
    p != [] && Get(m, p).Some? && Get(m, p).value.Leaf?
  }

  /** How the recursion spells a path below a prefix: nothing is put before a key under the
      empty prefix, whether at the top or not. */
  function Spell(prefix: string, p: seq<string>): string
    requires p != []
    decreases |p|
  {
    var fullKey := if prefix == "" then p[0] else prefix + "." + p[0];
    if |p| == 1 then fullKey else Spell(fullKey, p[1..])
  }

  /** collectNestedKeys: one key for each leaf, in whatever order the ranges visit them. */
  method CollectNestedKeys(data: Tree, prefix: string) returns (keys: seq<string>, ghost paths: seq<seq<string>>)
    requires data.Node?
    ensures |keys| == |paths| && Distinct(paths)
    ensures forall p :: p in paths <==> LeafAt(data.kids, p)
    ensures forall i :: 0 <= i < |keys| ==> paths[i] != [] && keys[i] == Spell(prefix, paths[i])
    decreases data
  {
    hide Spell, Get, LeafFrom, Distinct;
    keys, paths := [], [];
    var todo := data.kids.Keys;
    ghost var seen: set<string> := {};
    NothingFrom(data.kids);
    while todo != {}
      invariant todo <= data.kids.Keys && seen == data.kids.Keys - todo
      invariant |keys| == |paths| && Distinct(paths)
      invariant forall p :: p in paths <==> LeafFrom(data.kids, p, seen)
      invariant forall i :: 0 <= i < |keys| ==> paths[i] != [] && keys[i] == Spell(prefix, paths[i])
    {
      var k :| k in todo;
      var fullKey := if prefix == "" then k else prefix + "." + k;
      if data.kids[k].Node? {
        ghost var below: seq<seq<string>>;
        var more;
        more, below := CollectNestedKeys(data.kids[k], fullKey);
        BelowKey(data.kids, k, below, paths, seen);
        SpellBelow(prefix, k, below, more);
        keys, paths := keys + more, paths + Prefixed(k, below);
      } else {
        LeafKey(data.kids, k, paths, seen);
        SpellOne(prefix, k);
        keys, paths := keys + [fullKey], paths + [[k]];
      }
      todo := todo - {k};
      seen := seen + {k};
    }
    LeafFromAll(data.kids);
    assert seen == data.kids.Keys;
  }

  /** A leaf path that starts with one of these keys. */
  ghost predicate LeafFrom(m: Kids, p: seq<string>, starts: set<string>) {
    LeafAt(m, p) && p[0] in starts
  }

  lemma NothingFrom(m: Kids)
    ensures forall p :: !LeafFrom(m, p, {})
    ensures Distinct<seq<string>>([])
  {
  }

  lemma LeafFromAll(m: Kids)
    ensures forall p :: LeafFrom(m, p, m.Keys) <==> LeafAt(m, p)
  {
  }

  lemma SpellOne(prefix: string, k: string)
    ensures Spell(prefix, [k]) == if prefix == "" then k else prefix + "." + k
  {
  }

  lemma DistinctConcat<T>(a: seq<T>, b: seq<T>)
    requires Distinct(a) && Distinct(b) && forall i, j :: 0 <= i < |a| && 0 <= j < |b| ==> a[i] != b[j]
    ensures Distinct(a + b)
  {
  }

  ghost function Prefixed(k: string, below: seq<seq<string>>): (r: seq<seq<string>>)
    ensures |r| == |below| && forall i :: 0 <= i < |r| ==> r[i] == [k] + below[i]
  {
    seq(|below|, i requires 0 <= i < |below| => [k] + below[i])
  }

  /** Adding the leaf paths below a key not seen yet keeps the paths distinct. */
  lemma BelowKey(m: Kids, k: string, below: seq<seq<string>>, paths: seq<seq<string>>, seen: set<string>)
    requires k in m && m[k].Node? && Distinct(below) && Distinct(paths) && k !in seen
    requires forall p :: p in below <==> LeafAt(m[k].kids, p)
    requires forall p :: p in paths <==> LeafFrom(m, p, seen)
    ensures Distinct(paths + Prefixed(k, below))
    ensures forall p :: p in paths + Prefixed(k, below) <==> LeafFrom(m, p, seen + {k})
  {
    var more := Prefixed(k, below);
    forall i, j | 0 <= i < j < |more| ensures more[i] != more[j] {
      assert more[i][1..] == below[i] && more[j][1..] == below[j];
    }
    forall p | p in more ensures LeafFrom(m, p, {k}) {
      var i :| 0 <= i < |more| && more[i] == p;
      assert p[1..] == below[i];
      assert LeafAt(m[k].kids, below[i]);
    }
    forall p | LeafFrom(m, p, {k}) ensures p in more {
      assert |p| > 1;
      assert p[1..] in below;
      var i :| 0 <= i < |below| && below[i] == p[1..];
      assert more[i] == p;
    }
    Together(m, k, paths, more, seen);
  }

  lemma Together(m: Kids, k: string, paths: seq<seq<string>>, more: seq<seq<string>>, seen: set<string>)
    requires Distinct(paths) && Distinct(more) && k !in seen
    requires forall p :: p in paths <==> LeafFrom(m, p, seen)
    requires forall p :: p in more <==> LeafFrom(m, p, {k})
    ensures Distinct(paths + more)
    ensures forall p :: p in paths + more <==> LeafFrom(m, p, seen + {k})
  {
    forall i, j | 0 <= i < |paths| && 0 <= j < |more| ensures paths[i] != more[j] {
      assert paths[i] in paths && more[j] in more;
      assert LeafFrom(m, paths[i], seen) && LeafFrom(m, more[j], {k});
    }
    hide Get;
    DistinctConcat(paths, more);
  }

  lemma LeafKey(m: Kids, k: string, paths: seq<seq<string>>, seen: set<string>)
    requires k in m && m[k].Leaf? && Distinct(paths) && k !in seen
    requires forall p :: p in paths <==> LeafFrom(m, p, seen)
    ensures Distinct(paths + [[k]])
    ensures forall p :: p in paths + [[k]] <==> LeafFrom(m, p, seen + {k})
  {
    forall p | LeafFrom(m, p, {k}) ensures p == [k] {
    }
    assert LeafFrom(m, [k], {k});
    Together(m, k, paths, [[k]], seen);
  }

  lemma SpellBelow(prefix: string, k: string, below: seq<seq<string>>, more: seq<string>)
    requires |more| == |below|
    requires forall i :: 0 <= i < |more| ==>
      below[i] != [] && more[i] == Spell(if prefix == "" then k else prefix + "." + k, below[i])
    ensures forall i :: 0 <= i < |more| ==> more[i] == Spell(prefix, Prefixed(k, below)[i])
  {
    forall i | 0 <= i < |more| ensures more[i] == Spell(prefix, Prefixed(k, below)[i]) {
      assert ([k] + below[i])[1..] == below[i];
    }
  }

  lemma {:induction false} SpellPrefixed(prefix: string, p: seq<string>)
    requires p != [] && prefix != ""
    ensures Spell(prefix, p) == prefix + "." + Dotted(p)
    decreases |p|
  {
    if |p| > 1 {
      var full := prefix + "." + p[0];
      SpellPrefixed(full, p[1..]);
      assert full + "." + Dotted(p[1..]) == prefix + "." + (p[0] + "." + Dotted(p[1..]));
    }
  }

  /** At the top, a path is spelled in full unless it starts with an empty key. */
  lemma SpellTop(p: seq<string>)
    requires p != []
    ensures |p| == 1 || p[0] != "" ==> Spell("", p) == Dotted(p)
    ensures |p| > 1 && p[0] == "" ==> Spell("", p) == Spell("", p[1..])
  {
    if |p| > 1 && p[0] != "" { SpellPrefixed(p[0], p[1..]); }
  }

  lemma {:induction false} SpellOpens(p: seq<string>)
    requires Parts(p)
    ensures Spell("", p) != "" ==> Spell("", p)[0] != '.'
    decreases |p|
  {
    SpellTop(p);
    if |p| > 1 && p[0] == "" { SpellOpens(p[1..]); }
  }

  ghost predicate DotFreeTree(m: Kids) {
    forall p :: p != [] && Get(m, p).Some? ==> Parts(p)
  }

  ghost predicate Spells(m: Kids, s: string) {
    exists p :: LeafAt(m, p) && s == Dotted(p)
  }

  ghost predicate Collects(m: Kids, s: string) {
    exists p :: LeafAt(m, p) && s == Spell("", p)
  }

  /** Over dot-free keys, what is collected is exactly the dotted leaf paths just when no
      leaf lies beneath an empty key at the top: there the recursion drops the key. */
  lemma CollectsExactly(m: Kids)
    requires DotFreeTree(m)
    ensures (forall s :: Collects(m, s) <==> Spells(m, s)) <==> !exists p :: LeafAt(m, p) && |p| > 1 && p[0] == ""
  {
    if p :| LeafAt(m, p) && |p| > 1 && p[0] == "" {
      assert Spells(m, Dotted(p)) && Dotted(p)[0] == '.';
      if Collects(m, Dotted(p)) {
        var q :| LeafAt(m, q) && Dotted(p) == Spell("", q);
        SpellOpens(q);
        assert false;
      }
    } else {
      forall p | LeafAt(m, p) ensures Spell("", p) == Dotted(p) { SpellTop(p); }
    }
  }

  lemma {:induction false} FullHasLeaf(t: Tree) returns (p: seq<string>)
    requires t.Node? && Full(t)
    ensures LeafAt(t.kids, p)
    decreases t
  {
    var k :| k in t.kids;
    if t.kids[k].Leaf? {
      p := [k];
    } else {
      var q := FullHasLeaf(t.kids[k]);
      p := [k] + q;
      assert p[1..] == q;
    }
  }

  /** On a tree without empty sub-maps that is a look at one key. */
  lemma CollectsExactlyWhen(m: Kids)
    requires DotFreeTree(m) && NoEmptyBelow(m)
    ensures (forall s :: Collects(m, s) <==> Spells(m, s)) <==> !("" in m && m[""].Node?)
  {
    CollectsExactly(m);
    if "" in m && m[""].Node? {
      assert Full(m[""]);
      var q := FullHasLeaf(m[""]);
      var p := [""] + q;
      assert p[1..] == q;
      assert LeafAt(m, p) && |p| > 1 && p[0] == "";
    }
  }

  /** Under an empty top key the path is lost: the leaf is listed as if it stood at the top. */
  lemma EmptyTopKeyDropped()
    ensures var m := map["" := Node(map["port" := Leaf("80")])];
      DotFreeTree(m) && NoEmptyBelow(m) && Collects(m, "port") && !Spells(m, "port") && Spells(m, ".port")
  {
    var m := map["" := Node(map["port" := Leaf("80")])];
    var p := ["", "port"];
    assert p[1..] == ["port"] && LeafAt(m, p);
    assert Spell("", p) == "port" && Dotted(p) == ".port";
    forall q | q != [] && Get(m, q).Some? ensures Parts(q) && (LeafAt(m, q) ==> q == p) {
      assert q[0] == "";
      if |q| > 1 {
        var inner := map["port" := Leaf("80")];
        assert m[""].kids == inner && Get(inner, q[1..]).Some?;
        assert q[1..][0] == "port" && |q[1..]| == 1;
        assert q == p;
      } else {
        assert q == [""];
      }
    }
    assert ".port" != "port";
  }
}
