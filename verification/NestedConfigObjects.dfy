/** nestedSet and nestedDelete on the map objects themselves, changed in place. */
module NestedConfigObjects {
  import opened NestedConfig

  /** A map object; its entries are scalars or further map objects. */
  class MapObject {
    var entries: map<string, Entry>

    constructor ()
      ensures entries == map[]
    {
      entries := map[];
    }
  }

  datatype Entry = Scalar(text: string) | Sub(obj: MapObject)

  /** Which objects make up a tree: the top one, and the tree under each of its map keys. */
  datatype Layout = Layout(obj: MapObject, subs: map<string, Layout>)

  ghost function Objects(l: Layout): set<MapObject> {
    {l.obj} + set k, o | k in l.subs && o in Objects(l.subs[k]) :: o
  }

  /** No object stands in two places. */
  ghost predicate Separate(l: Layout) {
    && (forall k :: k in l.subs ==> Separate(l.subs[k]) && l.obj !in Objects(l.subs[k]))
    && forall j, k :: j in l.subs && k in l.subs && j != k ==> Objects(l.subs[j]) !! Objects(l.subs[k])
  }

  /** What a set of objects holds at one moment. */
  type Heap = map<MapObject, map<string, Entry>>

  ghost function Now(os: set<MapObject>): (h: Heap)
    reads os
    ensures h.Keys == os && forall o :: o in os ==> h[o] == o.entries
  {
    map o | o in os :: o.entries
  }

  /** The objects are linked as the layout says. */
  ghost predicate Holds(h: Heap, l: Layout) {
    && l.obj in h
    && (forall k :: k in l.subs ==> k in h[l.obj] && h[l.obj][k] == Sub(l.subs[k].obj) && Holds(h, l.subs[k]))
    && forall k :: k in h[l.obj] && h[l.obj][k].Sub? ==> k in l.subs
  }

  /** The tree the objects hold. */
  ghost function Value(h: Heap, l: Layout): Kids
    requires Holds(h, l)
  {
    map k | k in h[l.obj] :: if k in l.subs then Node(Value(h, l.subs[k])) else Leaf(ScalarText(h[l.obj][k]))
  }

  ghost function ScalarText(e: Entry): string {
    if e.Scalar? then e.text else ""
  }

  // --- Places in a layout -----------------------------------------------------------------

  ghost predicate Has(l: Layout, p: seq<string>)
    decreases |p|
  {
    p == [] || (p[0] in l.subs && Has(l.subs[p[0]], p[1..]))
  }

  ghost function Focus(l: Layout, p: seq<string>): Layout
    requires Has(l, p)
    decreases |p|
  {
    if p == [] then l else Focus(l.subs[p[0]], p[1..])
  }

  ghost function Plug(l: Layout, p: seq<string>, part: Layout): Layout
    requires Has(l, p)
    decreases |p|
  {
    if p == [] then part else l.(subs := l.subs[p[0] := Plug(l.subs[p[0]], p[1..], part)])
  }

  /** The path leads through maps. */
  predicate Walks(m: Kids, p: seq<string>)
    decreases |p|
  {
    p == [] || (p[0] in m && m[p[0]].Node? && Walks(m[p[0]].kids, p[1..]))
  }

  function KidsAt(m: Kids, p: seq<string>): Kids
    requires Walks(m, p)
    decreases |p|
  {
    if p == [] then m else KidsAt(m[p[0]].kids, p[1..])
  }

  /** The tree with the map at the path replaced. */
  function Replace(m: Kids, p: seq<string>, kids: Kids): Kids
    requires Walks(m, p)
    decreases |p|
  {
    if p == [] then kids else m[p[0] := Node(Replace(m[p[0]].kids, p[1..], kids))]
  }

  lemma {:induction false} FocusIn(l: Layout, p: seq<string>)
    requires Has(l, p) && Separate(l)
    ensures Separate(Focus(l, p)) && Objects(Focus(l, p)) <= Objects(l) && Focus(l, p).obj in Objects(l)
    decreases |p|
  {
    if p != [] { FocusIn(l.subs[p[0]], p[1..]); }
  }

  lemma {:induction false} FocusHolds(h: Heap, l: Layout, p: seq<string>)
    requires Holds(h, l)
    ensures Has(l, p) <==> Walks(Value(h, l), p)
    ensures Has(l, p) ==> Holds(h, Focus(l, p)) && Value(h, Focus(l, p)) == KidsAt(Value(h, l), p)
    decreases |p|
  {
    if p != [] && p[0] in l.subs { FocusHolds(h, l.subs[p[0]], p[1..]); }
  }

  /** The objects that are not under a key. */
  ghost function Beside(l: Layout, k: string): set<MapObject> {
    {l.obj} + set j, o | j in l.subs && j != k && o in Objects(l.subs[j]) :: o
  }

  lemma BesideApart(l: Layout, k: string)
    requires Separate(l) && k in l.subs
    ensures Objects(l) == Beside(l, k) + Objects(l.subs[k]) && Beside(l, k) !! Objects(l.subs[k])
  {
    forall o | o in Objects(l) ensures o in Beside(l, k) + Objects(l.subs[k]) {
    }
  }

  /** Another layout under one key, apart from what is beside it. */
  lemma SubReplaced(l: Layout, k: string, s: Layout)
    requires Separate(l) && k in l.subs && Separate(s) && Beside(l, k) !! Objects(s)
    ensures Separate(l.(subs := l.subs[k := s])) && Objects(l.(subs := l.subs[k := s])) == Beside(l, k) + Objects(s)
  {
    var n := l.(subs := l.subs[k := s]);
    forall j | j in n.subs ensures Separate(n.subs[j]) && n.obj !in Objects(n.subs[j]) {
    }
    forall i, j | i in n.subs && j in n.subs && i != j ensures Objects(n.subs[i]) !! Objects(n.subs[j]) {
      if i == k {
        assert Objects(n.subs[j]) <= Beside(l, k);
      } else if j == k {
        assert Objects(n.subs[i]) <= Beside(l, k);
      }
    }
    forall o | o in Objects(n) ensures o in Beside(l, k) + Objects(s) {
    }
    forall o | o in Beside(l, k) + Objects(s) ensures o in Objects(n) {
      if o in Objects(s) { assert n.subs[k] == s; }
      else if o != l.obj {
        var j :| j in l.subs && j != k && o in Objects(l.subs[j]);
        assert n.subs[j] == l.subs[j];
      }
    }
  }

  lemma {:induction false} PlugApart(l: Layout, p: seq<string>, part: Layout)
    requires Has(l, p) && Separate(l) && Separate(part) && part.obj == Focus(l, p).obj
    requires Objects(part) !! (Objects(l) - Objects(Focus(l, p)))
    ensures Separate(Plug(l, p, part)) && Plug(l, p, part).obj == l.obj
    ensures Objects(Plug(l, p, part)) == Objects(l) - Objects(Focus(l, p)) + Objects(part)
    decreases |p|
  {
    hide Objects, Separate;
    if p == [] {
      assert Objects(l) - Objects(Focus(l, p)) + Objects(part) == Objects(part);
    } else {
      var k := p[0];
      FocusIn(l, p);
      SubsSeparate(l, k);
      BesideApart(l, k);
      FocusIn(l.subs[k], p[1..]);
      PlugApart(l.subs[k], p[1..], part);
      SubReplaced(l, k, Plug(l.subs[k], p[1..], part));
    }
  }

  lemma SubsSeparate(l: Layout, k: string)
    requires Separate(l) && k in l.subs
    ensures Separate(l.subs[k]) && l.obj !in Objects(l.subs[k]) && Objects(l.subs[k]) <= Objects(l)
    ensures l.obj in Objects(l)
  {
  }

  /** A tree none of whose objects changed holds what it held. */
  lemma {:induction false} Untouched(h: Heap, n: Heap, l: Layout)
    requires Holds(h, l) && forall o :: o in Objects(l) && o in h ==> o in n && h[o] == n[o]
    ensures Holds(n, l) && Value(n, l) == Value(h, l)
    decreases l
  {
    assert l.obj in Objects(l);
    forall k | k in l.subs ensures Holds(n, l.subs[k]) && Value(n, l.subs[k]) == Value(h, l.subs[k]) {
      assert forall o :: o in Objects(l.subs[k]) ==> o in Objects(l);
      Untouched(h, n, l.subs[k]);
    }
  }

  /** Nothing outside one place changed between the two moments. */
  ghost predicate Kept(h: Heap, n: Heap, os: set<MapObject>) {
    forall o :: o in os && o in h ==> o in n && h[o] == n[o]
  }

  /** Changing only one place's objects changes only that place of the tree. */
  lemma {:induction false} Plugged(h: Heap, n: Heap, l: Layout, p: seq<string>, part: Layout)
    requires Has(l, p) && Separate(l) && Holds(h, l)
    requires part.obj == Focus(l, p).obj && Holds(n, part)
    requires Kept(h, n, Objects(l) - Objects(Focus(l, p)))
    ensures Holds(n, Plug(l, p, part)) && Plug(l, p, part).obj == l.obj
    ensures Walks(Value(h, l), p) && Value(n, Plug(l, p, part)) == Replace(Value(h, l), p, Value(n, part))
    decreases |p|
  {
    hide Objects, Separate;
    if p != [] {
      var k := p[0];
      SubsSeparate(l, k);
      BesideKept(l, k, p);
      Plugged(h, n, l.subs[k], p[1..], part);
      LevelReplaced(h, n, l, k, Plug(l.subs[k], p[1..], part));
    }
  }

  lemma BesideKept(l: Layout, k: string, p: seq<string>)
    requires Separate(l) && p != [] && p[0] == k && Has(l, p)
    ensures Beside(l, k) <= Objects(l) - Objects(Focus(l, p))
    ensures Objects(l.subs[k]) - Objects(Focus(l.subs[k], p[1..])) <= Objects(l) - Objects(Focus(l, p))
  {
    hide Separate;
    SubsSeparate(l, k);
    BesideApart(l, k);
    FocusIn(l.subs[k], p[1..]);
  }

  /** One level: only what is under k changed, and s describes it now. */
  lemma LevelReplaced(h: Heap, n: Heap, l: Layout, k: string, s: Layout)
    requires k in l.subs && Holds(h, l)
    requires s.obj == l.subs[k].obj && Holds(n, s)
    requires Kept(h, n, Beside(l, k))
    ensures var m := l.(subs := l.subs[k := s]);
      Holds(n, m) && k in Value(h, l) && Value(n, m) == Value(h, l)[k := Node(Value(n, s))]
  {
    hide Objects, Beside, Kept;
    var m := l.(subs := l.subs[k := s]);
    OthersKept(h, n, l, k);
    forall j | j in m.subs ensures j in n[m.obj] && n[m.obj][j] == Sub(m.subs[j].obj) && Holds(n, m.subs[j]) {
    }
    assert Holds(n, m);
    var a, b := Value(n, m), Value(h, l)[k := Node(Value(n, s))];
    assert a.Keys == b.Keys;
    forall j | j in a ensures a[j] == b[j] {
    }
  }

  lemma OthersKept(h: Heap, n: Heap, l: Layout, k: string)
    requires k in l.subs && Holds(h, l) && Kept(h, n, Beside(l, k))
    ensures l.obj in n && n[l.obj] == h[l.obj]
    ensures forall j :: j in l.subs && j != k ==> Holds(n, l.subs[j]) && Value(n, l.subs[j]) == Value(h, l.subs[j])
  {
    assert l.obj in Beside(l, k);
    forall j | j in l.subs && j != k ensures Holds(n, l.subs[j]) && Value(n, l.subs[j]) == Value(h, l.subs[j]) {
      assert Objects(l.subs[j]) <= Beside(l, k);
      Untouched(h, n, l.subs[j]);
    }
  }

  // --- Editing one object --------------------------------------------------------------------

  /** The layout with a tree under a key, whatever was there. */
  ghost function WithSub(f: Layout, key: string, v: Layout): Layout {
    Layout(f.obj, f.subs[key := v])
  }

  /** A separate tree put under a key. */
  lemma SubAdded(h: Heap, n: Heap, f: Layout, key: string, v: Layout)
    requires Holds(h, f) && Separate(f) && Separate(v) && Objects(v) !! Objects(f)
    requires f.obj in n && n[f.obj] == h[f.obj][key := Sub(v.obj)] && Holds(n, v)
    requires Kept(h, n, Objects(f) - {f.obj})
    ensures var part := WithSub(f, key, v);
      && Holds(n, part) && Separate(part) && Objects(part) <= Objects(f) + Objects(v)
      && Value(n, part) == Value(h, f)[key := Node(Value(n, v))]
  {
    SubsKept(h, n, f);
    AddedObjects(f, key, v);
    SubHeld(h, n, f, key, v);
  }

  lemma SubHeld(h: Heap, n: Heap, f: Layout, key: string, v: Layout)
    requires Holds(h, f)
    requires f.obj in n && n[f.obj] == h[f.obj][key := Sub(v.obj)] && Holds(n, v)
    requires forall k :: k in f.subs ==> Holds(n, f.subs[k]) && Value(n, f.subs[k]) == Value(h, f.subs[k])
    ensures Holds(n, WithSub(f, key, v)) && Value(n, WithSub(f, key, v)) == Value(h, f)[key := Node(Value(n, v))]
  {
    var part := WithSub(f, key, v);
    forall k | k in part.subs
      ensures k in n[part.obj] && n[part.obj][k] == Sub(part.subs[k].obj) && Holds(n, part.subs[k]) {
    }
    assert Holds(n, part);
    SubValue(h, n, f, key, v);
  }

  lemma SubValue(h: Heap, n: Heap, f: Layout, key: string, v: Layout)
    requires Holds(h, f) && Holds(n, WithSub(f, key, v)) && Holds(n, v)
    requires f.obj in n && n[f.obj] == h[f.obj][key := Sub(v.obj)]
    requires forall k :: k in f.subs ==> Holds(n, f.subs[k]) && Value(n, f.subs[k]) == Value(h, f.subs[k])
    ensures Value(n, WithSub(f, key, v)) == Value(h, f)[key := Node(Value(n, v))]
  {
    SubKeys(h, n, f, key, v);
    forall k | k in h[f.obj] && k != key ensures k in Value(h, f) && Value(n, WithSub(f, key, v))[k] == Value(h, f)[k] {
      SameEntry(h, n, f, WithSub(f, key, v), k);
    }
    KeyPut(Value(n, WithSub(f, key, v)), Value(h, f), key, Node(Value(n, v)));
  }

  /** A key whose entry and layout are the same has the same value. */
  lemma SameEntry(h: Heap, n: Heap, f: Layout, part: Layout, k: string)
    requires Holds(h, f) && Holds(n, part) && part.obj == f.obj && k in h[f.obj] && k in n[f.obj]
    requires n[f.obj][k] == h[f.obj][k]
    requires (k in part.subs <==> k in f.subs) && (k in f.subs ==> part.subs[k] == f.subs[k])
    requires k in f.subs ==> Holds(n, f.subs[k]) && Value(n, f.subs[k]) == Value(h, f.subs[k])
    ensures k in Value(h, f) && k in Value(n, part) && Value(n, part)[k] == Value(h, f)[k]
  {
  }

  lemma KeyGone(a: Kids, b: Kids, key: string)
    requires a.Keys == b.Keys - {key} && forall k :: k in b && k != key ==> a[k] == b[k]
    ensures a == b - {key}
  {
  }

  lemma KeyPut(a: Kids, b: Kids, key: string, x: Tree)
    requires a.Keys == b.Keys + {key} && a[key] == x && forall k :: k in b && k != key ==> a[k] == b[k]
    ensures a == b[key := x]
  {
  }

  lemma SubKeys(h: Heap, n: Heap, f: Layout, key: string, v: Layout)
    requires Holds(h, f) && Holds(n, WithSub(f, key, v)) && Holds(n, v)
    requires f.obj in n && n[f.obj] == h[f.obj][key := Sub(v.obj)]
    ensures Value(h, f).Keys == h[f.obj].Keys && Value(n, WithSub(f, key, v)).Keys == h[f.obj].Keys + {key}
    ensures Value(n, WithSub(f, key, v))[key] == Node(Value(n, v))
  {
  }

  lemma AddedObjects(f: Layout, key: string, v: Layout)
    requires Separate(f) && Separate(v) && Objects(v) !! Objects(f)
    ensures Separate(WithSub(f, key, v)) && Objects(WithSub(f, key, v)) <= Objects(f) + Objects(v)
  {
    var part := WithSub(f, key, v);
    assert f.obj in Objects(f);
    forall k | k in f.subs ensures Objects(f.subs[k]) <= Objects(f) {
    }
    forall o | o in Objects(part) ensures o in Objects(f) + Objects(v) {
      if o != f.obj {
        var k :| k in part.subs && o in Objects(part.subs[k]);
      }
    }
  }

  /** Trees under an object that itself may have changed. */
  lemma SubsKept(h: Heap, n: Heap, f: Layout)
    requires Holds(h, f) && Separate(f) && Kept(h, n, Objects(f) - {f.obj})
    ensures forall k :: k in f.subs ==> Holds(n, f.subs[k]) && Value(n, f.subs[k]) == Value(h, f.subs[k])
  {
    forall k | k in f.subs ensures Holds(n, f.subs[k]) && Value(n, f.subs[k]) == Value(h, f.subs[k]) {
      assert forall o :: o in Objects(f.subs[k]) ==> o in Objects(f) - {f.obj};
      Untouched(h, n, f.subs[k]);
    }
  }

  lemma DroppedObjects(f: Layout, key: string)
    requires Separate(f)
    ensures var part := Layout(f.obj, f.subs - {key}); Separate(part) && Objects(part) <= Objects(f)
  {
    var part := Layout(f.obj, f.subs - {key});
    forall o | o in Objects(part) ensures o in Objects(f) {
      if o != f.obj {
        var k :| k in part.subs && o in Objects(part.subs[k]);
        assert part.subs[k] == f.subs[k];
      }
    }
  }

  /** A scalar under a key, whatever was there. */
  lemma LeafPut(h: Heap, n: Heap, f: Layout, key: string, text: string)
    requires Holds(h, f) && Separate(f)
    requires f.obj in n && n[f.obj] == h[f.obj][key := Scalar(text)] && Kept(h, n, Objects(f) - {f.obj})
    ensures var part := Layout(f.obj, f.subs - {key});
      Holds(n, part) && Separate(part) && Objects(part) <= Objects(f) &&
        Value(n, part) == Value(h, f)[key := Leaf(text)]
  {
    var part := Layout(f.obj, f.subs - {key});
    SubsKept(h, n, f);
    DroppedObjects(f, key);
    LeafHeld(h, n, f, key, text);
  }

  lemma LeafHeld(h: Heap, n: Heap, f: Layout, key: string, text: string)
    requires Holds(h, f) && f.obj in n && n[f.obj] == h[f.obj][key := Scalar(text)]
    requires forall k :: k in f.subs ==> Holds(n, f.subs[k]) && Value(n, f.subs[k]) == Value(h, f.subs[k])
    ensures var part := Layout(f.obj, f.subs - {key});
      Holds(n, part) && Value(n, part) == Value(h, f)[key := Leaf(text)]
  {
    var part := Layout(f.obj, f.subs - {key});
    assert Holds(n, part);
    LeafKeys(h, n, f, part, key, text);
    forall k | k in h[f.obj] && k != key ensures k in Value(h, f) && Value(n, part)[k] == Value(h, f)[k] {
      SameEntry(h, n, f, part, k);
    }
    KeyPut(Value(n, part), Value(h, f), key, Leaf(text));
  }

  lemma RemovedKeys(h: Heap, n: Heap, f: Layout, part: Layout, key: string)
    requires Holds(h, f) && Holds(n, part) && part.obj == f.obj && n[f.obj] == h[f.obj] - {key}
    ensures Value(h, f).Keys == h[f.obj].Keys && Value(n, part).Keys == Value(h, f).Keys - {key}
  {
  }

  lemma LeafKeys(h: Heap, n: Heap, f: Layout, part: Layout, key: string, text: string)
    requires Holds(h, f) && Holds(n, part) && part.obj == f.obj && n[f.obj] == h[f.obj][key := Scalar(text)]
    ensures Value(h, f).Keys == h[f.obj].Keys
    ensures Value(n, part).Keys == h[f.obj].Keys + {key} && Value(n, part)[key] == Leaf(text)
  {
  }

  /** A key taken out. */
  lemma KeyRemoved(h: Heap, n: Heap, f: Layout, key: string)
    requires Holds(h, f) && Separate(f)
    requires f.obj in n && n[f.obj] == h[f.obj] - {key} && Kept(h, n, Objects(f) - {f.obj})
    ensures var part := Layout(f.obj, f.subs - {key});
      Holds(n, part) && Separate(part) && Objects(part) <= Objects(f) && Value(n, part) == Value(h, f) - {key}
  {
    var part := Layout(f.obj, f.subs - {key});
    SubsKept(h, n, f);
    DroppedObjects(f, key);
    RemovedHeld(h, n, f, key);
  }

  lemma RemovedHeld(h: Heap, n: Heap, f: Layout, key: string)
    requires Holds(h, f) && f.obj in n && n[f.obj] == h[f.obj] - {key}
    requires forall k :: k in f.subs ==> Holds(n, f.subs[k]) && Value(n, f.subs[k]) == Value(h, f.subs[k])
    ensures var part := Layout(f.obj, f.subs - {key}); Holds(n, part) && Value(n, part) == Value(h, f) - {key}
  {
    var part := Layout(f.obj, f.subs - {key});
    assert Holds(n, part);
    RemovedKeys(h, n, f, part, key);
    forall k | k in h[f.obj] && k != key ensures k in Value(h, f) && Value(n, part)[k] == Value(h, f)[k] {
      SameEntry(h, n, f, part, k);
    }
    KeyGone(Value(n, part), Value(h, f), key);
  }

  // --- The same steps on values -----------------------------------------------------------------

  /** The tree once the maps along a path have been created. */
  function Open(m: Kids, p: seq<string>): Kids
    decreases |p|
  {
    if p == [] then m else m[p[0] := Node(Open(Under(m, p[0]), p[1..]))]
  }

  lemma OpenNothing(m: Kids)
    ensures Open(m, []) == m
  {
  }

  lemma {:induction false} OpenStep(m: Kids, p: seq<string>, k: string)
    ensures Walks(Open(m, p), p)
    ensures var at := KidsAt(Open(m, p), p);
      Open(m, p + [k]) == if k in at && at[k].Node? then Open(m, p) else Replace(Open(m, p), p, at[k := Node(map[])])
    decreases |p|
  {
    if p == [] {
      assert [] + [k] == [k] && [k][1..] == [];
      if k in m && m[k].Node? { assert m[k := m[k]] == m; }
    } else {
      OpenStep(Under(m, p[0]), p[1..], k);
      assert (p + [k])[1..] == p[1..] + [k];
      var o := Open(m, p);
      assert o[p[0]] == Node(Open(Under(m, p[0]), p[1..]));
      var inner := Open(Under(m, p[0]), p[1..] + [k]);
      assert m[p[0] := Node(inner)] == o[p[0] := Node(inner)];
    }
  }

  lemma {:induction false} SetOpened(m: Kids, p: seq<string>, k: string, value: Tree)
    ensures Walks(Open(m, p), p)
    ensures Set(m, p + [k], value) == Replace(Open(m, p), p, KidsAt(Open(m, p), p)[k := value])
    decreases |p|
  {
    if p == [] {
      assert [] + [k] == [k];
    } else {
      SetOpened(Under(m, p[0]), p[1..], k, value);
      assert (p + [k])[1..] == p[1..] + [k];
      var inner := Set(Under(m, p[0]), p[1..] + [k], value);
      assert m[p[0] := Node(inner)] == Open(m, p)[p[0] := Node(inner)];
    }
  }

  lemma {:induction false} ReplaceTwice(m: Kids, p: seq<string>, a: Kids, b: Kids)
    requires Walks(m, p)
    ensures Walks(Replace(m, p, a), p) && KidsAt(Replace(m, p, a), p) == a
    ensures Replace(Replace(m, p, a), p, b) == Replace(m, p, b)
    ensures Replace(m, p, KidsAt(m, p)) == m
    decreases |p|
  {
    if p != [] {
      ReplaceTwice(m[p[0]].kids, p[1..], a, b);
      assert m[p[0] := m[p[0]]] == m;
    }
  }

  lemma {:induction false} ReplaceSnoc(m: Kids, p: seq<string>, k: string, kids: Kids)
    requires Walks(m, p)
    ensures Walks(m, p + [k]) <==> k in KidsAt(m, p) && KidsAt(m, p)[k].Node?
    ensures Walks(m, p + [k]) ==>
      && KidsAt(m, p + [k]) == KidsAt(m, p)[k].kids
      && Replace(m, p + [k], kids) == Replace(m, p, KidsAt(m, p)[k := Node(kids)])
    decreases |p|
  {
    if p == [] {
      assert [] + [k] == [k] && [k][1..] == [];
    } else {
      ReplaceSnoc(m[p[0]].kids, p[1..], k, kids);
      assert (p + [k])[1..] == p[1..] + [k];
    }
  }

  lemma {:induction false} GetAlong(m: Kids, p: seq<string>, q: seq<string>)
    requires Walks(m, p) && q != []
    ensures Get(m, p + q) == Get(KidsAt(m, p), q)
    decreases |p|
  {
    if p == [] {
      assert [] + q == q;
    } else {
      GetAlong(m[p[0]].kids, p[1..], q);
      assert (p + q)[1..] == p[1..] + q;
    }
  }

  /** Places on the way to an edited one keep their objects. */
  lemma {:induction false} PlugAbove(l: Layout, p: seq<string>, part: Layout, n: nat)
    requires Has(l, p) && n <= |p| && part.obj == Focus(l, p).obj
    ensures Has(l, p[..n]) && Has(Plug(l, p, part), p[..n])
    ensures Focus(Plug(l, p, part), p[..n]).obj == Focus(l, p[..n]).obj
    decreases |p|
  {
    if n > 0 {
      PlugAbove(l.subs[p[0]], p[1..], part, n - 1);
      assert p[..n][1..] == p[1..][..n - 1];
    } else {
      assert p[..n] == [];
    }
  }

  lemma {:induction false} HasSnoc(l: Layout, p: seq<string>, k: string)
    requires Has(l, p)
    ensures Has(l, p + [k]) <==> k in Focus(l, p).subs
    ensures Has(l, p + [k]) ==> Focus(l, p + [k]) == Focus(l, p).subs[k]
    decreases |p|
  {
    if p == [] {
      assert [] + [k] == [k] && [k][1..] == [];
    } else {
      HasSnoc(l.subs[p[0]], p[1..], k);
      assert (p + [k])[1..] == p[1..] + [k];
    }
  }

  // --- The operations ---------------------------------------------------------------------------

  /** The layout describes the objects as they are now. */
  ghost predicate Stands(l: Layout)
    reads Objects(l)
  {
    Separate(l) && Holds(Now(Objects(l)), l)
  }

  ghost function TreeOf(l: Layout): Kids
    requires Stands(l)
    reads Objects(l)
  {
    Value(Now(Objects(l)), l)
  }

  /** An edit at one place, seen from the top. */
  lemma Edited(h: Heap, n: Heap, l: Layout, p: seq<string>, part: Layout)
    requires Has(l, p) && Separate(l) && Holds(h, l) && h.Keys == Objects(l)
    requires part.obj == Focus(l, p).obj && Holds(n, part) && Separate(part)
    requires Objects(part) !! (Objects(l) - Objects(Focus(l, p)))
    requires Objects(l) + Objects(part) <= n.Keys
    requires Kept(h, n, Objects(l) - Objects(Focus(l, p)))
    ensures var m := Plug(l, p, part);
      && Separate(m) && Holds(n, m) && m.obj == l.obj
      && Objects(m) == Objects(l) - Objects(Focus(l, p)) + Objects(part)
      && Walks(Value(h, l), p) && Value(n, m) == Replace(Value(h, l), p, Value(n, part))
  {
    PlugApart(l, p, part);
    Plugged(h, n, l, p, part);
  }

  lemma {:induction false} ObjectsAllocated(v: Layout)
    ensures forall o :: o in Objects(v) ==> allocated(o)
  {
    forall k | k in v.subs ensures forall o :: o in Objects(v.subs[k]) ==> allocated(o) {
      ObjectsAllocated(v.subs[k]);
    }
  }

  /** Objects that were left alone stand as they did. */
  twostate lemma StillStands(v: Layout)
    requires old(Stands(v)) && forall o :: o in Objects(v) ==> old(allocated(o)) && unchanged(o)
    ensures Stands(v) && TreeOf(v) == old(TreeOf(v))
  {
    assert Now(Objects(v)) == old(Now(Objects(v)));
  }

  /** What a value is as a tree; given lays out a map value's objects. */
  ghost function TreeOfEntry(value: Entry, given: Layout): Tree
    requires value.Sub? ==> Stands(given)
    reads if value.Sub? then Objects(given) else {}
  {
    match value
    case Scalar(text) => Leaf(text)
    case Sub(_) => Node(TreeOf(given))
  }

  /** nestedSet. A map value comes with its own objects, none of them the tree's. */
  method NestedSet(data: MapObject, dotPath: string, value: Entry, ghost start: Layout, ghost given: Layout)
    returns (ghost l: Layout)
    requires start.obj == data && Stands(start)
    requires value.Sub? ==> value.obj == given.obj && Stands(given) && Objects(given) !! Objects(start)
    modifies Objects(start)
    ensures l.obj == data && Stands(l)
    ensures fresh(Objects(l) - Objects(start) - if value.Sub? then Objects(given) else {})
    ensures TreeOf(l) == Set(old(TreeOf(start)), Split(dotPath), old(TreeOfEntry(value, given)))
  {
    hide Holds, Value, Objects, Separate, Focus, Has, Open, Set, Replace, Walks, KidsAt, Split, Stands, TreeOf;
    var parts := Split(dotPath);
    var current := data;
    l := start;
    assert TreeOf(start) == Open(TreeOf(start), []) && parts[..0] == [] by { OpenNothing(TreeOf(start)); }
    TopFocus(start);
    ghost var m := TreeOf(start);
    ghost var tree := TreeOfEntry(value, given);
    for i := 0 to |parts| - 1
      invariant l.obj == data && Stands(l) && fresh(Objects(l) - Objects(start))
      invariant Has(l, parts[..i]) && current == Focus(l, parts[..i]).obj
      invariant TreeOf(l) == Open(m, parts[..i])
      invariant value.Sub? ==> Stands(given) && Objects(given) !! Objects(l)
      invariant tree == TreeOfEntry(value, given)
    {
      ghost var was := l;
      current, l := StepBeside(current, parts[i], l, parts[..i], m, value, given);
      assert fresh(Objects(l) - Objects(was));
      assert forall o :: o in Objects(l) - Objects(start) ==>
        o in Objects(l) - Objects(was) || o in Objects(was) - Objects(start);
      assert parts[..i + 1] == parts[..i] + [parts[i]];
    }
    ghost var p, key := parts[..|parts| - 1], parts[|parts| - 1];
    assert parts == p + [key];
    StandsApart(l);
    FocusIn(l, p);
    ghost var was := l;
    match value {
      case Scalar(text) => l := PutLeaf(current, parts[|parts| - 1], text, l, p);
      case Sub(obj) => l := PutTree(current, parts[|parts| - 1], obj, l, p, given);
    }
    SetOpened(m, p, key, tree);
  }

  /** A turn of nestedSet's loop leaves the value it will set alone. */
  method StepBeside(current: MapObject, part: string, ghost l: Layout, ghost p: seq<string>, ghost m: Kids,
                    ghost value: Entry, ghost given: Layout) returns (next: MapObject, ghost n: Layout)
    requires Stands(l) && Has(l, p) && current == Focus(l, p).obj && TreeOf(l) == Open(m, p)
    requires value.Sub? ==> Stands(given) && Objects(given) !! Objects(l)
    modifies Objects(l)
    ensures n.obj == l.obj && Stands(n) && fresh(Objects(n) - Objects(l))
    ensures Has(n, p + [part]) && next == Focus(n, p + [part]).obj
    ensures TreeOf(n) == Open(m, p + [part])
    ensures value.Sub? ==> Stands(given) && Objects(given) !! Objects(n)
    ensures TreeOfEntry(value, given) == old(TreeOfEntry(value, given))
  {
    hide Holds, Value, Objects, Separate, Focus, Has, Open, Stands, TreeOf;
    ObjectsAllocated(given);
    next, n := StepInto(current, part, l, p, m);
    if value.Sub? { StillStands(given); }
  }

  /** One turn of nestedSet's loop: into the map under the part, made if there is none. */
  method StepInto(current: MapObject, part: string, ghost l: Layout, ghost p: seq<string>, ghost m: Kids)
    returns (next: MapObject, ghost n: Layout)
    requires Stands(l) && Has(l, p) && current == Focus(l, p).obj && TreeOf(l) == Open(m, p)
    modifies Objects(l)
    ensures n.obj == l.obj && Stands(n) && fresh(Objects(n) - Objects(l))
    ensures Has(n, p + [part]) && next == Focus(n, p + [part]).obj
    ensures TreeOf(n) == Open(m, p + [part])
  {
    ghost var h := Now(Objects(l));
    FocusIn(l, p);
    FocusHolds(h, l, p);
    OpenStep(m, p, part);
    HasSnoc(l, p, part);
    EntryKinds(h, Focus(l, p), part);
    hide Holds, Value, Objects, Separate, Focus, Has, Open, Replace, Walks, KidsAt;
    if part in current.entries && current.entries[part].Sub? {
      next, n := current.entries[part].obj, l;
    } else {
      next, n := AddMap(current, part, l, p);
    }
  }

  /** A new map object under a key that holds no map. */
  method AddMap(current: MapObject, part: string, ghost l: Layout, ghost p: seq<string>)
    returns (next: MapObject, ghost n: Layout)
    requires Stands(l) && Has(l, p) && current == Focus(l, p).obj && current in Objects(l)
    modifies current
    ensures n.obj == l.obj && Stands(n) && fresh(Objects(n) - Objects(l))
    ensures Has(n, p + [part]) && next == Focus(n, p + [part]).obj
    ensures Walks(old(TreeOf(l)), p)
    ensures TreeOf(n) == Replace(old(TreeOf(l)), p, KidsAt(old(TreeOf(l)), p)[part := Node(map[])])
  {
    ObjectsAllocated(l);
    label before:
    next := new MapObject();
    ghost var empty := Layout(next, map[]);
    assert Objects(empty) == {next};
    EmptyHeld(Now(Objects(empty)), next);
    assert Stands(empty) && TreeOf(empty) == map[];
    hide Holds, Value, Objects, Separate, Plug, Focus, Has, Replace, Walks, KidsAt, Stands, TreeOf;
    StillStands@before(l);
    assert next !in Objects(l);
    n := PutTree(current, part, next, l, p, empty);
    SubPlace(l, p, part, empty);
  }

  lemma EmptyHeld(n: Heap, sub: MapObject)
    requires sub in n && n[sub] == map[]
    ensures Holds(n, Layout(sub, map[])) && Value(n, Layout(sub, map[])) == map[] && Separate(Layout(sub, map[]))
  {
  }

  /** A map object assigned under a key, with everything beneath it. */
  method PutTree(current: MapObject, key: string, obj: MapObject, ghost l: Layout, ghost p: seq<string>,
                 ghost v: Layout)
    returns (ghost n: Layout)
    requires Stands(l) && Has(l, p) && current == Focus(l, p).obj && current in Objects(l)
    requires Stands(v) && v.obj == obj && Objects(v) !! Objects(l)
    modifies current
    ensures n == Plug(l, p, WithSub(Focus(l, p), key, v))
    ensures n.obj == l.obj && Stands(n) && Objects(n) <= Objects(l) + Objects(v)
    ensures Walks(old(TreeOf(l)), p)
    ensures TreeOf(n) == Replace(old(TreeOf(l)), p, KidsAt(old(TreeOf(l)), p)[key := Node(old(TreeOf(v)))])
  {
    hide Holds, Value, Objects, Separate, Plug, Focus, Has, Replace, Walks, KidsAt;
    ghost var h, hv := Now(Objects(l)), Now(Objects(v));
    current.entries := current.entries[key := Sub(obj)];
    ghost var wide := Now(Objects(l) + Objects(v));
    n := Plug(l, p, WithSub(Focus(l, p), key, v));
    Untouched(hv, wide, v);
    SubPlugged(h, wide, l, p, key, v);
    Untouched(wide, Now(Objects(n)), n);
  }

  lemma SubPlugged(h: Heap, n: Heap, l: Layout, p: seq<string>, key: string, v: Layout)
    requires Has(l, p) && Separate(l) && Holds(h, l) && h.Keys == Objects(l) && n.Keys == Objects(l) + Objects(v)
    requires Separate(v) && Holds(n, v) && Objects(v) !! Objects(l)
    requires Focus(l, p).obj in h && n[Focus(l, p).obj] == h[Focus(l, p).obj][key := Sub(v.obj)]
    requires Kept(h, n, Objects(l) - {Focus(l, p).obj})
    ensures var m := Plug(l, p, WithSub(Focus(l, p), key, v));
      && Separate(m) && Holds(n, m) && m.obj == l.obj && Objects(m) <= Objects(l) + Objects(v)
      && Walks(Value(h, l), p)
      && Value(n, m) == Replace(Value(h, l), p, KidsAt(Value(h, l), p)[key := Node(Value(n, v))])
  {
    var f := Focus(l, p);
    FocusIn(l, p);
    FocusHolds(h, l, p);
    TopIn(f);
    hide Objects, Separate, Holds, Value, Plug, Focus, Has, Replace, Walks, KidsAt, Kept;
    KeptLess(h, n, Objects(l) - {f.obj}, Objects(f) - {f.obj});
    KeptLess(h, n, Objects(l) - {f.obj}, Objects(l) - Objects(f));
    SubAdded(h, n, f, key, v);
    Edited(h, n, l, p, WithSub(f, key, v));
  }

  lemma LeafPlugged(h: Heap, n: Heap, l: Layout, p: seq<string>, key: string, text: string)
    requires Has(l, p) && Separate(l) && Holds(h, l) && h.Keys == Objects(l) && n.Keys == Objects(l)
    requires Focus(l, p).obj in h && n[Focus(l, p).obj] == h[Focus(l, p).obj][key := Scalar(text)]
    requires Kept(h, n, Objects(l) - {Focus(l, p).obj})
    ensures var m := Plug(l, p, Layout(Focus(l, p).obj, Focus(l, p).subs - {key}));
      && Separate(m) && Holds(n, m) && m.obj == l.obj && Objects(m) <= Objects(l) && Walks(Value(h, l), p)
      && Value(n, m) == Replace(Value(h, l), p, KidsAt(Value(h, l), p)[key := Leaf(text)])
  {
    var f := Focus(l, p);
    FocusIn(l, p);
    FocusHolds(h, l, p);
    TopIn(f);
    hide Objects, Separate, Holds, Value, Plug, Focus, Has, Replace, Walks, KidsAt, Kept;
    KeptLess(h, n, Objects(l) - {f.obj}, Objects(f) - {f.obj});
    KeptLess(h, n, Objects(l) - {f.obj}, Objects(l) - Objects(f));
    LeafPut(h, n, f, key, text);
    Edited(h, n, l, p, Layout(f.obj, f.subs - {key}));
  }

  lemma RemovedPlugged(h: Heap, n: Heap, l: Layout, p: seq<string>, key: string)
    requires Has(l, p) && Separate(l) && Holds(h, l) && h.Keys == Objects(l) && n.Keys == Objects(l)
    requires Focus(l, p).obj in h && n[Focus(l, p).obj] == h[Focus(l, p).obj] - {key}
    requires Kept(h, n, Objects(l) - {Focus(l, p).obj})
    ensures var m := Plug(l, p, Layout(Focus(l, p).obj, Focus(l, p).subs - {key}));
      && Separate(m) && Holds(n, m) && m.obj == l.obj && Objects(m) <= Objects(l) && Walks(Value(h, l), p)
      && Value(n, m) == Replace(Value(h, l), p, KidsAt(Value(h, l), p) - {key})
  {
    var f := Focus(l, p);
    FocusIn(l, p);
    FocusHolds(h, l, p);
    TopIn(f);
    hide Objects, Separate, Holds, Value, Plug, Focus, Has, Replace, Walks, KidsAt, Kept;
    KeptLess(h, n, Objects(l) - {f.obj}, Objects(f) - {f.obj});
    KeptLess(h, n, Objects(l) - {f.obj}, Objects(l) - Objects(f));
    KeyRemoved(h, n, f, key);
    Edited(h, n, l, p, Layout(f.obj, f.subs - {key}));
  }

  lemma SubPlace(l: Layout, p: seq<string>, key: string, v: Layout)
    requires Has(l, p)
    ensures var m := Plug(l, p, WithSub(Focus(l, p), key, v)); Has(m, p + [key]) && Focus(m, p + [key]) == v
  {
    PlugFocus(l, p, WithSub(Focus(l, p), key, v));
    HasSnoc(Plug(l, p, WithSub(Focus(l, p), key, v)), p, key);
  }

  lemma KeptLess(h: Heap, n: Heap, a: set<MapObject>, b: set<MapObject>)
    requires Kept(h, n, a) && b <= a
    ensures Kept(h, n, b)
  {
  }

  lemma TopIn(l: Layout)
    ensures l.obj in Objects(l)
  {
  }

  lemma StandsApart(l: Layout)
    requires Stands(l)
    ensures Separate(l)
  {
  }

  lemma TopFocus(l: Layout)
    ensures Has(l, []) && Focus(l, []) == l
  {
  }

  lemma EntryKinds(h: Heap, f: Layout, key: string)
    requires Holds(h, f)
    ensures key in f.subs <==> key in h[f.obj] && h[f.obj][key].Sub?
    ensures key in f.subs ==> h[f.obj][key].obj == f.subs[key].obj
    ensures key in f.subs <==> key in Value(h, f) && Value(h, f)[key].Node?
    ensures key in h[f.obj] <==> key in Value(h, f)
  {
  }

  lemma {:induction false} PlugFocus(l: Layout, p: seq<string>, part: Layout)
    requires Has(l, p)
    ensures Has(Plug(l, p, part), p) && Focus(Plug(l, p, part), p) == part
    decreases |p|
  {
    if p != [] { PlugFocus(l.subs[p[0]], p[1..], part); }
  }

  /** The assignment of nestedSet, at the end of the path. */
  method PutLeaf(current: MapObject, key: string, value: string, ghost l: Layout, ghost p: seq<string>)
    returns (ghost n: Layout)
    requires Stands(l) && Has(l, p) && current == Focus(l, p).obj
    modifies current
    ensures n.obj == l.obj && Stands(n) && Objects(n) <= Objects(l)
    ensures Walks(old(TreeOf(l)), p)
    ensures TreeOf(n) == Replace(old(TreeOf(l)), p, KidsAt(old(TreeOf(l)), p)[key := Leaf(value)])
  {
    FocusIn(l, p);
    hide Holds, Value, Objects, Separate, Plug, Focus, Has, Replace, Walks, KidsAt;
    ghost var h := Now(Objects(l));
    current.entries := current.entries[key := Scalar(value)];
    ghost var wide := Now(Objects(l));
    n := Plug(l, p, Layout(Focus(l, p).obj, Focus(l, p).subs - {key}));
    LeafPlugged(h, wide, l, p, key, value);
    Untouched(wide, Now(Objects(n)), n);
  }

  /** A key of the object at a place taken out. */
  method TakeOut(current: MapObject, key: string, ghost l: Layout, ghost p: seq<string>) returns (ghost n: Layout)
    requires Stands(l) && Has(l, p) && current == Focus(l, p).obj
    modifies current
    ensures n == Plug(l, p, Layout(current, Focus(l, p).subs - {key}))
    ensures n.obj == l.obj && Stands(n) && Objects(n) <= Objects(l)
    ensures Walks(old(TreeOf(l)), p)
    ensures TreeOf(n) == Replace(old(TreeOf(l)), p, KidsAt(old(TreeOf(l)), p) - {key})
  {
    FocusIn(l, p);
    hide Holds, Value, Objects, Separate, Plug, Focus, Has, Replace, Walks, KidsAt;
    ghost var h := Now(Objects(l));
    current.entries := current.entries - {key};
    ghost var wide := Now(Objects(l));
    n := Plug(l, p, Layout(current, Focus(l, p).subs - {key}));
    RemovedPlugged(h, wide, l, p, key);
    Untouched(wide, Now(Objects(n)), n);
  }

  /** Each parent is the object on the way down, with the key that leads on. */
  ghost predicate OnTheWay(parents: seq<(MapObject, string)>, parts: seq<string>, l: Layout) {
    |parents| <= |parts| &&
    forall j :: 0 <= j < |parents| ==> Has(l, parts[..j]) && parents[j] == (Focus(l, parts[..j]).obj, parts[j])
  }

  /** What an object on the way holds under a key, against the tree. */
  lemma WayKinds(l: Layout, p: seq<string>, key: string)
    requires Stands(l) && Has(l, p)
    ensures Walks(TreeOf(l), p) && Focus(l, p).obj in Objects(l)
    ensures var entries, kids := Focus(l, p).obj.entries, KidsAt(TreeOf(l), p);
      && (key in entries <==> key in kids)
      && (key in entries ==> (entries[key].Sub? <==> kids[key].Node?))
      && (key in entries && entries[key].Sub? ==> Has(l, p + [key]) && Focus(l, p + [key]).obj == entries[key].obj)
      && (entries == map[] <==> kids == map[])
  {
    var h := Now(Objects(l));
    FocusIn(l, p);
    FocusHolds(h, l, p);
    EntryKinds(h, Focus(l, p), key);
    HasSnoc(l, p, key);
    var f := Focus(l, p);
    assert Value(h, f).Keys == h[f.obj].Keys;
    if h[f.obj] != map[] {
      var k :| k in h[f.obj];
      assert k in Value(h, f);
    } else {
      assert Value(h, f) == map[];
    }
  }

  lemma AbsentAt(m: Kids, parts: seq<string>, i: nat)
    requires i < |parts| && Walks(m, parts[..i])
    requires parts[i] !in KidsAt(m, parts[..i]) || (i < |parts| - 1 && KidsAt(m, parts[..i])[parts[i]].Leaf?)
    ensures Get(m, parts).None? && Delete(m, parts) == m
  {
    GetAlong(m, parts[..i], parts[i..]);
    assert parts == parts[..i] + parts[i..];
    GetDeleted(m, parts);
  }

  lemma PresentAt(m: Kids, p: seq<string>, key: string)
    requires Walks(m, p) && key in KidsAt(m, p)
    ensures Get(m, p + [key]).Some?
  {
    GetAlong(m, p, [key]);
  }

  /** The map at the first i parts once the path beyond them has been deleted. */
  function Cleaned(m: Kids, parts: seq<string>, i: nat): Kids
    requires i < |parts| && Walks(m, parts[..i])
  {
    Delete(KidsAt(m, parts[..i]), parts[i..])
  }

  /** One level of cleaning up: the map goes when it has been left empty. */
  lemma CleanStep(m: Kids, parts: seq<string>, i: nat)
    requires i + 1 < |parts| && Walks(m, parts[..i + 1]) && Get(m, parts).Some?
    ensures Walks(m, parts[..i])
    ensures var kids, child := KidsAt(m, parts[..i]), Cleaned(m, parts, i + 1);
      var t := Replace(m, parts[..i + 1], child);
      && Cleaned(m, parts, i) == (if child == map[] then kids - {parts[i]} else kids[parts[i] := Node(child)])
      && t == Replace(m, parts[..i], kids[parts[i] := Node(child)])
      && Walks(t, parts[..i]) && KidsAt(t, parts[..i]) == kids[parts[i] := Node(child)]
      && KidsAt(t, parts[..i]) - {parts[i]} == kids - {parts[i]}
      && Walks(t, parts[..i + 1]) && KidsAt(t, parts[..i + 1]) == child
      && Replace(t, parts[..i], kids - {parts[i]}) == Replace(m, parts[..i], kids - {parts[i]})
  {
    hide Walks, KidsAt, Replace;
    var p, key := parts[..i], parts[i];
    assert parts[..i + 1] == p + [key] && parts[i..][1..] == parts[i + 1..] && parts == p + parts[i..];
    WalksBack(m, p, key);
    var child := Cleaned(m, parts, i + 1);
    ReplaceSnoc(m, p, key, child);
    GetAlong(m, p, parts[i..]);
    var kids := KidsAt(m, p);
    ReplaceTwice(m, p + [key], child, child);
    ReplaceTwice(m, p, kids[key := Node(child)], kids - {key});
  }

  lemma {:induction false} WalksBack(m: Kids, p: seq<string>, k: string)
    requires Walks(m, p + [k])
    ensures Walks(m, p)
    decreases |p|
  {
    if p != [] {
      assert (p + [k])[1..] == p[1..] + [k];
      WalksBack(m[p[0]].kids, p[1..], k);
    }
  }

  /** The last loop of nestedDelete: from the innermost parent outwards. */
  method CleanUp(parents: seq<(MapObject, string)>, ghost parts: seq<string>, ghost m: Kids, ghost start: Layout)
    returns (ghost l: Layout)
    requires |parents| == |parts| - 1 && OnTheWay(parents, parts, start) && Has(start, parts[..|parents|])
    requires Stands(start)
    requires Get(m, parts).Some? && Walks(m, parts[..|parents|])
    requires TreeOf(start) == Replace(m, parts[..|parents|], Cleaned(m, parts, |parents|))
    modifies Objects(start)
    ensures l.obj == start.obj && Stands(l) && Objects(l) <= Objects(start) && TreeOf(l) == Delete(m, parts)
  {
    hide Holds, Value, Separate, Focus, Has, Replace, Walks, KidsAt, Stands, TreeOf, Get, Delete, Cleaned, OnTheWay;
    l := start;
    var i := |parents|;
    assert parents[..i] == parents;
    while i > 0
      invariant 0 <= i <= |parents|
      invariant l.obj == start.obj && Stands(l) && Objects(l) <= Objects(start)
      invariant OnTheWay(parents[..i], parts, l) && Has(l, parts[..i])
      invariant Walks(m, parts[..i]) && TreeOf(l) == Replace(m, parts[..i], Cleaned(m, parts, i))
    {
      i := i - 1;
      var (obj, key) := parents[i];
      assert parents[..i + 1][i] == (obj, key) && parts[..i + 1] == parts[..i] + [parts[i]];
      LastParent(parents[..i + 1], parts, l);
      CleanStep(m, parts, i);
      WayKinds(l, parts[..i], key);
      WayKinds(l, parts[..i + 1], "");
      var child := obj.entries[key].obj;
      ghost var was := l;
      if child.entries == map[] {
        l := TakeOut(obj, key, l, parts[..i]);
        WayKept(parents[..i], parts, was, l, parts[..i], Layout(obj, Focus(was, parts[..i]).subs - {key}));
      }
      assert parents[..i + 1][..i] == parents[..i];
    }
    assert parts[..0] == [] && parts[0..] == parts;
    WholeTree(m, parts);
  }

  lemma WholeTree(m: Kids, parts: seq<string>)
    requires parts != []
    ensures parts[..0] == [] && Walks(m, parts[..0]) && Replace(m, parts[..0], Cleaned(m, parts, 0)) == Delete(m, parts)
  {
    assert parts[0..] == parts;
  }

  lemma LastParent(parents: seq<(MapObject, string)>, parts: seq<string>, l: Layout)
    requires parents != [] && OnTheWay(parents, parts, l)
    ensures var n := |parents| - 1;
      && |parents| <= |parts| && OnTheWay(parents[..n], parts, l) && Has(l, parts[..n])
      && parents[n] == (Focus(l, parts[..n]).obj, parts[n])
  {
  }

  /** An edit further down leaves the objects on the way where they were. */
  lemma WayKept(parents: seq<(MapObject, string)>, parts: seq<string>, l: Layout, n: Layout, p: seq<string>,
                part: Layout)
    requires OnTheWay(parents, parts, l) && Has(l, p) && |parents| <= |parts| && p == parts[..|parents|]
    requires part.obj == Focus(l, p).obj && n == Plug(l, p, part)
    ensures OnTheWay(parents, parts, n) && Has(n, p)
  {
    forall j | 0 <= j < |parents| ensures Has(n, parts[..j]) && parents[j] == (Focus(n, parts[..j]).obj, parts[j]) {
      assert p[..j] == parts[..j];
      PlugAbove(l, p, part, j);
    }
    assert p[..|p|] == p;
    PlugAbove(l, p, part, |p|);
  }

  lemma NextParent(parents: seq<(MapObject, string)>, parts: seq<string>, l: Layout)
    requires |parents| < |parts| && OnTheWay(parents, parts, l) && Has(l, parts[..|parents|])
    ensures OnTheWay(parents + [(Focus(l, parts[..|parents|]).obj, parts[|parents|])], parts, l)
  {
  }

  lemma NoParents(parts: seq<string>, l: Layout)
    ensures OnTheWay([], parts, l)
  {
  }

  /** nestedDelete. */
  method NestedDelete(data: MapObject, dotPath: string, ghost start: Layout) returns (found: bool, ghost l: Layout)
    requires start.obj == data && Stands(start)
    modifies Objects(start)
    ensures l.obj == data && Stands(l) && Objects(l) <= Objects(start)
    ensures found <==> Get(old(TreeOf(start)), Split(dotPath)).Some?
    ensures TreeOf(l) == Delete(old(TreeOf(start)), Split(dotPath))
  {
    hide Holds, Value, Objects, Separate, Focus, Has, Replace, Walks, KidsAt, Split, Stands, TreeOf, Get;
    hide Delete, OnTheWay, Cleaned;
    var parts := Split(dotPath);
    var current := data;
    l := start;
    ghost var m := TreeOf(start);
    TopFocus(start);
    var parents: seq<(MapObject, string)> := [];
    NoParents(parts, start);
    assert parts[..0] == [];
    for i := 0 to |parts| - 1
      invariant Stands(start) && TreeOf(start) == m
      invariant |parents| == i && OnTheWay(parents, parts, start)
      invariant Has(start, parts[..i]) && current == Focus(start, parts[..i]).obj
    {
      WayKinds(start, parts[..i], parts[i]);
      if parts[i] !in current.entries { AbsentAt(m, parts, i); return false, l; }
      if current.entries[parts[i]].Scalar? { AbsentAt(m, parts, i); return false, l; }
      NextParent(parents, parts, start);
      parents := parents + [(current, parts[i])];
      current := current.entries[parts[i]].obj;
      assert parts[..i + 1] == parts[..i] + [parts[i]];
    }
    var lastKey := parts[|parts| - 1];
    ghost var p := parts[..|parts| - 1];
    assert parts == p + [lastKey];
    WayKinds(start, p, lastKey);
    if lastKey !in current.entries { AbsentAt(m, parts, |parts| - 1); return false, l; }
    PresentAt(m, p, lastKey);
    LastCleaned(m, p, lastKey);
    l := TakeOut(current, lastKey, l, p);
    WayKept(parents, parts, start, l, p, Layout(current, Focus(start, p).subs - {lastKey}));
    l := CleanUp(parents, parts, m, l);
    return true, l;
  }

  lemma LastCleaned(m: Kids, p: seq<string>, key: string)
    requires Walks(m, p)
    ensures (p + [key])[..|p|] == p && Cleaned(m, p + [key], |p|) == KidsAt(m, p) - {key}
  {
    assert (p + [key])[..|p|] == p && (p + [key])[|p|..] == [key];
  }
}
