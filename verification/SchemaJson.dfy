/** The dumped schema's insertion-ordered document and its canonical writer. */
module SchemaJson {
  import opened Names

  // --- The ordered object ----------------------------------------------------------

  datatype Pair<V> = Pair(key: string, value: V)

  ghost predicate HasKey<V>(ps: seq<Pair<V>>, key: string) {
    exists p :: p in ps && p.key == key
  }

  ghost function Keys<V>(ps: seq<Pair<V>>): seq<string> {
    seq(|ps|, i requires 0 <= i < |ps| => ps[i].key)
  }

  /** set on the ordered members: overwrite in place, or append. */
  ghost function WithSet<V>(ps: seq<Pair<V>>, key: string, value: V): seq<Pair<V>> {
    if ps == [] then [Pair(key, value)]
    else if ps[0].key == key then [Pair(key, value)] + ps[1..]
    else [ps[0]] + WithSet(ps[1..], key, value)
  }

  ghost function Without<V>(ps: seq<Pair<V>>, key: string): seq<Pair<V>> {
    if ps == [] then []
    else if ps[0].key == key then ps[1..]
    else [ps[0]] + Without(ps[1..], key)
  }

  /** insertAfter on the ordered members, for a key not yet there. */
  ghost function WithAfter<V>(ps: seq<Pair<V>>, existing: string, key: string, value: V): seq<Pair<V>> {
    if ps == [] then [Pair(key, value)]
    else if ps[0].key == existing then [ps[0], Pair(key, value)] + ps[1..]
    else [ps[0]] + WithAfter(ps[1..], existing, key, value)
  }

  class SchemaObject<V> {
    var keys: seq<string>
    var vals: map<string, V>

    /** The keys are distinct and are exactly the map's. */
    ghost predicate Valid()
      reads this
    {
      Distinct(keys) && Elements(keys) == vals.Keys
    }

    /** The document the object stands for: its members in order. */
    ghost function Members(): (ps: seq<Pair<V>>)
      requires Valid()
      reads this
      ensures |ps| == |keys|
    {
      MembersOf(keys, vals)
    }

    constructor ()
      ensures Valid() && Members() == []
    {
      keys, vals := [], map[];
    }

    method Set(key: string, value: V)
      requires Valid()
      modifies this
      ensures Valid() && Members() == WithSet(old(Members()), key, value)
    {
      ghost var before := Members();
      HasKeyMeans(keys, vals, key);
      if key !in vals {
        AbsentKey(before, key, key, value);
        ElementsAppend(keys, key);
        keys := keys + [key];
      } else {
        ghost var i := KeyPosition(keys, vals, key);
        PresentKey(before, i, key, value);
        assert Elements(keys) == vals[key := value].Keys;
      }
      vals := vals[key := value];
      SameMembers(keys, vals, WithSet(before, key, value));
    }

    method Get(key: string) returns (r: Option<V>)
      requires Valid()
      ensures r.Some? ==> Pair(key, r.value) in Members()
      ensures r.None? ==> !HasKey(Members(), key)
    {
      if key in vals {
        var i :| 0 <= i < |keys| && keys[i] == key;
        assert Members()[i] == Pair(key, vals[key]);
        return Some(vals[key]);
      }
      return None;
    }

    method Delete(key: string)
      requires Valid()
      modifies this
      ensures Valid() && Members() == Without(old(Members()), key)
    {
      ghost var before := Members();
      HasKeyMeans(keys, vals, key);
      if key !in vals {
        AbsentWithout(before, key);
        return;
      }
      var i := IndexOf(key);
      ghost var _ := KeyPosition(keys, vals, key);
      PresentWithout(before, i, key);
      RemoveAt(keys, i);
      vals := vals - {key};
      keys := keys[..i] + keys[i + 1..];
      SameMembers(keys, vals, Without(before, key));
    }

    method InsertAfter(existing: string, key: string, value: V)
      requires Valid()
      modifies this
      ensures Valid()
      ensures Members() == if HasKey(old(Members()), key) then WithSet(old(Members()), key, value)
                           else WithAfter(old(Members()), existing, key, value)
    {
      HasKeyMeans(keys, vals, key);
      if key in vals {
        Set(key, value);
        return;
      }
      PlaceNew(existing, key, value);
    }

    /** insertAfter for a key not yet there: behind existing, or last. */
    method PlaceNew(existing: string, key: string, value: V)
      requires Valid() && key !in vals
      modifies this
      ensures Valid() && Members() == WithAfter(old(Members()), existing, key, value)
    {
      ghost var before := Members();
      HasKeyMeans(keys, vals, existing);
      if existing !in vals {
        AbsentKey(before, existing, key, value);
        InsertMembers(keys, vals, |keys|, key, value);
        AtEnd(keys, key);
        AtEnd(before, Pair(key, value));
        keys := keys + [key];
      } else {
        var i := IndexOf(existing);
        PresentAfter(before, i, existing, key, value);
        InsertMembers(keys, vals, i + 1, key, value);
        keys := keys[..i + 1] + [key] + keys[i + 1..];
      }
      vals := vals[key := value];
    }

    /** The scan over the keys. */
    method IndexOf(key: string) returns (i: nat)
      requires Valid() && key in vals
      ensures i < |keys| && keys[i] == key
    {
      assert key in Elements(keys);
      i := 0;
      while keys[i] != key
        invariant i < |keys| && key !in keys[..i]
        decreases |keys| - i
      {
        i := i + 1;
        assert keys == keys[..i] + keys[i..];
      }
    }
  }

  ghost function MembersOf<V>(keys: seq<string>, vals: map<string, V>): (ps: seq<Pair<V>>)
    requires Elements(keys) <= vals.Keys
    ensures |ps| == |keys|
    ensures forall i :: 0 <= i < |keys| ==> keys[i] in vals && ps[i] == Pair(keys[i], vals[keys[i]])
  {
    assert forall i :: 0 <= i < |keys| ==> keys[i] in Elements(keys);
    seq(|keys|, i requires 0 <= i < |keys| => Pair(keys[i], vals[keys[i]]))
  }

  lemma SameMembers<V>(keys: seq<string>, vals: map<string, V>, ps: seq<Pair<V>>)
    requires Elements(keys) <= vals.Keys && |ps| == |keys|
    requires forall i :: 0 <= i < |keys| ==> keys[i] in vals && ps[i] == Pair(keys[i], vals[keys[i]])
    ensures MembersOf(keys, vals) == ps
  {
  }

  lemma HasKeyMeans<V>(keys: seq<string>, vals: map<string, V>, key: string)
    requires Elements(keys) == vals.Keys
    ensures HasKey(MembersOf(keys, vals), key) <==> key in vals
  {
    var ps := MembersOf(keys, vals);
    if key in vals {
      assert key in Elements(keys);
      var i :| 0 <= i < |keys| && keys[i] == key;
      assert ps[i].key == key && ps[i] in ps;
    }
  }

  /** The one position of a key. */
  ghost predicate OnlyAt<V>(ps: seq<Pair<V>>, i: nat, key: string) {
    i < |ps| && ps[i].key == key && forall j :: 0 <= j < |ps| && j != i ==> ps[j].key != key
  }

  lemma KeyPosition<V>(keys: seq<string>, vals: map<string, V>, key: string) returns (i: nat)
    requires Distinct(keys) && Elements(keys) == vals.Keys && key in vals
    ensures OnlyAt(MembersOf(keys, vals), i, key)
  {
    assert key in Elements(keys);
    i :| i < |keys| && keys[i] == key;
  }

  lemma {:induction false} AbsentKey<V>(ps: seq<Pair<V>>, existing: string, key: string, value: V)
    requires !HasKey(ps, existing)
    ensures WithAfter(ps, existing, key, value) == ps + [Pair(key, value)]
    ensures existing == key ==> WithSet(ps, key, value) == ps + [Pair(key, value)]
  {
    if ps != [] {
      assert ps[0] in ps && forall p :: p in ps[1..] ==> p in ps;
      AbsentKey(ps[1..], existing, key, value);
      assert ps == [ps[0]] + ps[1..];
    }
  }

  lemma {:induction false} AbsentWithout<V>(ps: seq<Pair<V>>, key: string)
    requires !HasKey(ps, key)
    ensures Without(ps, key) == ps
  {
    if ps != [] {
      assert ps[0] in ps && forall p :: p in ps[1..] ==> p in ps;
      AbsentWithout(ps[1..], key);
    }
  }

  lemma {:induction false} PresentKey<V>(ps: seq<Pair<V>>, i: nat, key: string, value: V)
    requires OnlyAt(ps, i, key)
    ensures WithSet(ps, key, value) == ps[i := Pair(key, value)]
  {
    if i > 0 { PresentKey(ps[1..], i - 1, key, value); }
  }

  lemma {:induction false} PresentWithout<V>(ps: seq<Pair<V>>, i: nat, key: string)
    requires OnlyAt(ps, i, key)
    ensures Without(ps, key) == ps[..i] + ps[i + 1..]
  {
    if i > 0 { PresentWithout(ps[1..], i - 1, key); }
  }

  lemma {:induction false} PresentAfter<V>(ps: seq<Pair<V>>, i: nat, existing: string, key: string, value: V)
    requires OnlyAt(ps, i, existing)
    ensures WithAfter(ps, existing, key, value) == ps[..i + 1] + [Pair(key, value)] + ps[i + 1..]
  {
    if i > 0 { PresentAfter(ps[1..], i - 1, existing, key, value); }
  }

  lemma RemoveAt(keys: seq<string>, i: nat)
    requires Distinct(keys) && i < |keys|
    ensures var r := keys[..i] + keys[i + 1..]; Distinct(r) && Elements(r) == Elements(keys) - {keys[i]}
  {
    assert keys == keys[..i] + [keys[i]] + keys[i + 1..];
  }

  lemma InsertMembers<V>(keys: seq<string>, vals: map<string, V>, i: nat, key: string, value: V)
    requires Distinct(keys) && Elements(keys) == vals.Keys && i <= |keys| && key !in vals
    ensures var r := keys[..i] + [key] + keys[i..];
      && Distinct(r) && Elements(r) == vals[key := value].Keys
      && MembersOf(r, vals[key := value]) ==
         MembersOf(keys, vals)[..i] + [Pair(key, value)] + MembersOf(keys, vals)[i..]
  {
    hide Elements;
    InsertDistinct(keys, i, key);
    var r, ps := keys[..i] + [key] + keys[i..], MembersOf(keys, vals);
    SameMembers(r, vals[key := value], ps[..i] + [Pair(key, value)] + ps[i..]);
  }

  lemma AtEnd<T>(s: seq<T>, x: T)
    ensures s[..|s|] + [x] + s[|s|..] == s + [x]
  {
  }

  lemma InsertDistinct(keys: seq<string>, i: nat, key: string)
    requires Distinct(keys) && i <= |keys| && key !in Elements(keys)
    ensures var r := keys[..i] + [key] + keys[i..]; Distinct(r) && Elements(r) == Elements(keys) + {key}
  {
    assert keys == keys[..i] + keys[i..];
  }

  /** Deleting a newly placed key restores the object, wherever it was placed. */
  lemma {:induction false} DeleteUndoesInsert<V>(ps: seq<Pair<V>>, existing: string, key: string, value: V)
    requires !HasKey(ps, key)
    ensures Without(WithAfter(ps, existing, key, value), key) == ps
    ensures Without(WithSet(ps, key, value), key) == ps
  {
    DeleteUndoesSet(ps, key, value);
    if ps != [] {
      assert ps[0] in ps && forall p :: p in ps[1..] ==> p in ps;
      DeleteUndoesInsert(ps[1..], existing, key, value);
    }
  }

  lemma {:induction false} DeleteUndoesSet<V>(ps: seq<Pair<V>>, key: string, value: V)
    requires !HasKey(ps, key)
    ensures Without(WithSet(ps, key, value), key) == ps
  {
    if ps != [] {
      assert ps[0] in ps && forall p :: p in ps[1..] ==> p in ps;
      DeleteUndoesSet(ps[1..], key, value);
    }
  }

  /** Overwriting keeps the position the first write gave the key. */
  lemma {:induction false} SetKeepsOrder<V>(ps: seq<Pair<V>>, key: string, value: V)
    requires HasKey(ps, key)
    ensures Keys(WithSet(ps, key, value)) == Keys(ps)
  {
    if ps[0].key != key {
      assert HasKey(ps[1..], key);
      SetKeepsOrder(ps[1..], key, value);
      assert Keys(ps) == [ps[0].key] + Keys(ps[1..]);
      assert Keys(WithSet(ps, key, value)) == [ps[0].key] + Keys(WithSet(ps[1..], key, value));
    }
  }
}
