/** Names and texts: the order Go's sort.Strings sorts by, sorting, and trimming. */
module Names {

  datatype Option<+T> = None | Some(value: T)

  datatype Result<+T, +E> = Success(value: T) | Failure(error: E)

  /** Lexicographic order on names, character by character. */
  predicate Less(a: string, b: string) {
    b != "" && (a == "" || a[0] < b[0] || (a[0] == b[0] && Less(a[1..], b[1..])))
  }

  /** The texts part at k: there a ends, or has the smaller character. */
  predicate PartsAt(a: string, b: string, k: nat) {
    k <= |a| && k < |b| && a[..k] == b[..k] && (k == |a| || a[k] < b[k])
  }

  /** Scalar values compare as the bytes of their UTF-8 encodings do. */
  lemma {:induction false} LessMeans(a: string, b: string)
    ensures Less(a, b) <==> exists k: nat :: PartsAt(a, b, k)
  {
    if a == "" || b == "" || a[0] != b[0] {
      if b != "" && (a == "" || a[0] < b[0]) { assert PartsAt(a, b, 0); }
      forall k: nat | PartsAt(a, b, k) ensures Less(a, b) {
        if k > 0 { assert a[..k][0] == b[..k][0]; }
      }
    } else {
      LessMeans(a[1..], b[1..]);
      if k: nat :| PartsAt(a[1..], b[1..], k) {
        assert a[..k + 1] == [a[0]] + a[1..][..k] && b[..k + 1] == [b[0]] + b[1..][..k];
        assert PartsAt(a, b, k + 1);
      }
      forall k: nat | PartsAt(a, b, k) ensures Less(a, b) {
        assert a[1..][..k - 1] == a[..k][1..] && b[1..][..k - 1] == b[..k][1..];
        assert PartsAt(a[1..], b[1..], k - 1);
      }
    }
  }

  lemma {:induction false} LessIrreflexive(a: string)
    ensures !Less(a, a)
  {
    if a != "" { LessIrreflexive(a[1..]); }
  }

  lemma {:induction false} LessTransitive(a: string, b: string, c: string)
    requires Less(a, b) && Less(b, c)
    ensures Less(a, c)
  {
    if a != "" && a[0] == b[0] && b[0] == c[0] {
      LessTransitive(a[1..], b[1..], c[1..]);
    }
  }

  lemma {:induction false} LessTotal(a: string, b: string)
    ensures Less(a, b) || a == b || Less(b, a)
  {
    if a != "" && b != "" && a[0] == b[0] {
      LessTotal(a[1..], b[1..]);
      assert a == [a[0]] + a[1..] && b == [b[0]] + b[1..];
    }
  }

  lemma LessAsymmetric(a: string, b: string)
    requires Less(a, b)
    ensures !Less(b, a)
  {
    if Less(b, a) {
      LessTransitive(a, b, a);
      LessIrreflexive(a);
    }
  }

  /** Sorted, duplicates allowed. */
  ghost predicate Ascending(s: seq<string>) {
    forall i, j :: 0 <= i < j < |s| ==> !Less(s[j], s[i])
  }

  ghost predicate Distinct<T>(s: seq<T>) {
    forall i, j :: 0 <= i < j < |s| ==> s[i] != s[j]
  }

  ghost function Elements<T>(s: seq<T>): set<T> {
    set x | x in s
  }

  lemma {:induction false} DistinctCount<T>(s: seq<T>)
    requires Distinct(s)
    ensures |Elements(s)| == |s|
  {
    if s == [] {
      assert Elements(s) == {};
    } else {
      var rest, last := s[..|s| - 1], s[|s| - 1];
      DistinctCount(rest);
      ElementsAppend(rest, last);
      assert s == rest + [last];
      assert last !in rest;
    }
  }

  lemma ElementsAppend<T>(s: seq<T>, x: T)
    ensures Elements(s + [x]) == Elements(s) + {x}
  {
    assert (s + [x])[|s|] == x;
    forall y | y in Elements(s) ensures y in Elements(s + [x]) {
      var i :| 0 <= i < |s| && s[i] == y;
      assert (s + [x])[i] == y;
    }
  }

  lemma PrefixKeeps<T>(a: seq<T>, b: seq<T>)
    requires a <= b
    ensures forall x :: x in a ==> x in b
  {
    assert forall i :: 0 <= i < |a| ==> b[i] == a[i];
  }

  /** Places x in front of the first entry that is not below it. */
  function Insert(x: string, s: seq<string>): (r: seq<string>)
    ensures multiset(r) == multiset(s) + multiset{x}
    ensures Ascending(s) ==> Ascending(r)
  {
    if s == [] then [x]
    else if Less(s[0], x) then
      var r := Insert(x, s[1..]);
      assert s == [s[0]] + s[1..];
      assert Ascending(s) ==> Ascending([s[0]] + r) by {
        if Ascending(s) { InsertHead(x, s, r); }
      }
      [s[0]] + r
    else
      assert Ascending(s) ==> Ascending([x] + s) by {
        if Ascending(s) { PrependBelow(x, s); }
      }
      [x] + s
  }

  lemma InsertHead(x: string, s: seq<string>, r: seq<string>)
    requires s != [] && Ascending(s) && Less(s[0], x)
    requires Ascending(r) && multiset(r) == multiset(s[1..]) + multiset{x}
    ensures Ascending([s[0]] + r)
  {
    LessAsymmetric(s[0], x);
    forall j | 0 <= j < |r| ensures !Less(r[j], s[0]) {
      assert r[j] in multiset(r);
      if r[j] != x {
        assert r[j] in s[1..];
        var k :| 0 <= k < |s[1..]| && s[1..][k] == r[j];
        assert s[k + 1] == r[j];
      }
    }
  }

  lemma PrependBelow(x: string, s: seq<string>)
    requires s != [] && Ascending(s) && !Less(s[0], x)
    ensures Ascending([x] + s)
  {
    forall j | 0 <= j < |s| ensures !Less(s[j], x) {
      if Less(s[j], x) {
        LessTotal(s[0], x);
        if s[0] != x { LessTransitive(s[j], x, s[0]); }
      }
    }
  }

  /** sort.Strings. */
  function Sort(s: seq<string>): (r: seq<string>)
    ensures multiset(r) == multiset(s)
    ensures Ascending(r)
  {
    if s == [] then [] else
      assert s == [s[0]] + s[1..];
      Insert(s[0], Sort(s[1..]))
  }

  lemma SortElements(s: seq<string>)
    ensures |Sort(s)| == |s|
    ensures forall x :: x in Sort(s) <==> x in s
  {
    var r := Sort(s);
    assert |multiset(r)| == |r| && |multiset(s)| == |s|;
    forall x ensures x in r <==> x in s {
      assert x in r <==> x in multiset(r);
    }
  }

  lemma SortDistinct(s: seq<string>)
    requires Distinct(s)
    ensures Distinct(Sort(s))
  {
    var r := Sort(s);
    forall i, j | 0 <= i < j < |r| ensures r[i] != r[j] {
      if r[i] == r[j] {
        Twice(r, i, j);
        DistinctOnce(s, r[i]);
      }
    }
  }

  lemma Twice<T>(s: seq<T>, i: nat, j: nat)
    requires i < j < |s| && s[i] == s[j]
    ensures multiset(s)[s[i]] >= 2
  {
    assert s == s[..j] + s[j..];
    assert s[i] in s[..j] && s[j] in s[j..];
    assert s[i] in multiset(s[..j]) && s[j] in multiset(s[j..]);
  }

  lemma DistinctOnce<T>(s: seq<T>, x: T)
    requires Distinct(s)
    ensures multiset(s)[x] <= 1
  {
    if s != [] {
      var rest := s[..|s| - 1];
      assert s == rest + [s[|s| - 1]];
      DistinctOnce(rest, x);
      if s[|s| - 1] == x {
        assert x !in rest;
        assert x !in multiset(rest);
      }
    }
  }

  /** unicode.IsSpace. */
  predicate IsSpace(c: char) {
    || '\t' <= c <= '\r' || c == ' ' || c == '\U{85}' || c == '\U{A0}' || c == '\U{1680}'
    || '\U{2000}' <= c <= '\U{200A}' || c == '\U{2028}' || c == '\U{2029}' || c == '\U{202F}'
    || c == '\U{205F}' || c == '\U{3000}'
  }

  /** strings.TrimSpace. */
  function TrimSpace(s: string): string {
    if s == "" then ""
    else if IsSpace(s[0]) then TrimSpace(s[1..])
    else if IsSpace(s[|s| - 1]) then TrimSpace(s[..|s| - 1])
    else s
  }

  /** The spaces of Unicode's White_Space property. */
  predicate WhiteSpace(c: char) {
    || c in "\t\n\U{B}\U{C}\r \U{85}\U{A0}\U{1680}\U{2028}\U{2029}\U{202F}\U{205F}\U{3000}"
    || '\U{2000}' <= c <= '\U{200A}'
  }

  lemma SpacesAgree(c: char)
    ensures IsSpace(c) <==> WhiteSpace(c)
  {
  }

  /** From i to e the text is t, and white space before and behind. */
  ghost predicate PaddedAt(s: string, t: string, i: nat, e: nat) {
    && i <= e <= |s| && s[i..e] == t
    && forall k :: 0 <= k < |s| && (k < i || e <= k) ==> WhiteSpace(s[k])
  }

  ghost predicate Padded(s: string, t: string) {
    exists i: nat, e: nat :: PaddedAt(s, t, i, e)
  }

  lemma PaddedMore(s: string, t: string)
    requires s != ""
    ensures WhiteSpace(s[0]) && Padded(s[1..], t) ==> Padded(s, t)
    ensures WhiteSpace(s[|s| - 1]) && Padded(s[..|s| - 1], t) ==> Padded(s, t)
  {
    hide WhiteSpace;
    if WhiteSpace(s[0]) && Padded(s[1..], t) {
      var i: nat, e: nat :| PaddedAt(s[1..], t, i, e);
      forall k | 0 <= k < |s| && (k < i + 1 || e + 1 <= k) ensures WhiteSpace(s[k]) {
        if k > 0 { assert s[k] == s[1..][k - 1]; }
      }
      assert PaddedAt(s, t, i + 1, e + 1);
    }
    if WhiteSpace(s[|s| - 1]) && Padded(s[..|s| - 1], t) {
      var i: nat, e: nat :| PaddedAt(s[..|s| - 1], t, i, e);
      forall k | 0 <= k < |s| && (k < i || e <= k) ensures WhiteSpace(s[k]) {
        if k < |s| - 1 { assert s[k] == s[..|s| - 1][k]; }
      }
      assert PaddedAt(s, t, i, e);
    }
  }

  /** Trimming takes white space off both ends, and all of it. */
  lemma {:induction false} TrimMeans(s: string)
    ensures Padded(s, TrimSpace(s))
    ensures var t := TrimSpace(s); t != "" ==> !WhiteSpace(t[0]) && !WhiteSpace(t[|t| - 1])
    decreases |s|
  {
    if s != "" {
      SpacesAgree(s[0]);
      SpacesAgree(s[|s| - 1]);
      PaddedMore(s, TrimSpace(s));
    }
    hide IsSpace, WhiteSpace;
    if s != "" && IsSpace(s[0]) {
      TrimMeans(s[1..]);
    } else if s != "" && IsSpace(s[|s| - 1]) {
      TrimMeans(s[..|s| - 1]);
    } else {
      assert PaddedAt(s, s, 0, |s|);
    }
  }

  /** strings.Join. */
  function Join(parts: seq<string>, sep: string): string {
    if parts == [] then ""
    else if |parts| == 1 then parts[0]
    else parts[0] + sep + Join(parts[1..], sep)
  }

  /** w stands in s at position i. */
  predicate At<T(==)>(s: seq<T>, i: nat, w: seq<T>) {
    i + |w| <= |s| && s[i..i + |w|] == w
  }

  lemma Associate<T>(a: seq<T>, b: seq<T>, c: seq<T>)
    ensures (a + b) + c == a + (b + c)
  {
  }

  lemma AtParts<T>(s: seq<T>, i: nat, a: seq<T>, b: seq<T>)
    requires At(s, i, a + b)
    ensures At(s, i, a) && At(s, i + |a|, b)
  {
    var w := a + b;
    assert s[i..i + |a|] == w[..|a|];
    assert s[i + |a|..i + |a| + |b|] == w[|a|..];
  }

  lemma AtThree<T>(s: seq<T>, i: nat, a: seq<T>, x: T, b: seq<T>)
    requires At(s, i, a + [x] + b)
    ensures At(s, i, a) && i + |a| < |s| && s[i + |a|] == x && At(s, i + |a| + 1, b)
  {
    AtParts(s, i, a + [x], b);
    AtParts(s, i, a, [x]);
    AtHead(s, i + |a|, [x]);
  }

  lemma AtHead<T>(s: seq<T>, i: nat, w: seq<T>)
    requires At(s, i, w) && w != []
    ensures i < |s| && s[i] == w[0]
  {
    assert s[i..i + |w|][0] == s[i];
  }

  lemma AtIndex<T>(s: seq<T>, i: nat, w: seq<T>)
    requires At(s, i, w)
    ensures i + |w| <= |s| && forall k :: i <= k < i + |w| ==> s[k] == w[k - i]
  {
    forall k | i <= k < i + |w| ensures s[k] == w[k - i] {
      assert s[k] == s[i..i + |w|][k - i];
    }
  }

  /** The elements of a set of names, sorted. */
  ghost function Sorted(s: set<string>): (r: seq<string>)
    ensures Ascending(r) && Distinct(r) && Elements(r) == s
  {
    if s == {} then []
    else
      var x :| x in s;
      var rest := Sorted(s - {x});
      InsertNew(x, rest);
      Insert(x, rest)
  }

  lemma InsertNew(x: string, s: seq<string>)
    requires Distinct(s) && Ascending(s) && x !in s
    ensures Distinct(Insert(x, s)) && Elements(Insert(x, s)) == Elements(s) + {x}
  {
    hide Insert, Ascending;
    var r := Insert(x, s);
    assert multiset(r) == multiset(s + [x]);
    SameCounts(r, s + [x]);
    ElementsAppend(s, x);
  }

  lemma SameCounts(r: seq<string>, s: seq<string>)
    requires multiset(r) == multiset(s) && Distinct(s)
    ensures Distinct(r) && Elements(r) == Elements(s)
  {
    forall i, j | 0 <= i < j < |r| ensures r[i] != r[j] {
      if r[i] == r[j] {
        Twice(r, i, j);
        DistinctOnce(s, r[i]);
      }
    }
    forall y ensures y in r <==> y in s {
      assert y in r <==> y in multiset(r);
      assert y in s <==> y in multiset(s);
    }
  }

  /** Two sorted arrangements of the same names are the same. */
  lemma {:induction false} SortedUnique(a: seq<string>, b: seq<string>)
    requires Ascending(a) && Distinct(a) && Ascending(b) && Distinct(b) && Elements(a) == Elements(b)
    ensures a == b
  {
    DistinctCount(a);
    DistinctCount(b);
    if a != [] {
      LeastFirst(a, b);
      LeastFirst(b, a);
      LessTotal(a[0], b[0]);
      TailElements(a);
      TailElements(b);
      SortedUnique(a[1..], b[1..]);
      assert a == [a[0]] + a[1..] && b == [b[0]] + b[1..];
    }
  }

  lemma LeastFirst(a: seq<string>, b: seq<string>)
    requires a != [] && b != [] && Ascending(b) && Elements(a) == Elements(b)
    ensures !Less(a[0], b[0])
  {
    assert a[0] in Elements(b);
    var i :| 0 <= i < |b| && b[i] == a[0];
    LessIrreflexive(a[0]);
  }

  lemma TailElements(a: seq<string>)
    requires a != [] && Distinct(a) && Ascending(a)
    ensures Elements(a[1..]) == Elements(a) - {a[0]} && Distinct(a[1..]) && Ascending(a[1..])
  {
    assert a == [a[0]] + a[1..];
  }

  /** sortedKeys: a map's keys, in whatever order the range visits them, sorted. */
  method SortedKeys(m: set<string>) returns (keys: seq<string>)
    ensures Ascending(keys) && Distinct(keys) && keys == Sorted(m)
    ensures forall k :: k in keys <==> k in m
  {
    keys := [];
    var todo := m;
    while todo != {}
      invariant todo <= m && Distinct(keys)
      invariant forall k :: k in keys <==> k in m - todo
    {
      var k :| k in todo;
      assert k !in keys;
      todo := todo - {k};
      keys := keys + [k];
    }
    SortElements(keys);
    SortDistinct(keys);
    keys := Sort(keys);
    assert Elements(keys) == m;
    SortedUnique(keys, Sorted(m));
  }
}
