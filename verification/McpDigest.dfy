/** mcpCanonicalJSON and the request digest's material: what the digested text says. */
module McpDigest {
  import opened Names
  import opened JsonText
  import opened Numbers
  import opened JsonRoundTrip
  import opened CanonicalWriter

  /** A JSON value as the decoder delivers it: objects are unordered maps throughout. */
  predicate Decoded(v: Value)
    decreases v
  {
    match v
    case List(items) => forall i :: 0 <= i < |items| ==> Decoded(items[i])
    case Plain(entries) => forall k :: k in entries ==> Decoded(entries[k])
    case Ordered(_, _) => false
    case Other => false
    case _ => true
  }

  /** mcpCanonicalJSON: sorted keys, no insignificant whitespace. */
  ghost function McpCanonicalJSON(v: Value): string
    requires Decoded(v)
    decreases v, 2
  {
    match v
    case Null => "null"
    case Bool(b) => if b then "true" else "false"
    case Int(n) => Itoa(n)
    case Float(f) => if SmallWhole(f) then Itoa(IntOf(f)) else FormatFloatCanonical(f)
    case Str(s) => Quote(Compact, s)
    case List(items) => "[" + Join(ItemParts(items), ",") + "]"
    case Plain(entries) => "{" + Join(EntryParts(v, Sorted(entries.Keys)), ",") + "}"
  }

  ghost function ItemParts(items: seq<Value>): (r: seq<string>)
    requires forall i :: 0 <= i < |items| ==> Decoded(items[i])
    ensures |r| == |items|
    decreases items, 0
  {
    if items == [] then [] else [McpCanonicalJSON(items[0])] + ItemParts(items[1..])
  }

  ghost function EntryParts(v: Value, keys: seq<string>): (r: seq<string>)
    requires Decoded(v) && v.Plain? && Elements(keys) <= v.entries.Keys
    ensures |r| == |keys|
    decreases v, 1, |keys|
  {
    if keys == [] then []
    else
      assert keys[0] in Elements(keys) && Elements(keys[1..]) <= Elements(keys);
      [Quote(Compact, keys[0]) + ":" + McpCanonicalJSON(v.entries[keys[0]])] + EntryParts(v, keys[1..])
  }

  // --- It is the compact text of the value's document ----------------------------------

  lemma {:induction false} CanonicalIsText(v: Value, depth: nat)
    requires Decoded(v)
    ensures McpCanonicalJSON(v) == Text(Compact, Doc(Compact, v), depth)
    decreases v, 2
  {
    match v
    case List(items) => ListIsText(items, depth);
    case Plain(_) => PlainIsText(v, depth);
    case _ =>
  }

  lemma {:induction false} ListIsText(items: seq<Value>, depth: nat)
    requires Decoded(List(items))
    ensures McpCanonicalJSON(List(items)) == Text(Compact, Doc(Compact, List(items)), depth)
    decreases List(items), 1
  {
    hide ItemsText;
    if items != [] {
      ItemsAreText(items, depth + 1);
      Bracketed("[", Join(ItemParts(items), ","), "]");
    }
  }

  lemma {:induction false} PlainIsText(v: Value, depth: nat)
    requires v.Plain? && Decoded(v)
    ensures McpCanonicalJSON(v) == Text(Compact, Doc(Compact, v), depth)
    decreases v, 1
  {
    hide MembersText;
    var keys := Sorted(v.entries.Keys);
    if keys != [] {
      EntriesAreText(v, keys, depth + 1);
      Bracketed("{", Join(EntryParts(v, keys), ","), "}");
    }
  }

  lemma Bracketed(open: string, body: string, close: string)
    ensures open + body + "" + close == open + body + close
  {
    assert open + body + "" == open + body;
  }

  lemma {:induction false} ItemsAreText(items: seq<Value>, depth: nat)
    requires items != [] && forall i :: 0 <= i < |items| ==> Decoded(items[i])
    ensures Join(ItemParts(items), ",") == ItemsText(Compact, DocItems(Compact, items), depth)
    decreases items, 3
  {
    hide Text, McpCanonicalJSON, Doc;
    CanonicalIsText(items[0], depth);
    var first := Text(Compact, Doc(Compact, items[0]), depth);
    assert "" + first == first;
    if |items| > 1 {
      ItemsAreText(items[1..], depth);
      var more := Join(ItemParts(items[1..]), ",");
      assert ItemParts(items)[1..] == ItemParts(items[1..]);
      assert DocItems(Compact, items)[1..] == DocItems(Compact, items[1..]);
      assert first + "," + more == first + ("," + more);
    } else {
      assert first + "" == first;
    }
  }

  lemma {:induction false} EntriesAreText(v: Value, keys: seq<string>, depth: nat)
    requires keys != [] && Decoded(v) && v.Plain? && Elements(keys) <= v.entries.Keys
    ensures Join(EntryParts(v, keys), ",") == MembersText(Compact, DocMembers(Compact, v, keys), depth)
    decreases v, 0, |keys|
  {
    hide Text, McpCanonicalJSON, Doc, Quote;
    assert keys[0] in Elements(keys) && Elements(keys[1..]) <= Elements(keys);
    CanonicalIsText(v.entries[keys[0]], depth);
    var key, value := Quote(Compact, keys[0]), Text(Compact, Doc(Compact, v.entries[keys[0]]), depth);
    var first := key + ":" + value;
    assert MemberText(Compact, DocMembers(Compact, v, keys)[0], depth) == first by {
      assert "" + key == key;
    }
    if |keys| > 1 {
      EntriesAreText(v, keys[1..], depth);
      var more := Join(EntryParts(v, keys[1..]), ",");
      assert EntryParts(v, keys)[1..] == EntryParts(v, keys[1..]);
      assert DocMembers(Compact, v, keys)[1..] == DocMembers(Compact, v, keys[1..]);
      assert first + "," + more == first + ("," + more);
    } else {
      assert first + "" == first;
    }
  }

  // --- Equal texts are equal values -------------------------------------------------------

  /** What a number says, however it is held: an integer, or a float that is no small whole. */
  datatype Said = Whole(n: int) | Fractional(f: Float)

  function NumberSaid(v: Value): Said
    requires v.Int? || v.Float?
  {
    match v
    case Int(n) => Whole(n)
    case Float(f) => if SmallWhole(f) then Whole(IntOf(f)) else Fractional(f)
  }

  /** The same value, objects taken as maps and numbers for what they say. */
  ghost predicate Same(v: Value, w: Value)
    requires Decoded(v) && Decoded(w)
    decreases v
  {
    if v.Int? || v.Float? then (w.Int? || w.Float?) && NumberSaid(v) == NumberSaid(w)
    else if v.List? then
      w.List? && |v.items| == |w.items| && forall i :: 0 <= i < |v.items| ==> Same(v.items[i], w.items[i])
    else if v.Plain? then
      w.Plain? && v.entries.Keys == w.entries.Keys && forall k :: k in v.entries ==> Same(v.entries[k], w.entries[k])
    else v == w
  }

  /** Two floats say the same number only when they are one float, or both zero. */
  lemma FloatsSaid(f: Float, g: Float)
    ensures NumberSaid(Float(f)) == NumberSaid(Float(g)) <==> f == g || (f.digits == "" && g.digits == "")
  {
    if SmallWhole(f) && SmallWhole(g) && IntOf(f) == IntOf(g) { WholeInjective(f, g); }
  }

  lemma {:induction false} DocSame(v: Value, w: Value)
    requires Decoded(v) && Decoded(w)
    ensures Doc(Compact, v) == Doc(Compact, w) <==> Same(v, w)
    decreases v, 1
  {
    if v.List? && w.List? {
      ListsSame(v.items, w.items);
    } else if v.Plain? && w.Plain? {
      PlainSame(v, w);
    }
  }

  lemma {:induction false} ListsSame(a: seq<Value>, b: seq<Value>)
    requires Decoded(List(a)) && Decoded(List(b))
    ensures DocItems(Compact, a) == DocItems(Compact, b) <==> Same(List(a), List(b))
    decreases List(a), 0
  {
    if |a| == |b| {
      forall i | 0 <= i < |a|
        ensures DocItems(Compact, a)[i] == DocItems(Compact, b)[i] <==> Same(a[i], b[i])
      {
        DocItemsAt(Compact, a, i);
        DocItemsAt(Compact, b, i);
        DocSame(a[i], b[i]);
      }
    }
  }

  lemma {:induction false} PlainSame(v: Value, w: Value)
    requires v.Plain? && w.Plain? && Decoded(v) && Decoded(w)
    ensures Doc(Compact, v) == Doc(Compact, w) <==> Same(v, w)
    decreases v, 0
  {
    hide Same, Decoded;
    if Doc(Compact, v) == Doc(Compact, w) { MemberKeys(v, w); }
    if v.entries.Keys == w.entries.Keys {
      forall k | k in v.entries
        ensures Decoded(v.entries[k]) && Decoded(w.entries[k])
        ensures EntryDoc(Compact, v, k) == EntryDoc(Compact, w, k) <==> Same(v.entries[k], w.entries[k])
      {
        EntriesDecoded(v, k);
        EntriesDecoded(w, k);
        DocSame(v.entries[k], w.entries[k]);
      }
      KeywiseDocs(v, w);
    }
    PlainSameMeans(v, w);
  }

  lemma EntriesDecoded(v: Value, k: string)
    requires v.Plain? && Decoded(v) && k in v.entries
    ensures Decoded(v.entries[k])
  {
  }

  lemma PlainSameMeans(v: Value, w: Value)
    requires v.Plain? && w.Plain? && Decoded(v) && Decoded(w)
    ensures Same(v, w) <==>
      v.entries.Keys == w.entries.Keys && forall k :: k in v.entries ==> Same(v.entries[k], w.entries[k])
  {
  }

  /** Equal objects have the same keys. */
  lemma MemberKeys(v: Value, w: Value)
    requires v.Plain? && w.Plain? && Doc(Compact, v) == Doc(Compact, w)
    ensures v.entries.Keys == w.entries.Keys
  {
    var ks, ms := Sorted(v.entries.Keys), Sorted(w.entries.Keys);
    assert DocMembers(Compact, v, ks) == DocMembers(Compact, w, ms) && |ks| == |ms|;
    forall i | 0 <= i < |ks| ensures ks[i] == ms[i] {
      DocMembersAt(Compact, v, ks, i);
      DocMembersAt(Compact, w, ms, i);
    }
    assert ks == ms;
    assert v.entries.Keys == Elements(ks) == w.entries.Keys;
  }

  /** Objects with the same keys are equal documents when their entries are. */
  lemma KeywiseDocs(v: Value, w: Value)
    requires v.Plain? && w.Plain? && v.entries.Keys == w.entries.Keys
    ensures Doc(Compact, v) == Doc(Compact, w) <==>
      forall k :: k in v.entries ==> EntryDoc(Compact, v, k) == EntryDoc(Compact, w, k)
  {
    hide Doc, EntryDoc;
    if Doc(Compact, v) == Doc(Compact, w) {
      forall k | k in v.entries ensures EntryDoc(Compact, v, k) == EntryDoc(Compact, w, k) {
        EqualEntry(v, w, k);
      }
    } else if forall k :: k in v.entries ==> EntryDoc(Compact, v, k) == EntryDoc(Compact, w, k) {
      EqualDocs(v, w);
    }
  }

  lemma EqualEntry(v: Value, w: Value, k: string)
    requires v.Plain? && w.Plain? && v.entries.Keys == w.entries.Keys && Doc(Compact, v) == Doc(Compact, w)
    requires k in v.entries
    ensures EntryDoc(Compact, v, k) == EntryDoc(Compact, w, k)
  {
    var ks := Sorted(v.entries.Keys);
    assert DocMembers(Compact, v, ks) == DocMembers(Compact, w, ks);
    assert k in Elements(ks);
    var i :| 0 <= i < |ks| && ks[i] == k;
    hide Doc, EntryDoc, DocMembers;
    DocMembersAt(Compact, v, ks, i);
    DocMembersAt(Compact, w, ks, i);
  }

  lemma EqualDocs(v: Value, w: Value)
    requires v.Plain? && w.Plain? && v.entries.Keys == w.entries.Keys
    requires forall k :: k in v.entries ==> EntryDoc(Compact, v, k) == EntryDoc(Compact, w, k)
    ensures Doc(Compact, v) == Doc(Compact, w)
  {
    var ks := Sorted(v.entries.Keys);
    EqualMembers(v, w, ks);
  }

  lemma EqualMembers(v: Value, w: Value, ks: seq<string>)
    requires v.Plain? && w.Plain? && Elements(ks) == v.entries.Keys
    requires forall k :: k in v.entries ==> EntryDoc(Compact, v, k) == EntryDoc(Compact, w, k)
    ensures DocMembers(Compact, v, ks) == DocMembers(Compact, w, ks)
  {
    hide EntryDoc, DocMembers;
    forall i | 0 <= i < |ks| ensures DocMembers(Compact, v, ks)[i] == DocMembers(Compact, w, ks)[i] {
      DocMembersAt(Compact, v, ks, i);
      DocMembersAt(Compact, w, ks, i);
      assert ks[i] in Elements(ks);
    }
  }

  /** Canonical texts are equal exactly when the values are the same. */
  lemma CanonicalInjective(v: Value, w: Value)
    requires Decoded(v) && Decoded(w)
    ensures McpCanonicalJSON(v) == McpCanonicalJSON(w) <==> Same(v, w)
  {
    CanonicalIsText(v, 0);
    CanonicalIsText(w, 0);
    DocSame(v, w);
    if McpCanonicalJSON(v) == McpCanonicalJSON(w) { TextInjective(Compact, Doc(Compact, v), Doc(Compact, w)); }
  }

  // --- No raw newline -----------------------------------------------------------------------

  predicate NoNewline(s: string) {
    '\n' !in s
  }

  lemma NoNewlineConcat(a: string, b: string)
    requires NoNewline(a) && NoNewline(b)
    ensures NoNewline(a + b)
  {
  }

  lemma EscapedCharNoNewline(c: char)
    ensures NoNewline(EscapeChar(Compact, c))
  {
    if c < ' ' && EscapeChar(Compact, c) == UnicodeEscape(c as int) { UnicodeNoNewline(c as int); }
    if c == '\U{2028}' || c == '\U{2029}' { UnicodeNoNewline(c as int); }
  }

  lemma UnicodeNoNewline(code: nat)
    requires code < 0x10000
    ensures NoNewline(UnicodeEscape(code))
  {
    HexNoNewline(code / 4096);
    HexNoNewline(code / 256 % 16);
    HexNoNewline(code / 16 % 16);
    HexNoNewline(code % 16);
  }

  lemma HexNoNewline(k: nat)
    requires k < 16
    ensures HexDigit(k) != '\n'
  {
    HexBack(k);
  }

  lemma {:induction false} QuotedNoNewline(s: string)
    ensures NoNewline(Escape(Compact, s)) && NoNewline(Quote(Compact, s))
  {
    hide EscapeChar, NoNewline;
    assert NoNewline("") && NoNewline("\"") by { PlainNoNewline(); }
    if s != "" {
      EscapedCharNoNewline(s[0]);
      QuotedNoNewline(s[1..]);
      NoNewlineConcat(EscapeChar(Compact, s[0]), Escape(Compact, s[1..]));
    }
    NoNewlineConcat("\"", Escape(Compact, s));
    NoNewlineConcat("\"" + Escape(Compact, s), "\"");
  }

  lemma PlainNoNewline()
    ensures forall w ::
      w in ["", "\"", "[", "]", "{", "}", ":", ",", "[]", "{}", "null", "true", "false"] ==> NoNewline(w)
  {
  }

  lemma NumberNoNewline(s: string)
    requires NumberText(s)
    ensures NoNewline(s)
  {
  }

  lemma {:induction false} TextNoNewline(v: Json, depth: nat)
    ensures NoNewline(Text(Compact, v, depth))
    decreases v, 1
  {
    hide NoNewline, ItemsText, MembersText, Quote, Itoa;
    PlainNoNewline();
    match v
    case JInt(n) =>
      ItoaIsNumber(n);
      NumberNoNewline(Itoa(n));
    case JReal(f) =>
      FloatIsNumber(f);
      NumberNoNewline(FormatFloatCanonical(f));
    case JStr(s) => QuotedNoNewline(s);
    case JArr(items) =>
      if items != [] {
        ItemsNoNewline(items, depth + 1);
        BracketNoNewline("[", ItemsText(Compact, items, depth + 1), "]");
      }
    case JObj(members) =>
      if members != [] {
        MembersNoNewline(members, depth + 1);
        BracketNoNewline("{", MembersText(Compact, members, depth + 1), "}");
      }
    case _ =>
  }

  lemma BracketNoNewline(open: string, body: string, close: string)
    requires NoNewline(open) && NoNewline(body) && NoNewline(close)
    ensures NoNewline(open + body + "" + close)
  {
  }

  lemma {:induction false} ItemsNoNewline(items: seq<Json>, depth: nat)
    requires items != []
    ensures NoNewline(ItemsText(Compact, items, depth))
    decreases items, 0
  {
    hide Text;
    TextNoNewline(items[0], depth);
    if |items| > 1 { ItemsNoNewline(items[1..], depth); }
  }

  lemma {:induction false} MembersNoNewline(members: seq<JMember>, depth: nat)
    requires members != []
    ensures NoNewline(MembersText(Compact, members, depth))
    decreases members, 0
  {
    hide Text, Quote;
    QuotedNoNewline(members[0].key);
    MemberNoNewline(members[0], depth);
    if |members| > 1 { MembersNoNewline(members[1..], depth); }
  }

  lemma {:induction false} MemberNoNewline(m: JMember, depth: nat)
    ensures NoNewline(MemberText(Compact, m, depth))
    decreases m, 2
  {
    hide Text, Quote;
    QuotedNoNewline(m.key);
    TextNoNewline(m.value, depth);
  }

  // --- The digest material ---------------------------------------------------------------------

  /** mcpRequestDigest's material, before hashing. */
  ghost function Material(toolName: string, arguments: Value): string
    requires Decoded(arguments)
  {
    "tools/call" + "\n" + toolName + "\n" + McpCanonicalJSON(arguments)
  }

  /** A text splits one way at its last newline. */
  lemma LastNewline(a: string, x: string, b: string, y: string)
    requires NoNewline(x) && NoNewline(y) && a + "\n" + x == b + "\n" + y
    ensures a == b && x == y
  {
    var s, t := a + "\n" + x, b + "\n" + y;
    assert forall i :: |a| < i < |s| ==> s[i] == x[i - |a| - 1] && x[i - |a| - 1] in x;
    assert forall i :: |b| < i < |t| ==> t[i] == y[i - |b| - 1] && y[i - |b| - 1] in y;
    assert s[|b|] == '\n' && t[|a|] == '\n';
    assert |a| == |b|;
    assert a == s[..|a|] && b == t[..|b|];
    assert x == s[|a| + 1..] && y == t[|b| + 1..];
  }

  /** The material determines the tool name and what the arguments say, newlines in names
      included. */
  lemma MaterialDetermines(t1: string, a1: Value, t2: string, a2: Value)
    requires Decoded(a1) && Decoded(a2)
    ensures Material(t1, a1) == Material(t2, a2) <==> t1 == t2 && Same(a1, a2)
  {
    CanonicalInjective(a1, a2);
    if Material(t1, a1) == Material(t2, a2) {
      CanonicalIsText(a1, 0);
      CanonicalIsText(a2, 0);
      TextNoNewline(Doc(Compact, a1), 0);
      TextNoNewline(Doc(Compact, a2), 0);
      LastNewline("tools/call" + "\n" + t1, McpCanonicalJSON(a1), "tools/call" + "\n" + t2, McpCanonicalJSON(a2));
      var p := "tools/call" + "\n";
      assert (p + t1)[|p|..] == t1 && (p + t2)[|p|..] == t2;
    }
  }
}
