/** writeCanonicalJSON: the recursive writer over one shared builder. */
module CanonicalWriter {
  import opened Names
  import opened JsonText
  import opened Numbers
  import opened JsonRoundTrip
  import opened JsonLayout

  /** The values the writer is given: ordered objects, plain maps, lists and scalars. Other
      stands for the kinds it refuses, a map whose keys are no strings among them. */
  datatype Value =
    | Null
    | Bool(b: bool)
    | Int(n: int)
    | Float(f: Numbers.Float)
    | Str(s: string)
    | List(items: seq<Value>)
    | Ordered(keys: seq<string>, vals: map<string, Value>)
    | Plain(entries: map<string, Value>)
    | Other
  {
    /** The map behind an object, ordered or not. */
    function Entries(): map<string, Value> {
      match this
      case Ordered(_, vals) => vals
      case Plain(entries) => entries
      case _ => map[]
    }
  }

  /** Nothing of a refused kind is reached. */
  ghost predicate Serialisable(v: Value)
    decreases v
  {
    match v
    case List(items) => forall i :: 0 <= i < |items| ==> Serialisable(items[i])
    case Ordered(keys, vals) => forall k :: k in keys && k in vals ==> Serialisable(vals[k])
    case Plain(entries) => forall k :: k in entries ==> Serialisable(entries[k])
    case Other => false
    case _ => true
  }

  /** The document a value stands for, in either layout: the compact one's writer prints a
      small whole float as the integer it is. An ordered object keeps its keys' order; a plain
      map has none, so its keys are sorted. */
  ghost function Doc(l: Layout, v: Value): Json
    decreases v, 1
  {
    match v
    case Null => JNull
    case Bool(b) => JBool(b)
    case Int(n) => JInt(n)
    case Float(f) => if l == Compact && SmallWhole(f) then JInt(IntOf(f)) else JReal(f)
    case Str(s) => JStr(s)
    case List(items) => JArr(DocItems(l, items))
    case Ordered(keys, _) => JObj(DocMembers(l, v, keys))
    case Plain(entries) => JObj(DocMembers(l, v, Sorted(entries.Keys)))
    case Other => JNull
  }

  ghost function DocItems(l: Layout, items: seq<Value>): (r: seq<Json>)
    ensures |r| == |items|
    decreases items, 0
  {
    if items == [] then [] else [Doc(l, items[0])] + DocItems(l, items[1..])
  }

  /** The member of each key; a key the map lacks reads as nil. */
  ghost function DocMembers(l: Layout, v: Value, keys: seq<string>): (r: seq<JMember>)
    ensures |r| == |keys|
    decreases v, 0, |keys|
  {
    if keys == [] then []
    else [JMember(keys[0], EntryDoc(l, v, keys[0]))] + DocMembers(l, v, keys[1..])
  }

  ghost function EntryDoc(l: Layout, v: Value, key: string): Json
    decreases v, 0, 0
  {
    match v
    case Ordered(_, vals) => if key in vals then Doc(l, vals[key]) else JNull
    case Plain(entries) => if key in entries then Doc(l, entries[key]) else JNull
    case _ => JNull
  }

  lemma {:induction false} DocItemsAt(l: Layout, items: seq<Value>, i: nat)
    requires i < |items|
    ensures DocItems(l, items)[i] == Doc(l, items[i]) && DocItems(l, items)[i..] == DocItems(l, items[i..])
  {
    if i > 0 { DocItemsAt(l, items[1..], i - 1); }
  }

  lemma {:induction false} DocMembersAt(l: Layout, v: Value, keys: seq<string>, i: nat)
    requires i < |keys|
    ensures DocMembers(l, v, keys)[i] == JMember(keys[i], EntryDoc(l, v, keys[i]))
  {
    if i > 0 { DocMembersAt(l, v, keys[1..], i - 1); }
  }

  /** A list text without the newline it opens with, which the writer writes early. */
  ghost function AfterNewline(t: string): string {
    if t == "" then "" else t[1..]
  }

  /** What the items from i on still add to a text that has passed the newline before them. */
  ghost function ItemsAhead(items: seq<Json>, i: nat, depth: nat): string
    requires i <= |items|
  {
    if i == |items| then "" else AfterNewline(ItemsText(Pretty, items[i..], depth)) + "\n"
  }

  ghost function MembersAhead(members: seq<JMember>, i: nat, depth: nat): string
    requires i <= |members|
  {
    if i == |members| then "" else AfterNewline(MembersText(Pretty, members[i..], depth)) + "\n"
  }

  lemma NewlineOff(depth: nat, rest: string)
    ensures AfterNewline(Gap(Pretty, depth) + rest) == Indent(depth) + rest
  {
    hide Indent;
    Associate("\n", Indent(depth), rest);
  }

  /** Splitting off the first piece of a list text: its own text, a comma, and the rest
      whose newline the comma brings with it. */
  lemma AheadSplit(whole: string, first: string, more: string, depth: nat, body: string)
    requires first == Gap(Pretty, depth) + body && whole == first + ("," + more) && more != "" && more[0] == '\n'
    ensures AfterNewline(whole) + "\n" == Indent(depth) + body + ",\n" + (AfterNewline(more) + "\n")
  {
    assert more == "\n" + AfterNewline(more);
    assert whole == Gap(Pretty, depth) + (body + ("," + more));
    NewlineOff(depth, body + ("," + more));
    assert "," + more == ",\n" + AfterNewline(more);
  }

  lemma ItemsAheadStep(items: seq<Json>, i: nat, depth: nat)
    requires i < |items|
    ensures ItemsAhead(items, i, depth) ==
      Indent(depth) + Text(Pretty, items[i], depth) + (if i < |items| - 1 then ",\n" else "\n") +
      ItemsAhead(items, i + 1, depth)
  {
    hide Text, Indent, AfterNewline;
    var first := Text(Pretty, items[i], depth);
    if i == |items| - 1 {
      assert items[i..] == [items[i]];
      ItemsOne(items[i], depth);
      NewlineOff(depth, first);
      assert Indent(depth) + first + "\n" + "" == Indent(depth) + first + "\n";
    } else {
      assert items[i..] == [items[i]] + items[i + 1..];
      ItemsMore(items[i], items[i + 1..], depth);
      AheadSplit(ItemsText(Pretty, items[i..], depth), Gap(Pretty, depth) + first,
                 ItemsText(Pretty, items[i + 1..], depth), depth, first);
    }
  }

  lemma ItemsOne(item: Json, depth: nat)
    ensures ItemsText(Pretty, [item], depth) == Gap(Pretty, depth) + Text(Pretty, item, depth)
  {
    hide Text, Gap;
    var t := Gap(Pretty, depth) + Text(Pretty, item, depth);
    assert t + "" == t;
  }

  lemma ItemsMore(item: Json, rest: seq<Json>, depth: nat)
    requires rest != []
    ensures ItemsText(Pretty, [item] + rest, depth) ==
      Gap(Pretty, depth) + Text(Pretty, item, depth) + ("," + ItemsText(Pretty, rest, depth))
    ensures ItemsText(Pretty, rest, depth) != "" && ItemsText(Pretty, rest, depth)[0] == '\n'
  {
    hide Text;
    assert ([item] + rest)[1..] == rest;
  }

  /** A member's text after its gap. */
  ghost function MemberBody(m: JMember, depth: nat): string {
    Quote(Pretty, m.key) + ": " + Text(Pretty, m.value, depth)
  }

  lemma MembersAheadStep(members: seq<JMember>, i: nat, depth: nat)
    requires i < |members|
    ensures MembersAhead(members, i, depth) ==
      Indent(depth) + MemberBody(members[i], depth) + (if i < |members| - 1 then ",\n" else "\n") +
      MembersAhead(members, i + 1, depth)
  {
    hide MemberBody, MemberText, Indent, AfterNewline;
    var body := MemberBody(members[i], depth);
    MemberGap(members[i], depth);
    if i == |members| - 1 {
      assert members[i..] == [members[i]];
      MembersOne(members[i], depth);
      NewlineOff(depth, body);
      assert Indent(depth) + body + "\n" + "" == Indent(depth) + body + "\n";
    } else {
      assert members[i..] == [members[i]] + members[i + 1..];
      MembersMore(members[i], members[i + 1..], depth);
      AheadSplit(MembersText(Pretty, members[i..], depth), MemberText(Pretty, members[i], depth),
                 MembersText(Pretty, members[i + 1..], depth), depth, body);
    }
  }

  lemma MemberGap(m: JMember, depth: nat)
    ensures MemberText(Pretty, m, depth) == Gap(Pretty, depth) + MemberBody(m, depth)
  {
    hide Text, Gap, Quote;
    assert MemberText(Pretty, m, depth) ==
      Gap(Pretty, depth) + Quote(Pretty, m.key) + ": " + Text(Pretty, m.value, depth);
  }

  lemma MembersOne(m: JMember, depth: nat)
    ensures MembersText(Pretty, [m], depth) == MemberText(Pretty, m, depth)
  {
    hide MemberText;
    assert MemberText(Pretty, m, depth) + "" == MemberText(Pretty, m, depth);
  }

  lemma MembersMore(m: JMember, rest: seq<JMember>, depth: nat)
    requires rest != []
    ensures MembersText(Pretty, [m] + rest, depth) ==
      MemberText(Pretty, m, depth) + ("," + MembersText(Pretty, rest, depth))
    ensures MembersText(Pretty, rest, depth) != "" && MembersText(Pretty, rest, depth)[0] == '\n'
  {
    hide Text, Quote;
    assert ([m] + rest)[1..] == rest;
  }

  /** Writing a piece in order moves it from ahead to written. */
  lemma Wrote(text: string, inner: string, body: string, sep: string, ahead: string)
    ensures text + inner + body + sep + ahead == text + (inner + body + sep + ahead)
  {
    assert text + inner + body + sep + ahead == text + inner + body + (sep + ahead);
    assert inner + body + sep + ahead == inner + body + (sep + ahead);
    assert text + inner + body + (sep + ahead) == text + inner + (body + (sep + ahead));
    assert inner + body + (sep + ahead) == inner + (body + (sep + ahead));
  }

  /** strings.Builder. */
  class Builder {
    var text: string

    constructor ()
      ensures text == ""
    {
      text := "";
    }

    /** writeCanonicalJSON. */
    method WriteValue(v: Value, depth: nat) returns (ok: bool)
      modifies this
      ensures ok <==> Serialisable(v)
      ensures ok ==> text == old(text) + Text(Pretty, Doc(Pretty, v), depth)
      decreases v, 2
    {
      ok := true;
      match v {
        case Null => text := text + "null";
        case Bool(b) => text := text + if b then "true" else "false";
        case Int(n) => text := text + Itoa(n);
        case Float(f) => text := text + FormatFloatCanonical(f);
        case Str(s) => text := text + Quote(Pretty, s);
        case List(items) => ok := WriteItems(items, depth);
        case Ordered(keys, _) => ok := WriteMembers(v, keys, depth);
        case Plain(entries) =>
          var keys := SortedKeys(entries.Keys);
          ok := WriteMembers(v, keys, depth);
        case Other => ok := false;
      }
    }

    /** The slice case. */
    method WriteItems(items: seq<Value>, depth: nat) returns (ok: bool)
      modifies this
      ensures ok <==> forall i :: 0 <= i < |items| ==> Serialisable(items[i])
      ensures ok ==> text == old(text) + Text(Pretty, JArr(DocItems(Pretty, items)), depth)
      decreases items, 0, 1
    {
      hide Text, ItemsAhead;
      if items == [] {
        text := text + "[]";
        EmptyObjectText(depth);
        return true;
      }
      ghost var docs := DocItems(Pretty, items);
      ghost var before := text;
      ghost var whole := text + ("[\n" + ItemsAhead(docs, 0, depth + 1));
      assert text + "[\n" + ItemsAhead(docs, 0, depth + 1) == whole;
      text := text + "[\n";
      var inner := Indent(depth + 1);
      for i := 0 to |items|
        invariant text + ItemsAhead(docs, i, depth + 1) == whole
        invariant forall k :: 0 <= k < i ==> Serialisable(items[k])
      {
        ok := WriteItem(items, i, depth);
        if !ok { return; }
      }
      NothingAhead(docs, [], depth + 1);
      Closed(text, before, "[\n", ItemsAhead(docs, 0, depth + 1), Indent(depth) + "]");
      text := text + (Indent(depth) + "]");
      ArrayFromAhead(docs, depth);
      ok := true;
    }

    /** One turn of the slice loop. */
    method WriteItem(items: seq<Value>, i: nat, depth: nat) returns (ok: bool)
      requires i < |items|
      modifies this
      ensures ok <==> Serialisable(items[i])
      ensures ok ==>
        text + ItemsAhead(DocItems(Pretty, items), i + 1, depth + 1) ==
        old(text) + ItemsAhead(DocItems(Pretty, items), i, depth + 1)
      decreases items, 0, 0
    {
      hide Text, ItemsAhead, Indent;
      ghost var docs, before := DocItems(Pretty, items), text;
      ItemsAheadStep(docs, i, depth + 1);
      DocItemsAt(Pretty, items, i);
      var inner := Indent(depth + 1);
      text := text + inner;
      ok := WriteValue(items[i], depth + 1);
      if !ok { return; }
      var sep := if i < |items| - 1 then ",\n" else "\n";
      text := text + sep;
      Wrote(before, inner, Text(Pretty, docs[i], depth + 1), sep, ItemsAhead(docs, i + 1, depth + 1));
    }

    /** writeCanonicalMembers. */
    method WriteMembers(v: Value, keys: seq<string>, depth: nat) returns (ok: bool)
      requires v.Ordered? || v.Plain?
      modifies this
      ensures ok <==> forall k :: k in keys && k in v.Entries() ==> Serialisable(v.Entries()[k])
      ensures ok ==> text == old(text) + Text(Pretty, JObj(DocMembers(Pretty, v, keys)), depth)
      decreases v, 1
    {
      hide Text, MembersAhead;
      if keys == [] {
        text := text + "{}";
        EmptyObjectText(depth);
        return true;
      }
      ghost var docs := DocMembers(Pretty, v, keys);
      ghost var before := text;
      ghost var whole := text + ("{\n" + MembersAhead(docs, 0, depth + 1));
      assert text + "{\n" + MembersAhead(docs, 0, depth + 1) == whole;
      text := text + "{\n";
      for i := 0 to |keys|
        invariant text + MembersAhead(docs, i, depth + 1) == whole
        invariant forall k :: k in keys[..i] && k in v.Entries() ==> Serialisable(v.Entries()[k])
      {
        ok := WriteMember(v, keys, i, depth);
        if !ok { return; }
        assert keys[..i + 1] == keys[..i] + [keys[i]];
      }
      assert keys[..|keys|] == keys;
      NothingAhead([], docs, depth + 1);
      Closed(text, before, "{\n", MembersAhead(docs, 0, depth + 1), Indent(depth) + "}");
      text := text + (Indent(depth) + "}");
      ObjectFromAhead(docs, depth);
      ok := true;
    }

    /** One turn of the members loop. */
    method WriteMember(v: Value, keys: seq<string>, i: nat, depth: nat) returns (ok: bool)
      requires (v.Ordered? || v.Plain?) && i < |keys|
      modifies this
      ensures ok <==> (keys[i] in v.Entries() ==> Serialisable(v.Entries()[keys[i]]))
      ensures ok ==>
        text + MembersAhead(DocMembers(Pretty, v, keys), i + 1, depth + 1) ==
        old(text) + MembersAhead(DocMembers(Pretty, v, keys), i, depth + 1)
      decreases v, 0
    {
      hide Text, MembersAhead, Indent, Quote;
      ghost var docs, before := DocMembers(Pretty, v, keys), text;
      MembersAheadStep(docs, i, depth + 1);
      DocMembersAt(Pretty, v, keys, i);
      var inner, key := Indent(depth + 1), Quote(Pretty, keys[i]);
      text := text + inner;
      text := text + (key + ": ");
      ghost var value := Text(Pretty, docs[i].value, depth + 1);
      ok := WriteEntry(v, keys[i], depth + 1);
      if !ok { return; }
      assert before + inner + (key + ": ") + value == before + inner + MemberBody(docs[i], depth + 1);
      var sep := if i < |keys| - 1 then ",\n" else "\n";
      text := text + sep;
      Wrote(before, inner, MemberBody(docs[i], depth + 1), sep, MembersAhead(docs, i + 1, depth + 1));
    }

    /** The value under a key, nil when the map lacks it. */
    method WriteEntry(v: Value, key: string, depth: nat) returns (ok: bool)
      requires v.Ordered? || v.Plain?
      modifies this
      ensures ok <==> (key in v.Entries() ==> Serialisable(v.Entries()[key]))
      ensures ok ==> text == old(text) + Text(Pretty, EntryDoc(Pretty, v, key), depth)
      decreases v, 0, 0
    {
      var entries := v.Entries();
      if key in entries {
        assert entries[key] < v;
        ok := WriteValue(entries[key], depth);
      } else {
        text := text + "null";
        ok := true;
      }
    }
  }

  lemma EmptyObjectText(depth: nat)
    ensures Text(Pretty, JObj([]), depth) == "{}" && Text(Pretty, JArr([]), depth) == "[]"
  {
  }

  lemma ArrayFromAhead(items: seq<Json>, depth: nat)
    requires items != []
    ensures Text(Pretty, JArr(items), depth) == "[\n" + ItemsAhead(items, 0, depth + 1) + (Indent(depth) + "]")
  {
    hide ItemsText;
    var t := ItemsText(Pretty, items, depth + 1);
    assert items[0..] == items;
    ItemsNewline(items, depth + 1);
    FromAhead("[", t, depth, "]");
  }

  lemma ObjectFromAhead(members: seq<JMember>, depth: nat)
    requires members != []
    ensures Text(Pretty, JObj(members), depth) == "{\n" + MembersAhead(members, 0, depth + 1) + (Indent(depth) + "}")
  {
    hide MembersText, MemberText;
    var t := MembersText(Pretty, members, depth + 1);
    assert members[0..] == members;
    MembersNewline(members, depth + 1);
    FromAhead("{", t, depth, "}");
  }

  lemma ItemsNewline(items: seq<Json>, depth: nat)
    requires items != []
    ensures ItemsText(Pretty, items, depth) != "" && ItemsText(Pretty, items, depth)[0] == '\n'
  {
    hide Text;
  }

  lemma MembersNewline(members: seq<JMember>, depth: nat)
    requires members != []
    ensures MembersText(Pretty, members, depth) != "" && MembersText(Pretty, members, depth)[0] == '\n'
  {
    hide Text, Quote;
  }

  /** At the end of a list nothing is ahead; the closing bracket completes the text. */
  lemma Closed(text: string, before: string, open: string, ahead: string, close: string)
    requires text + "" == before + (open + ahead)
    ensures text + close == before + (open + ahead + close)
  {
    assert text + "" == text;
    assert before + (open + ahead) + close == before + (open + ahead + close);
  }

  lemma NothingAhead(items: seq<Json>, members: seq<JMember>, depth: nat)
    ensures ItemsAhead(items, |items|, depth) == "" && MembersAhead(members, |members|, depth) == ""
  {
  }

  lemma FromAhead(open: string, t: string, depth: nat, close: string)
    requires t != "" && t[0] == '\n'
    ensures open + t + Gap(Pretty, depth) + close ==
      open + "\n" + (AfterNewline(t) + "\n") + (Indent(depth) + close)
  {
    assert t == "\n" + AfterNewline(t);
    assert open + t == open + "\n" + AfterNewline(t);
    assert Gap(Pretty, depth) + close == "\n" + (Indent(depth) + close);
  }

  // --- The document says what the value says ---------------------------------------------------

  /** A JSON document for a value: the same scalars, lists in order, an ordered object's members under its
      keys in order, and a plain map's under all of its keys, ascending. */
  ghost predicate Represents(j: Json, v: Value)
    decreases v
  {
    match v
    case Null => j == JNull
    case Bool(b) => j == JBool(b)
    case Int(n) => j == JInt(n)
    case Float(f) => j == JReal(f)
    case Str(s) => j == JStr(s)
    case List(items) =>
      j.JArr? && |j.items| == |items| && forall i :: 0 <= i < |items| ==> Represents(j.items[i], items[i])
    case Ordered(keys, vals) =>
      j.JObj? && |j.members| == |keys| &&
      forall i :: 0 <= i < |keys| ==>
        && j.members[i].key == keys[i]
        && if keys[i] in vals then Represents(j.members[i].value, vals[keys[i]]) else j.members[i].value == JNull
    case Plain(entries) =>
      && j.JObj?
      && (forall i :: 0 <= i < |j.members| ==>
            j.members[i].key in entries && Represents(j.members[i].value, entries[j.members[i].key]))
      && (forall i, k :: 0 <= i < k < |j.members| ==> Less(j.members[i].key, j.members[k].key))
      && forall key :: key in entries ==> exists i :: 0 <= i < |j.members| && j.members[i].key == key
    case Other => false
  }

  lemma {:induction false} DocRepresents(v: Value)
    requires Serialisable(v)
    ensures Represents(Doc(Pretty, v), v)
    decreases v
  {
    match v
    case List(items) =>
      forall i | 0 <= i < |items| ensures Represents(DocItems(Pretty, items)[i], items[i]) {
        DocItemsAt(Pretty, items, i);
        DocRepresents(items[i]);
      }
    case Ordered(keys, vals) =>
      forall i | 0 <= i < |keys| && keys[i] in vals ensures Represents(Doc(Pretty, vals[keys[i]]), vals[keys[i]]) {
        DocRepresents(vals[keys[i]]);
      }
      OrderedRepresents(v);
    case Plain(entries) =>
      forall k | k in entries ensures Represents(Doc(Pretty, entries[k]), entries[k]) {
        DocRepresents(entries[k]);
      }
      PlainRepresents(v);
    case _ =>
  }

  lemma OrderedRepresents(v: Value)
    requires v.Ordered?
    requires forall i :: 0 <= i < |v.keys| && v.keys[i] in v.vals ==>
      Represents(Doc(Pretty, v.vals[v.keys[i]]), v.vals[v.keys[i]])
    ensures Represents(Doc(Pretty, v), v)
  {
    forall i | 0 <= i < |v.keys|
      ensures DocMembers(Pretty, v, v.keys)[i] == JMember(v.keys[i], EntryDoc(Pretty, v, v.keys[i]))
    {
      DocMembersAt(Pretty, v, v.keys, i);
    }
  }

  lemma PlainRepresents(v: Value)
    requires v.Plain? && forall k :: k in v.entries ==> Represents(Doc(Pretty, v.entries[k]), v.entries[k])
    ensures Represents(Doc(Pretty, v), v)
  {
    var keys := Sorted(v.entries.Keys);
    var members := DocMembers(Pretty, v, keys);
    forall i | 0 <= i < |keys|
      ensures members[i] == JMember(keys[i], EntryDoc(Pretty, v, keys[i])) && keys[i] in v.entries
    {
      DocMembersAt(Pretty, v, keys, i);
      assert keys[i] in Elements(keys);
    }
    forall i, k | 0 <= i < k < |keys| ensures Less(keys[i], keys[k]) {
      LessTotal(keys[i], keys[k]);
    }
    forall key | key in v.entries ensures exists i :: 0 <= i < |members| && members[i].key == key {
      assert key in Elements(keys);
      var i :| 0 <= i < |keys| && keys[i] == key;
      assert members[i].key == key;
    }
  }

  /** canonicalJSON: refused exactly when a value of a refused kind is reached; otherwise a
      reader of its output gets the document back, with the same key order at every depth, and
      the output lies on its lines as the scan asks. */
  method CanonicalJSON(v: Value) returns (text: Option<string>)
    ensures text.Some? <==> Serialisable(v)
    ensures text.Some? ==> text.value == Text(Pretty, Doc(Pretty, v), 0) && ReadText(text.value) == Some(Doc(Pretty, v))
    ensures text.Some? ==> LaidOut(text.value, 0) && Represents(Doc(Pretty, v), v)
  {
    var b := new Builder();
    var ok := b.WriteValue(v, 0);
    if !ok { return None; }
    text := Some(b.text);
    RoundTrip(Pretty, Doc(Pretty, v));
    TextLaidOut(Doc(Pretty, v));
    DocRepresents(v);
  }
}
