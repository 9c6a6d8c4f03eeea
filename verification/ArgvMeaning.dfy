/** What each spelling on a command line says, written out. */
module ArgvMeaning {
  import opened Names
  import opened ArgvTokens
  import opened ArgvRoundTrip
  import opened ArgvTables

  /** Two dashes and a name without an equals sign. */
  predicate LongText(token: string) {
    |token| >= 2 && token[0] == '-' && token[1] == '-' && '=' !in token
  }

  lemma EqualsBehind(flag: string, value: string)
    requires '=' !in flag
    ensures EqualsAt(flag + "=" + value) == |flag|
    decreases |flag|
  {
    var token := flag + "=" + value;
    var k := EqualsAt(token);
    assert token[|flag|] == '=';
    assert forall j :: 0 <= j < |flag| ==> token[j] == flag[j];
  }

  lemma EqualsNowhere(token: string)
    requires '=' !in token
    ensures EqualsAt(token) == |token|
  {
  }

  /** --flag=value: the value is everything behind the first equals sign; a boolean and a negation take none,
      and what is neither a flag nor a negation is unknown. */
  lemma AssignedReads(flag: string, value: string, rest: seq<string>, t: Tables)
    requires LongText(flag)
    ensures var token := flag + "=" + value;
      ReadDashed([token] + rest, t) ==
      if flag in t.longs && t.longs[flag].isBool then Failure(BoolTakesNoValue(flag))
      else if flag in t.longs then
        Success(Occurs(Occurrence(t.longs[flag].name, None, value, ValueKind, token), [token]))
      else if flag in t.negations then Failure(NegationTakesNoValue(flag))
      else Failure(UnknownFlag(flag))
  {
    EqualsBehind(flag, value);
    var token := flag + "=" + value;
    assert token[..|flag|] == flag && token[|flag| + 1..] == value;
    assert ([token] + rest)[0] == token && "--" <= token;
    hide EqualsAt;
  }

  /** --flag: a negation or a clear where it is one; a boolean alone; any other flag with the next token, which
      there has to be; and nothing else. */
  lemma LongReads(token: string, rest: seq<string>, t: Tables)
    requires LongText(token)
    ensures ReadDashed([token] + rest, t) ==
      if token in t.negations then
        Success(Occurs(Occurrence(t.negations[token].name, None, "", NegatedKind, token), [token]))
      else if token in t.unsets then
        Success(Occurs(Occurrence(t.unsets[token].name, None, "", UnsetKind, token), [token]))
      else if token !in t.longs then Failure(UnknownFlag(token))
      else if t.longs[token].isBool then
        Success(Occurs(Occurrence(t.longs[token].name, None, "", BoolKind, token), [token]))
      else if rest == [] then Failure(RequiresValue(token))
      else Success(Occurs(
        Occurrence(t.longs[token].name, None, rest[0], ValueKind, token + " " + rest[0]), [token, rest[0]]))
  {
    EqualsNowhere(token);
    var tokens := [token] + rest;
    assert tokens[0] == token && "--" <= token && (rest != [] ==> tokens[1] == rest[0]);
    hide EqualsAt;
  }

  /** -f: a short of the table, read like its flag; anything else with one dash stands for itself. */
  lemma ShortReads(token: string, rest: seq<string>, t: Tables)
    requires WellFormed(t) && |token| >= 2 && token[0] == '-' && token[1] != '-'
    ensures ReadDashed([token] + rest, t) ==
      if token !in t.shorts then Success(Stands(token))
      else if t.shorts[token].isBool then
        Success(Occurs(Occurrence(t.shorts[token].name, Some([token[1]]), "", BoolKind, token), [token]))
      else if rest == [] then Failure(RequiresValue(token))
      else Success(Occurs(
        Occurrence(t.shorts[token].name, Some([token[1]]), rest[0], ValueKind, token + " " + rest[0]),
        [token, rest[0]]))
  {
    var tokens := [token] + rest;
    assert tokens[0] == token && (rest != [] ==> tokens[1] == rest[0]);
    assert token !in t.negations && token !in t.unsets by { NotMinted(token, t); }
    hide EqualsAt, Kebab;
    if token in t.shorts { assert token[1..] == [token[1]]; }
  }

  lemma NotMinted(token: string, t: Tables)
    requires WellFormed(t) && |token| >= 2 && token[1] != '-'
    ensures token !in t.negations && token !in t.unsets
  {
    forall name ensures Negation(name)[1] == '-' && Unset(name)[1] == '-' {
    }
  }

  /** Before the separator, a lone dash and what has no dash stand for themselves; "--" is the separator, or hands
      everything behind it to the receiver; past it everything stands for itself. */
  lemma OthersRead(token: string, rest: seq<string>, t: Tables, receiver: bool)
    ensures token == "" || token == "-" || token[0] != '-' ==>
      ReadItem([token] + rest, t, receiver, false) == Success(Stands(token))
    ensures token == "--" ==>
      ReadItem([token] + rest, t, receiver, false) == Success(if receiver then Tail(rest) else Separator)
    ensures ReadItem([token] + rest, t, receiver, true) == Success(Stands(token))
    ensures |token| >= 2 && token[0] == '-' && token != "--" ==>
      ReadItem([token] + rest, t, receiver, false) == ReadDashed([token] + rest, t)
  {
    var tokens := [token] + rest;
    assert tokens[0] == token && tokens[1..] == rest;
    hide ReadDashed;
  }

  /** The long form of each kind of occurrence. */
  lemma LongForms(o: Occurrence)
    ensures Render(o) ==
      match o.kind
      case ValueKind => "--" + o.name + "=" + o.raw
      case BoolKind => "--" + o.name
      case NegatedKind => "--no-" + o.name
      case UnsetKind => "--unset-" + o.name
  {
  }

  // --- The tables, declaration by declaration ------------------------------------------------

  /** The first declaration of a name, outside a choice or inside one. */
  ghost predicate FirstAt(all: seq<Site>, name: string, i: nat) {
    i < |all| && all[i].flag.name == name && forall j :: 0 <= j < i ==> all[j].flag.name != name
  }

  lemma {:induction false} FirstMeans(all: seq<Site>, name: string)
    ensures name in NamesOf(all) <==> exists i: nat :: FirstAt(all, name, i)
    ensures forall i: nat :: FirstAt(all, name, i) ==> Named(all, name) != [] && Named(all, name)[0] == all[i]
  {
    if all != [] {
      var front := all[..|all| - 1];
      FirstMeans(front, name);
      if i: nat :| FirstAt(front, name, i) {
        assert FirstAt(all, name, i);
      }
      forall i: nat | FirstAt(all, name, i) ensures Named(all, name) != [] && Named(all, name)[0] == all[i] {
        if i < |front| {
          assert FirstAt(front, name, i);
        } else {
          NamedIff(front, name);
          forall x | x in front ensures x.flag.name != name {
            var j :| 0 <= j < |front| && front[j] == x;
            assert all[j].flag.name != name;
          }
        }
      }
      if name in NamesOf(all) && !exists i: nat :: FirstAt(front, name, i) {
        forall j | 0 <= j < |front| ensures all[j].flag.name != name {
          NamedIff(front, name);
          assert front[j] in front;
        }
        assert FirstAt(all, name, |front|);
      }
    }
  }

  lemma SpellingsApart(a: string, b: string)
    ensures Long(a) == Long(b) || Negation(a) == Negation(b) || Unset(a) == Unset(b) || "-" + a == "-" + b ==> a == b
  {
    assert Long(a)[2..] == a && Long(b)[2..] == b;
    assert Negation(a)[5..] == a && Negation(b)[5..] == b;
    assert Unset(a)[8..] == a && Unset(b)[8..] == b;
    assert ("-" + a)[1..] == a && ("-" + b)[1..] == b;
  }

  lemma {:induction false} OwnNames(names: seq<string>, all: seq<Site>, n: string)
    requires forall x :: x in names ==> x in NamesOf(all)
    ensures var t := NameTables(names, all);
      && t.shorts == map[]
      && (Long(n) in t.longs <==> n in names)
      && (n in names ==> t.longs[Long(n)] == Read(First(all, n).flag))
      && (Negation(n) in t.negations <==> n in names && First(all, n).flag.isBool && First(all, n).flag.negatable)
      && (Unset(n) in t.unsets <==> n in names && First(all, n).flag.nullable)
  {
    hide NamesOf, First, Long, Negation, Unset;
    if names != [] {
      var front, last := names[..|names| - 1], names[|names| - 1];
      OwnNames(front, all, n);
      assert names == front + [last];
      FirstNamed(all, last);
      SpellingsApart(n, last);
    }
  }

  lemma {:induction false} OwnShorts(t: Tables, shorts: seq<string>, all: seq<Site>, s: string)
    requires forall x :: x in shorts ==> x in ShortsOf(all)
    ensures var r := ShortTables(t, shorts, all);
      r.longs == t.longs && r.negations == t.negations && r.unsets == t.unsets
      && ("-" + s in r.shorts <==> "-" + s in t.shorts || s in shorts)
  {
    hide ShortsOf, FirstClaiming;
    if shorts != [] {
      var front, last := shorts[..|shorts| - 1], shorts[|shorts| - 1];
      OwnShorts(t, front, all, s);
      assert shorts == front + [last];
      SpellingsApart(s, last);
    }
  }

  lemma {:induction false} GlobalsOver(t: Tables, globals: seq<Declaration>, n: string, s: string)
    ensures var r := GlobalTables(t, globals);
      && r.unsets == t.unsets
      && (Long(n) in r.longs <==> Long(n) in t.longs || exists g :: g in globals && g.name == n)
      && (Negation(n) in r.negations <==>
            Negation(n) in t.negations || exists g :: g in globals && g.name == n && g.isBool && g.negatable)
      && (s != "" ==> ("-" + s in r.shorts <==> "-" + s in t.shorts || exists g :: g in globals && g.short == s))
  {
    hide Long, Negation;
    if globals != [] {
      var front, g := globals[..|globals| - 1], globals[|globals| - 1];
      GlobalsOver(t, front, n, s);
      assert globals == front + [g];
      SpellingsApart(n, g.name);
      SpellingsApart(s, g.short);
    }
  }

  lemma {:induction false} ShortsMean(all: seq<Site>, s: string)
    ensures s in ShortsOf(all) <==> s != "" && exists x :: x in all && x.flag.short == s
  {
    ClaimingIff(all, s);
    if s in ShortsOf(all) { assert Claiming(all, s)[0] in Claiming(all, s); }
  }

  lemma FirstSays(all: seq<Site>, n: string)
    ensures n in NamesOf(all) ==> exists i: nat :: FirstAt(all, n, i) && all[i] == First(all, n)
    ensures forall i: nat :: FirstAt(all, n, i) ==> n in NamesOf(all) && First(all, n) == all[i]
  {
    FirstMeans(all, n);
  }

  /** The same by the index: what the command's own names give, and what the globals add. */
  lemma LongsIndexed(flags: seq<Declaration>, globals: seq<Declaration>, n: string)
    ensures var t, all := TablesOf(flags, globals), Sites(flags, true);
      && (Long(n) in t.longs <==> n in NamesOf(all) || exists g :: g in globals && g.name == n)
      && (Negation(n) in t.negations <==>
            || (n in NamesOf(all) && First(all, n).flag.isBool && First(all, n).flag.negatable)
            || (exists g :: g in globals && g.name == n && g.isBool && g.negatable))
      && (Unset(n) in t.unsets <==> n in NamesOf(all) && First(all, n).flag.nullable)
  {
    var all := Sites(flags, true);
    var named := NameTables(NamesOf(all), all);
    OwnNames(NamesOf(all), all, n);
    OwnShorts(named, ShortsOf(all), all, "");
    GlobalsOver(ShortTables(named, ShortsOf(all), all), globals, n, "");
    hide NamesOf, NameTables, ShortTables, ShortsOf, GlobalTables, Sites, First, Long, Negation, Unset;
  }

  /** Which long spellings a command recognizes: every name declared by it or globally, the negation of a
      negatable boolean, and the clear of a nullable flag of its own; where a name is declared more than once
      its first declaration decides. */
  lemma LongsMean(flags: seq<Declaration>, globals: seq<Declaration>, n: string)
    ensures var t, all := TablesOf(flags, globals), Sites(flags, true);
      && (Long(n) in t.longs <==> (exists i: nat :: FirstAt(all, n, i)) || exists g :: g in globals && g.name == n)
      && (Negation(n) in t.negations <==>
            || (exists i: nat :: FirstAt(all, n, i) && all[i].flag.isBool && all[i].flag.negatable)
            || (exists g :: g in globals && g.name == n && g.isBool && g.negatable))
      && (Unset(n) in t.unsets <==> exists i: nat :: FirstAt(all, n, i) && all[i].flag.nullable)
  {
    LongsIndexed(flags, globals, n);
    FirstSays(Sites(flags, true), n);
    hide NamesOf, Sites, TablesOf, FirstAt, First, Long, Negation, Unset;
  }

  /** And which shorts: every one its declarations claim, wherever they stand, and the globals'. */
  lemma ShortsOfBoth(flags: seq<Declaration>, globals: seq<Declaration>, s: string)
    requires s != ""
    ensures "-" + s in TablesOf(flags, globals).shorts <==>
      (exists x :: x in Sites(flags, true) && x.flag.short == s) || exists g :: g in globals && g.short == s
  {
    var all := Sites(flags, true);
    var named := NameTables(NamesOf(all), all);
    OwnNames(NamesOf(all), all, "");
    OwnShorts(named, ShortsOf(all), all, s);
    GlobalsOver(ShortTables(named, ShortsOf(all), all), globals, "", s);
    ShortsMean(all, s);
    hide NamesOf, NameTables, ShortTables, ShortsOf, GlobalTables, Sites, First, Long, Negation, Unset;
  }
}
