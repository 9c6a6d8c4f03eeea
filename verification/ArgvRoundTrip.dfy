/** Tokenizing loses nothing, and the occurrences written out again read the same. */
module ArgvRoundTrip {
  import opened Names
  import opened ArgvTokens

  // --- Every token lands once, in order --------------------------------------------------

  function AllUsed(items: seq<Item>): seq<string> {
    if items == [] then [] else Used(items[0]) + AllUsed(items[1..])
  }

  /** Positionals only once the separator has been passed; a receiver's tail comes last. */
  predicate Shaped(items: seq<Item>, receiver: bool, stopped: bool) {
    items == [] ||
    match items[0]
    case Separator => !receiver && !stopped && Shaped(items[1..], receiver, true)
    case Tail(_) => receiver && !stopped && items[1..] == []
    case Occurs(_, _) => !stopped && Shaped(items[1..], receiver, stopped)
    case Stands(_) => Shaped(items[1..], receiver, stopped)
  }

  /** An occurrence says what its own tokens say, of a flag of the table. */
  predicate Faithful(o: Occurrence, used: seq<string>, t: Tables) {
    (o.kind.ValueKind? || o.raw == "") &&
    if o.short.Some? then
      && ShortFor(o, t) && (o.kind.ValueKind? || o.kind.BoolKind?)
      && used == ["-" + o.short.value] + if o.kind.ValueKind? then [o.raw] else []
    else if o.kind.ValueKind? then
      Returns(o, t) && (used == [Long(o.name) + "=" + o.raw] || used == [Long(o.name), o.raw])
    else
      Returns(o, t) && used == [Render(o)]
  }

  /** The short's own flag, which takes a value just when the occurrence has one. */
  predicate ShortFor(o: Occurrence, t: Tables)
    requires o.short.Some?
  {
    && "-" + o.short.value in t.shorts && t.shorts["-" + o.short.value].name == o.name
    && t.shorts["-" + o.short.value].isBool == o.kind.BoolKind?
  }

  /** The long form of an occurrence, its value behind an equals sign. */
  function Render(o: Occurrence): string {
    match o.kind
    case ValueKind => Long(o.name) + "=" + o.raw
    case BoolKind => Long(o.name)
    case NegatedKind => Negation(o.name)
    case UnsetKind => Unset(o.name)
  }

  /** What the tables must say of an occurrence for its long form to read as it. */
  predicate Returns(o: Occurrence, t: Tables) {
    match o.kind
    case ValueKind => Long(o.name) in t.longs && !t.longs[Long(o.name)].isBool
    case BoolKind =>
      && Long(o.name) in t.longs && t.longs[Long(o.name)].isBool
      && Long(o.name) !in t.negations && Long(o.name) !in t.unsets
    case NegatedKind => Negation(o.name) in t.negations
    case UnsetKind => Unset(o.name) in t.unsets
  }

  lemma AssignedFaithful(token: string, t: Tables)
    requires WellFormed(t) && DoubleDashed(token) && EqualsAt(token) < |token| && ReadAssigned(token, t).Success?
    ensures var item := ReadAssigned(token, t).value; item.Occurs? && Faithful(item.occ, item.used, t)
  {
    hide WellFormed, Long, EqualsAt, DoubleDashed;
    var k := EqualsAt(token);
    var flag, value := token[..k], token[k + 1..];
    assert token == flag + "=" + value;
    LongSpelling(flag, t);
  }

  lemma LongSpelling(flag: string, t: Tables)
    requires WellFormed(t)
    ensures flag in t.longs ==> flag == Long(t.longs[flag].name)
  {
  }

  lemma MintedFaithful(tokens: seq<string>, t: Tables)
    requires WellFormed(t) && tokens != [] && (tokens[0] in t.negations || tokens[0] in t.unsets)
    requires !(DoubleDashed(tokens[0]) && EqualsAt(tokens[0]) < |tokens[0]|)
    ensures ReadDashed(tokens, t).Success? && ReadDashed(tokens, t).value.Occurs?
    ensures Faithful(ReadDashed(tokens, t).value.occ, ReadDashed(tokens, t).value.used, t)
  {
    hide EqualsAt, Kebab, DoubleDashed;
  }

  lemma LongFaithful(tokens: seq<string>, t: Tables)
    requires WellFormed(t) && tokens != [] && DoubleDashed(tokens[0]) && EqualsAt(tokens[0]) == |tokens[0]|
    requires tokens[0] !in t.negations && tokens[0] !in t.unsets && tokens[0] in t.longs
    requires ReadFlag(tokens, t.longs[tokens[0]], None).Success?
    ensures var item := ReadFlag(tokens, t.longs[tokens[0]], None).value;
      item.Occurs? && Faithful(item.occ, item.used, t)
  {
    hide EqualsAt, Kebab, DoubleDashed;
  }

  lemma DashedFaithful(tokens: seq<string>, t: Tables)
    requires WellFormed(t) && tokens != [] && ReadDashed(tokens, t).Success?
    ensures var item := ReadDashed(tokens, t).value; item.Occurs? ==> Faithful(item.occ, item.used, t)
  {
    var token := tokens[0];
    if DoubleDashed(token) && EqualsAt(token) < |token| {
      AssignedFaithful(token, t);
    } else {
      hide EqualsAt, Kebab;
      if token in t.negations || token in t.unsets {
        MintedFaithful(tokens, t);
      } else if DoubleDashed(token) {
        LongFaithful(tokens, t);
      } else if |token| == 2 && token in t.shorts {
        assert token == "-" + token[1..];
      }
    }
  }

  /** Each token of an accepted argv is in exactly one item, in order; each item is what
      its tokens say. */
  lemma {:induction false} EveryTokenLands(tokens: seq<string>, t: Tables, receiver: bool, stopped: bool)
    requires WellFormed(t) && ReadAll(tokens, t, receiver, stopped).Success?
    ensures var items := ReadAll(tokens, t, receiver, stopped).value;
      && AllUsed(items) == tokens
      && Shaped(items, receiver, stopped)
      && forall i :: 0 <= i < |items| && items[i].Occurs? ==> Faithful(items[i].occ, items[i].used, t)
    decreases |tokens|
  {
    hide Faithful, ReadDashed, WellFormed;
    if tokens != [] {
      var item := ReadItem(tokens, t, receiver, stopped).value;
      var rest := tokens[|Used(item)|..];
      EveryTokenLands(rest, t, receiver, stopped || item.Separator?);
      if item.Occurs? { DashedFaithful(tokens, t); }
      var more := ReadAll(rest, t, receiver, stopped || item.Separator?).value;
      var items := ReadAll(tokens, t, receiver, stopped).value;
      assert items == [item] + more && items[1..] == more;
      assert tokens == Used(item) + rest;
      forall i | 0 <= i < |items| && items[i].Occurs? ensures Faithful(items[i].occ, items[i].used, t) {
        if i > 0 { assert items[i] == more[i - 1]; }
      }
    }
  }

  // --- Writing the occurrences out again -----------------------------------------------------

  function RenderAll(occs: seq<Occurrence>): seq<string> {
    if occs == [] then [] else [Render(occs[0])] + RenderAll(occs[1..])
  }

  function Rendered(p: Parsed): seq<string> {
    RenderAll(p.occs) + (["--"] + p.positionals)
  }

  /** The same names, raw values and kinds. */
  predicate SameReading(a: seq<Occurrence>, b: seq<Occurrence>) {
    |a| == |b| && forall i :: 0 <= i < |a| ==> a[i].name == b[i].name && a[i].raw == b[i].raw && a[i].kind == b[i].kind
  }

  lemma PlainEquals(s: string)
    requires forall i :: 0 <= i < |s| ==> s[i] != '='
    ensures EqualsAt(s) == |s|
  {
  }

  lemma SplitEquals(s: string, value: string)
    requires forall i :: 0 <= i < |s| ==> s[i] != '='
    ensures EqualsAt(s + "=" + value) == |s|
    ensures (s + "=" + value)[..|s|] == s && (s + "=" + value)[|s| + 1..] == value
  {
    var all := s + "=" + value;
    assert all[|s|] == '=';
    var k := EqualsAt(all);
    assert forall j :: 0 <= j < |s| ==> all[j] == s[j];
  }

  lemma KebabPlain(name: string, prefix: string)
    requires Kebab(name) && (forall i :: 0 <= i < |prefix| ==> prefix[i] != '=')
    ensures forall i :: 0 <= i < |prefix + name| ==> (prefix + name)[i] != '='
  {
    forall i | |prefix| <= i < |prefix + name| ensures (prefix + name)[i] != '=' {
      assert (prefix + name)[i] == name[i - |prefix|] && KebabChar(name[i - |prefix|]);
    }
  }

  /** What every occurrence has: a flag's name, and a raw value only when it is a value. */
  predicate Plain(o: Occurrence) {
    Kebab(o.name) && (o.kind.ValueKind? || o.raw == "")
  }

  /** What argv begins with is this occurrence, up to its spelling. */
  predicate Begins(tokens: seq<string>, t: Tables, o: Occurrence) {
    tokens != [] &&
    var item := ReadItem(tokens, t, false, false);
    && item.Success? && item.value.Occurs?
    && item.value.occ.name == o.name && item.value.occ.raw == o.raw && item.value.occ.kind == o.kind
  }

  lemma SpelledName(name: string, t: Tables)
    requires WellFormed(t)
    ensures Long(name) in t.longs ==> t.longs[Long(name)].name == name
    ensures Negation(name) in t.negations ==> t.negations[Negation(name)].name == name
    ensures Unset(name) in t.unsets ==> t.unsets[Unset(name)].name == name
  {
    if Long(name) in t.longs {
      var n := t.longs[Long(name)].name;
      assert Long(n)[2..] == n && Long(name)[2..] == name;
    }
    if Negation(name) in t.negations {
      var n := t.negations[Negation(name)].name;
      assert Negation(n)[5..] == n && Negation(name)[5..] == name;
    }
    if Unset(name) in t.unsets {
      var n := t.unsets[Unset(name)].name;
      assert Unset(n)[8..] == n && Unset(name)[8..] == name;
    }
  }

  lemma ValueBegins(o: Occurrence, rest: seq<string>, t: Tables)
    requires WellFormed(t) && Plain(o) && o.kind.ValueKind? && Dashed(Render(o)) && DoubleDashed(Render(o))
    requires Render(o) != "--"
    ensures Begins([Render(o)] + rest, t, o) <==> Returns(o, t)
    ensures Returns(o, t) ==> ReadItem([Render(o)] + rest, t, false, false).value.used == [Render(o)]
  {
    SpelledName(o.name, t);
    KebabPlain(o.name, "--");
    SplitEquals(Long(o.name), o.raw);
    hide Kebab, KebabChar, EqualsAt, WellFormed, Dashed, DoubleDashed;
  }

  lemma BoolBegins(o: Occurrence, rest: seq<string>, t: Tables)
    requires WellFormed(t) && Plain(o) && o.kind.BoolKind? && Dashed(Render(o)) && DoubleDashed(Render(o))
    requires Render(o) != "--"
    ensures Begins([Render(o)] + rest, t, o) <==> Returns(o, t)
    ensures Returns(o, t) ==> ReadItem([Render(o)] + rest, t, false, false).value.used == [Render(o)]
  {
    SpelledName(o.name, t);
    KebabPlain(o.name, "--");
    PlainEquals(Render(o));
    hide Kebab, KebabChar, EqualsAt, WellFormed, Dashed, DoubleDashed;
  }

  lemma NegatedBegins(o: Occurrence, rest: seq<string>, t: Tables)
    requires WellFormed(t) && Plain(o) && o.kind.NegatedKind? && Dashed(Render(o)) && DoubleDashed(Render(o))
    requires Render(o) != "--"
    ensures Begins([Render(o)] + rest, t, o) <==> Returns(o, t)
    ensures Returns(o, t) ==> ReadItem([Render(o)] + rest, t, false, false).value.used == [Render(o)]
  {
    SpelledName(o.name, t);
    KebabPlain(o.name, "--no-");
    PlainEquals(Render(o));
    hide Kebab, KebabChar, EqualsAt, WellFormed, Dashed, DoubleDashed;
  }

  lemma UnsetBegins(o: Occurrence, rest: seq<string>, t: Tables)
    requires WellFormed(t) && Plain(o) && o.kind.UnsetKind? && Dashed(Render(o)) && DoubleDashed(Render(o))
    requires Render(o) != "--"
    ensures Begins([Render(o)] + rest, t, o) <==> Returns(o, t)
    ensures Returns(o, t) ==> ReadItem([Render(o)] + rest, t, false, false).value.used == [Render(o)]
  {
    SpelledName(o.name, t);
    KebabPlain(o.name, "--unset-");
    PlainEquals(Render(o));
    NotNegation(o.name, t);
    hide Kebab, KebabChar, EqualsAt, WellFormed, Dashed, DoubleDashed;
  }

  lemma NotNegation(name: string, t: Tables)
    requires WellFormed(t)
    ensures Unset(name) !in t.negations
  {
    forall n: string ensures Negation(n) != Unset(name) {
      assert Negation(n)[2] == 'n' && Unset(name)[2] == 'u';
    }
  }

  /** The long form of an occurrence reads as it just when the tables return it, whatever follows. */
  lemma RenderedBegins(o: Occurrence, rest: seq<string>, t: Tables)
    requires WellFormed(t) && Plain(o)
    ensures Dashed(Render(o)) && DoubleDashed(Render(o)) && Render(o) != "--"
    ensures Begins([Render(o)] + rest, t, o) <==> Returns(o, t)
    ensures Returns(o, t) ==> ReadItem([Render(o)] + rest, t, false, false).value.used == [Render(o)]
  {
    KebabNonEmpty(o.name);
    Opening(o);
    hide Begins, Returns, Render, WellFormed, Dashed, DoubleDashed;
    match o.kind {
      case ValueKind => ValueBegins(o, rest, t);
      case BoolKind => BoolBegins(o, rest, t);
      case NegatedKind => NegatedBegins(o, rest, t);
      case UnsetKind => UnsetBegins(o, rest, t);
    }
  }

  lemma KebabNonEmpty(name: string)
    requires Kebab(name)
    ensures name != ""
  {
  }

  lemma Opening(o: Occurrence)
    requires o.name != ""
    ensures Dashed(Render(o)) && DoubleDashed(Render(o)) && Render(o) != "--"
  {
    assert |Render(o)| > 2 && Render(o)[0] == '-' && Render(o)[1] == '-';
    assert Render(o)[..2] == "--";
  }

  /** After the separator everything stands. */
  lemma {:induction false} StoppedReads(positionals: seq<string>, t: Tables, receiver: bool)
    ensures var r := ReadAll(positionals, t, receiver, true);
      r.Success? && Occs(r.value) == [] && Positionals(r.value) == positionals && After(r.value).None?
      && forall i :: 0 <= i < |r.value| ==> r.value[i].Stands?
    decreases |positionals|
  {
    hide ReadDashed, Dashed, Occs, Positionals, After;
    Start([], t, receiver);
    if positionals != [] {
      StoppedReads(positionals[1..], t, receiver);
      assert positionals == [positionals[0]] + positionals[1..];
      var more := ReadAll(positionals[1..], t, receiver, true).value;
      ItemFirst(Stands(positionals[0]), more);
      StandsAlone(positionals[0]);
      if more == [] { assert [Stands(positionals[0])] + more == [Stands(positionals[0])]; }
    }
  }

  lemma StandsAlone(token: string)
    ensures After([Stands(token)]).None?
  {
  }

  lemma {:induction false} ItemFirst(x: Item, items: seq<Item>)
    ensures Occs([x] + items) == (if x.Occurs? then [x.occ] else []) + Occs(items)
    ensures Positionals([x] + items) == (if x.Stands? then [x.token] else []) + Positionals(items)
    ensures items != [] ==> After([x] + items) == After(items)
    decreases |items|
  {
    if items == [] {
      assert [x] + items == [] + [x];
      Gained([], x);
    } else {
      var front, last := items[..|items| - 1], items[|items| - 1];
      assert [x] + items == ([x] + front) + [last] && items == front + [last];
      ItemFirst(x, front);
      Gained([x] + front, last);
      Gained(front, last);
    }
  }

  /** Tokens that read as these occurrences, up to their spelling, and these positionals. */
  ghost predicate ReadsAs(tokens: seq<string>, t: Tables, occs: seq<Occurrence>, positionals: seq<string>) {
    var r := ReadAll(tokens, t, false, false);
    && r.Success? && r.value != [] && After(r.value).None?
    && SameReading(Occs(r.value), occs) && Positionals(r.value) == positionals
  }

  /** The long forms of a list of occurrences read as they do just when each one does. */
  lemma {:induction false} RenderedReads(occs: seq<Occurrence>, positionals: seq<string>, t: Tables)
    requires WellFormed(t) && forall i :: 0 <= i < |occs| ==> Plain(occs[i])
    ensures ReadsAs(RenderAll(occs) + (["--"] + positionals), t, occs, positionals)
      <==> forall i :: 0 <= i < |occs| ==> Returns(occs[i], t)
    decreases |occs|
  {
    hide WellFormed, Returns, ReadsAs, ReadItem, Plain;
    var tail := ["--"] + positionals;
    if occs == [] {
      assert RenderAll(occs) + tail == tail;
      TailReads(positionals, t);
    } else {
      var rest := RenderAll(occs[1..]) + tail;
      var all := RenderAll(occs) + tail;
      assert all == [Render(occs[0])] + rest && all[1..] == rest;
      RenderedReads(occs[1..], positionals, t);
      RenderedBegins(occs[0], rest, t);
      assert occs == [occs[0]] + occs[1..];
      if Returns(occs[0], t) {
        OneMore(all, rest, t, occs[0], occs[1..], positionals);
        assert forall i :: 0 < i < |occs| ==> occs[i] == occs[1..][i - 1];
      } else {
        BadFirst(all, t, occs, positionals);
      }
    }
  }

  lemma OneMore(all: seq<string>, rest: seq<string>, t: Tables, o: Occurrence, occs: seq<Occurrence>,
                positionals: seq<string>)
    requires all != [] && all[1..] == rest && rest != [] && Begins(all, t, o)
    requires |ReadItem(all, t, false, false).value.used| == 1
    ensures ReadsAs(all, t, [o] + occs, positionals) <==> ReadsAs(rest, t, occs, positionals)
  {
    hide ReadItem, Occs, Positionals, After;
    var item := ReadItem(all, t, false, false).value;
    OneToken(all, rest, t);
    var more := ReadAll(rest, t, false, false);
    if more.Success? {
      ItemFirst(item, more.value);
      SameFirst(item.occ, o, Occs(more.value), occs);
    }
  }

  /** Misread at the start is misread. */
  lemma BadFirst(all: seq<string>, t: Tables, occs: seq<Occurrence>, positionals: seq<string>)
    requires all != [] && occs != [] && !Begins(all, t, occs[0])
    requires Dashed(all[0]) && DoubleDashed(all[0]) && all[0] != "--"
    ensures !ReadsAs(all, t, occs, positionals)
  {
    var item := ReadItem(all, t, false, false);
    if ReadAll(all, t, false, false).Success? {
      DoubleDashedOccurs(all, t);
      hide ReadItem, Occs, Positionals, After;
      ItemFirst(item.value, ReadAll(all[|Used(item.value)|..], t, false, false).value);
    }
  }

  lemma DoubleDashedOccurs(tokens: seq<string>, t: Tables)
    requires tokens != [] && Dashed(tokens[0]) && DoubleDashed(tokens[0]) && tokens[0] != "--"
    requires ReadItem(tokens, t, false, false).Success?
    ensures ReadItem(tokens, t, false, false).value.Occurs?
  {
  }

  /** Past an occurrence of one token, the rest is read on its own. */
  lemma OneToken(all: seq<string>, rest: seq<string>, t: Tables)
    requires all != [] && all[1..] == rest
    requires var item := ReadItem(all, t, false, false); item.Success? && item.value.Occurs? && |item.value.used| == 1
    ensures var more := ReadAll(rest, t, false, false);
      && ReadAll(all, t, false, false).Success? == more.Success?
      && (more.Success? ==> ReadAll(all, t, false, false).value == [ReadItem(all, t, false, false).value] + more.value)
      && (more.Success? && rest != [] ==> more.value != [])
  {
    hide ReadDashed, Dashed;
  }

  lemma TailReads(positionals: seq<string>, t: Tables)
    ensures ReadsAs(["--"] + positionals, t, [], positionals)
  {
    hide Occs, Positionals, After, ReadDashed;
    var tail := ["--"] + positionals;
    assert tail[1..] == positionals;
    StoppedReads(positionals, t, false);
    var more := ReadAll(positionals, t, false, true).value;
    ItemFirst(Separator, more);
    AfterSeparatorItem(more);
  }

  lemma SameFirst(x: Occurrence, y: Occurrence, a: seq<Occurrence>, b: seq<Occurrence>)
    requires x.name == y.name && x.raw == y.raw && x.kind == y.kind
    ensures SameReading([x] + a, [y] + b) <==> SameReading(a, b)
  {
    if SameReading([x] + a, [y] + b) {
      forall i | 0 <= i < |a| ensures a[i].name == b[i].name && a[i].raw == b[i].raw && a[i].kind == b[i].kind {
        assert ([x] + a)[i + 1] == a[i] && ([y] + b)[i + 1] == b[i];
      }
    }
  }

  lemma AfterSeparatorItem(items: seq<Item>)
    requires forall i :: 0 <= i < |items| ==> items[i].Stands?
    ensures After([Separator] + items).None?
  {
  }

  /** The table's word for an occurrence, and whether its long form says the same. */
  predicate Vouched(o: Occurrence, t: Tables) {
    Plain(o) && if o.short.Some? then ShortFor(o, t) && (o.kind.ValueKind? || o.kind.BoolKind?) else Returns(o, t)
  }

  predicate ShortAgrees(o: Occurrence, t: Tables) {
    o.short.Some? ==> "-" + o.short.value in t.shorts && Agrees(t, t.shorts["-" + o.short.value])
  }

  lemma FaithfulVouched(o: Occurrence, used: seq<string>, t: Tables)
    requires WellFormed(t) && Faithful(o, used, t)
    ensures Vouched(o, t)
  {
    SpelledName(o.name, t);
  }

  lemma VouchedReturns(o: Occurrence, t: Tables)
    requires Vouched(o, t)
    ensures Returns(o, t) <==> ShortAgrees(o, t)
  {
  }

  lemma {:induction false} OccsAreVouched(items: seq<Item>, t: Tables)
    requires WellFormed(t) &&
      forall i :: 0 <= i < |items| && items[i].Occurs? ==> Faithful(items[i].occ, items[i].used, t)
    ensures forall i :: 0 <= i < |Occs(items)| ==> Vouched(Occs(items)[i], t)
  {
    hide WellFormed, Faithful, Vouched;
    if items != [] {
      OccsAreVouched(items[..|items| - 1], t);
      var last := items[|items| - 1];
      if last.Occurs? { FaithfulVouched(last.occ, last.used, t); }
    }
  }

  /** An argv that is refused, or whose occurrences written out again in the long form, its
      positionals behind a separator, are read the same. */
  ghost predicate Kept(tokens: seq<string>, t: Tables) {
    var read := ReadAll(tokens, t, false, false);
    read.Success? ==> var p := ParsedOf(read.value);
      ReadsAs(Rendered(p), t, p.occs, p.positionals) && p.afterSeparator.None?
  }

  /** Without a separator receiver, an accepted argv survives being written out in the long
      form exactly when the long spelling agrees with each short it uses. */
  lemma RoundTripWhen(tokens: seq<string>, t: Tables)
    requires WellFormed(t) && ReadAll(tokens, t, false, false).Success?
    ensures var occs := Occs(ReadAll(tokens, t, false, false).value);
      Kept(tokens, t) <==> forall i :: 0 <= i < |occs| ==> ShortAgrees(occs[i], t)
  {
    hide Faithful, Vouched, ShortAgrees, Returns, ReadsAs, Plain, WellFormed;
    EveryTokenLands(tokens, t, false, false);
    var items := ReadAll(tokens, t, false, false).value;
    OccsAreVouched(items, t);
    var occs := Occs(items);
    forall i | 0 <= i < |occs| ensures Plain(occs[i]) && (Returns(occs[i], t) <==> ShortAgrees(occs[i], t)) {
      assert Vouched(occs[i], t);
      VouchedPlain(occs[i], t);
      VouchedReturns(occs[i], t);
    }
    RenderedReads(occs, Positionals(items), t);
    NoTail(items, false);
  }

  lemma VouchedPlain(o: Occurrence, t: Tables)
    requires Vouched(o, t)
    ensures Plain(o)
  {
  }

  lemma {:induction false} NoTail(items: seq<Item>, stopped: bool)
    requires Shaped(items, false, stopped)
    ensures After(items).None?
    decreases |items|
  {
    if items != [] {
      NoTail(items[1..], stopped || items[0].Separator?);
      assert items == [items[0]] + items[1..];
    }
  }

  /** The tables on which every accepted argv survives are those whose shorts agree. */
  lemma RoundTrip(t: Tables)
    requires WellFormed(t)
    ensures (forall tokens :: Kept(tokens, t)) <==> ShortsAgree(t)
  {
    if ShortsAgree(t) {
      forall tokens ensures Kept(tokens, t) { AgreeingKept(tokens, t); }
    }
    if forall tokens :: Kept(tokens, t) {
      forall s | s in t.shorts ensures Agrees(t, t.shorts[s]) { KeptAgrees(t, s); }
    }
  }

  lemma AgreeingKept(tokens: seq<string>, t: Tables)
    requires WellFormed(t) && ShortsAgree(t)
    ensures Kept(tokens, t)
  {
    hide Faithful, Returns, ReadsAs, Plain, WellFormed, Agrees;
    if ReadAll(tokens, t, false, false).Success? {
      EveryTokenLands(tokens, t, false, false);
      OccsAreVouched(ReadAll(tokens, t, false, false).value, t);
      RoundTripWhen(tokens, t);
    }
  }

  /** The shortest argv with a short. */
  function Alone(t: Tables, s: string): seq<string>
    requires s in t.shorts
  {
    if t.shorts[s].isBool then [s] else [s, ""]
  }

  /** It says whether the short agrees. */
  lemma KeptAgrees(t: Tables, s: string)
    requires WellFormed(t) && s in t.shorts && Kept(Alone(t, s), t)
    ensures Agrees(t, t.shorts[s])
  {
    var tokens := Alone(t, s);
    OneShort(t, s);
    OneItem(tokens, t);
    var occs := Occs(ReadAll(tokens, t, false, false).value);
    hide Kept, WellFormed, Agrees, ReadAll, ReadItem;
    RoundTripWhen(tokens, t);
    assert ShortAgrees(occs[0], t);
    assert "-" + s[1..] == s;
  }

  /** One occurrence that takes all tokens. */
  lemma OneItem(tokens: seq<string>, t: Tables)
    requires tokens != []
    requires var item := ReadItem(tokens, t, false, false);
      item.Success? && item.value.Occurs? && item.value.used == tokens
    ensures ReadAll(tokens, t, false, false).Success?
    ensures Occs(ReadAll(tokens, t, false, false).value) == [ReadItem(tokens, t, false, false).value.occ]
  {
    hide ReadItem;
    var item := ReadItem(tokens, t, false, false).value;
    assert tokens[|tokens|..] == [];
    assert [item] + [] == [item] && [item][..0] == [];
  }

  lemma OneShort(t: Tables, s: string)
    requires WellFormed(t) && s in t.shorts
    ensures var item := ReadItem(Alone(t, s), t, false, false);
      item.Success? && item.value.Occurs? && item.value.used == Alone(t, s) && item.value.occ.short == Some(s[1..])
  {
    assert s !in t.negations && s !in t.unsets;
  }
}
