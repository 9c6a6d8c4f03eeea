/** Phase 1 of parsing a command: tokenizing argv over a flag table, interpreting nothing. */
module ArgvTokens {
  import opened Names

  /** What tokenizing needs of a flag: its name and whether it takes a value. */
  datatype Flag = Flag(name: string, isBool: bool)

  /** The lookup tables, by spelling. */
  datatype Tables = Tables(longs: map<string, Flag>, shorts: map<string, Flag>,
                           negations: map<string, Flag>, unsets: map<string, Flag>)

  datatype Kind = ValueKind | BoolKind | NegatedKind | UnsetKind

  /** One flag occurrence, its raw value uninterpreted. */
  datatype Occurrence = Occurrence(name: string, short: Option<string>, raw: string, kind: Kind, spelling: string)

  datatype Error = BoolTakesNoValue(flag: string) | NegationTakesNoValue(flag: string) | UnknownFlag(flag: string)
    | RequiresValue(flag: string)

  /** afterSeparator is what a separator receiver takes, when the command has one and a
      separator came. */
  datatype Parsed = Parsed(occs: seq<Occurrence>, positionals: seq<string>, afterSeparator: Option<seq<string>>)

  function Long(name: string): string {
    "--" + name
  }

  function Negation(name: string): string {
    "--no-" + name
  }

  function Unset(name: string): string {
    "--unset-" + name
  }

  // --- The tables -------------------------------------------------------------------

  predicate Kebab(name: string) {
    name != "" && 'a' <= name[0] <= 'z' && forall i :: 0 <= i < |name| ==> KebabChar(name[i])
  }

  predicate KebabChar(c: char) {
    'a' <= c <= 'z' || '0' <= c <= '9' || c == '-'
  }

  /** Each long spelling leads to a flag that has it, and each short is a dash and one more. */
  ghost predicate WellFormed(t: Tables) {
    && (forall s :: s in t.longs ==> s == Long(t.longs[s].name) && Kebab(t.longs[s].name))
    && (forall s :: s in t.negations ==> s == Negation(t.negations[s].name) && Kebab(t.negations[s].name))
    && (forall s :: s in t.unsets ==> s == Unset(t.unsets[s].name) && Kebab(t.unsets[s].name))
    && (forall s :: s in t.shorts ==> |s| == 2 && s[0] == '-' && s[1] != '-' && Kebab(t.shorts[s].name))
  }

  /** The long spelling of a flag says what the flag says: it takes a value just when the flag
      does, and alone it is no other flag's negation or clear. */
  predicate Agrees(t: Tables, f: Flag) {
    && Long(f.name) in t.longs && t.longs[Long(f.name)].isBool == f.isBool
    && (f.isBool ==> Long(f.name) !in t.negations && Long(f.name) !in t.unsets)
  }

  /** The tables on which an occurrence can always be written in the long form. */
  ghost predicate ShortsAgree(t: Tables) {
    forall s :: s in t.shorts ==> Agrees(t, t.shorts[s])
  }

  // --- Reading argv -------------------------------------------------------------------

  /** What a stretch of argv is: an occurrence with the tokens it uses, a positional, the
      separator, or the separator with everything after it. */
  datatype Item =
    Occurs(occ: Occurrence, used: seq<string>) | Stands(token: string) | Separator | Tail(rest: seq<string>)

  function Used(item: Item): seq<string> {
    match item
    case Occurs(_, used) => used
    case Stands(token) => [token]
    case Separator => ["--"]
    case Tail(rest) => ["--"] + rest
  }

  /** strings.Index of '='; the length when there is none. */
  function EqualsAt(s: string): (k: nat)
    ensures k <= |s| && (k < |s| ==> s[k] == '=') && forall j :: 0 <= j < k ==> s[j] != '='
  {
    if s == "" || s[0] == '=' then 0 else 1 + EqualsAt(s[1..])
  }

  predicate Dashed(token: string) {
    token != "" && token[0] == '-' && token != "-"
  }

  predicate DoubleDashed(token: string) {
    "--" <= token
  }

  /** The token with an equals sign, split at the first one. */
  function ReadAssigned(token: string, t: Tables): Result<Item, Error>
    requires EqualsAt(token) < |token|
  {
    var flag, value := token[..EqualsAt(token)], token[EqualsAt(token) + 1..];
    if flag in t.longs then
      if t.longs[flag].isBool then Failure(BoolTakesNoValue(flag))
      else Success(Occurs(Occurrence(t.longs[flag].name, None, value, ValueKind, token), [token]))
    else if flag in t.negations then Failure(NegationTakesNoValue(flag))
    else Failure(UnknownFlag(flag))
  }

  /** A flag that takes the next token as its value, unless it is a boolean. */
  function ReadFlag(tokens: seq<string>, f: Flag, short: Option<string>): Result<Item, Error>
    requires tokens != []
  {
    if f.isBool then Success(Occurs(Occurrence(f.name, short, "", BoolKind, tokens[0]), [tokens[0]]))
    else if |tokens| < 2 then Failure(RequiresValue(tokens[0]))
    else Success(
      Occurs(Occurrence(f.name, short, tokens[1], ValueKind, tokens[0] + " " + tokens[1]), [tokens[0], tokens[1]]))
  }

  /** What a dashed token that is not the separator begins. */
  function ReadDashed(tokens: seq<string>, t: Tables): Result<Item, Error>
    requires tokens != []
  {
    var token := tokens[0];
    if DoubleDashed(token) && EqualsAt(token) < |token| then ReadAssigned(token, t)
    else if token in t.negations then
      Success(Occurs(Occurrence(t.negations[token].name, None, "", NegatedKind, token), [token]))
    else if token in t.unsets then
      Success(Occurs(Occurrence(t.unsets[token].name, None, "", UnsetKind, token), [token]))
    else if DoubleDashed(token) then
      if token !in t.longs then Failure(UnknownFlag(token)) else ReadFlag(tokens, t.longs[token], None)
    else if |token| == 2 && token in t.shorts then ReadFlag(tokens, t.shorts[token], Some(token[1..]))
    else Success(Stands(token))
  }

  lemma DashedItem(tokens: seq<string>, t: Tables)
    requires tokens != [] && ReadDashed(tokens, t).Success?
    ensures var item := ReadDashed(tokens, t).value; item.Occurs? || item == Stands(tokens[0])
  {
  }

  /** What argv begins with. */
  function ReadItem(tokens: seq<string>, t: Tables, receiver: bool, stopped: bool): (r: Result<Item, Error>)
    requires tokens != []
    ensures r.Success? ==> Used(r.value) != [] && Used(r.value) <= tokens
  {
    var token := tokens[0];
    if stopped || !Dashed(token) then Success(Stands(token))
    else if token == "--" then Success(if receiver then Tail(tokens[1..]) else Separator)
    else ReadDashed(tokens, t)
  }

  function ReadAll(tokens: seq<string>, t: Tables, receiver: bool, stopped: bool): Result<seq<Item>, Error>
    decreases |tokens|
  {
    if tokens == [] then Success([])
    else
      var item := ReadItem(tokens, t, receiver, stopped);
      if item.Failure? then Failure(item.error)
      else
        var rest := ReadAll(tokens[|Used(item.value)|..], t, receiver, stopped || item.value.Separator?);
        if rest.Failure? then rest else Success([item.value] + rest.value)
  }

  function Occs(items: seq<Item>): seq<Occurrence> {
    if items == [] then []
    else Occs(items[..|items| - 1]) + if items[|items| - 1].Occurs? then [items[|items| - 1].occ] else []
  }

  function Positionals(items: seq<Item>): seq<string> {
    if items == [] then []
    else Positionals(items[..|items| - 1]) + if items[|items| - 1].Stands? then [items[|items| - 1].token] else []
  }

  function After(items: seq<Item>): Option<seq<string>> {
    if items != [] && items[|items| - 1].Tail? then Some(items[|items| - 1].rest) else None
  }

  function ParsedOf(items: seq<Item>): Parsed {
    Parsed(Occs(items), Positionals(items), After(items))
  }

  /** Items already read, and what the rest reads as. */
  function Onward(items: seq<Item>, rest: Result<seq<Item>, Error>): Result<seq<Item>, Error> {
    if rest.Failure? then rest else Success(items + rest.value)
  }

  lemma ReadStep(tokens: seq<string>, t: Tables, receiver: bool, stopped: bool, items: seq<Item>, i: nat)
    requires i < |tokens|
    ensures var item := ReadItem(tokens[i..], t, receiver, stopped);
      match item
      case Failure(e) => Onward(items, ReadAll(tokens[i..], t, receiver, stopped)) == Failure(e)
      case Success(x) =>
        i + |Used(x)| <= |tokens| &&
        Onward(items, ReadAll(tokens[i..], t, receiver, stopped)) ==
        Onward(items + [x], ReadAll(tokens[i + |Used(x)|..], t, receiver, stopped || x.Separator?))
    ensures tokens[i..][0] == tokens[i] && tokens[i..][1..] == tokens[i + 1..]
    ensures i + 1 < |tokens| ==> tokens[i..][1] == tokens[i + 1]
  {
    hide ReadItem, Used;
    var item := ReadItem(tokens[i..], t, receiver, stopped);
    if item.Success? {
      var x := item.value;
      assert tokens[i..][|Used(x)|..] == tokens[i + |Used(x)|..];
      var rest := ReadAll(tokens[i + |Used(x)|..], t, receiver, stopped || x.Separator?);
      if rest.Success? {
        assert items + ([x] + rest.value) == (items + [x]) + rest.value;
      }
    }
  }

  lemma Gained(items: seq<Item>, x: Item)
    ensures Occs(items + [x]) == Occs(items) + if x.Occurs? then [x.occ] else []
    ensures Positionals(items + [x]) == Positionals(items) + if x.Stands? then [x.token] else []
    ensures After(items + [x]) == if x.Tail? then Some(x.rest) else None
    ensures ParsedOf(items + [x]) == Parsed(Occs(items + [x]), Positionals(items + [x]), After(items + [x]))
  {
    assert (items + [x])[..|items|] == items;
  }

  lemma Start(tokens: seq<string>, t: Tables, receiver: bool)
    ensures ReadAll(tokens, t, receiver, false) == Onward([], ReadAll(tokens[0..], t, receiver, false))
    ensures ReadAll([], t, receiver, false) == Success([]) && ReadAll([], t, receiver, true) == Success([])
    ensures Occs([]) == [] && Positionals([]) == [] && After([]) == None
  {
    assert tokens[0..] == tokens;
    var all := ReadAll(tokens, t, receiver, false);
    if all.Success? { assert [] + all.value == all.value; }
  }

  /** Phase 1 of parseCommand. */
  method Tokenize(tokens: seq<string>, t: Tables, receiver: bool) returns (r: Result<Parsed, Error>)
    ensures r == match ReadAll(tokens, t, receiver, false)
      case Failure(e) => Failure(e)
      case Success(items) => Success(ParsedOf(items))
  {
    hide ReadAll, Occs, Positionals, After, Dashed, ReadDashed;
    var occs: seq<Occurrence>, positionals: seq<string>, afterSeparator: Option<seq<string>> := [], [], None;
    var i, stopFlags := 0, false;
    ghost var items: seq<Item> := [];
    Start(tokens, t, receiver);
    while i < |tokens|
      invariant 0 <= i <= |tokens|
      invariant i < |tokens| ==> afterSeparator.None?
      invariant ParsedOf(items) == Parsed(occs, positionals, afterSeparator)
      invariant ReadAll(tokens, t, receiver, false) == Onward(items, ReadAll(tokens[i..], t, receiver, stopFlags))
      decreases |tokens| - i
    {
      var tok := tokens[i];
      ReadStep(tokens, t, receiver, stopFlags, items, i);
      ghost var item := ReadItem(tokens[i..], t, receiver, stopFlags);
      if item.Success? { Gained(items, item.value); }
      if stopFlags || !Dashed(tok) {
        positionals := positionals + [tok];
        i := i + 1;
      } else if tok == "--" {
        if receiver {
          afterSeparator := Some(tokens[i + 1..]);
          i := |tokens|;
        } else {
          stopFlags := true;
          i := i + 1;
        }
      } else {
        var read := ReadDashed(tokens[i..], t);
        if read.Failure? { return Failure(read.error); }
        DashedItem(tokens[i..], t);
        if read.value.Occurs? {
          occs := occs + [read.value.occ];
        } else {
          positionals := positionals + [tok];
        }
        i := i + |Used(read.value)|;
      }
      items := items + [item.value];
    }
    assert tokens[|tokens|..] == [] && items + [] == items;
    return Success(Parsed(occs, positionals, afterSeparator));
  }
}
