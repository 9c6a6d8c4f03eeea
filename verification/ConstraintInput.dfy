/** newArgInput: which arguments an invocation provides, at either door. */
module ConstraintInput {
  import opened Names
  import opened Constraints

  datatype Arg = Arg(name: string, variadic: bool)

  /** Pre-typed values by name at a machine door, positional tokens on the command line. */
  datatype Positionals = Typed(byName: map<string, Value>) | Tokens(tokens: seq<string>)

  /** The first token left for argument i: a variadic argument before it leaves none. */
  function Start(args: seq<Arg>, tokens: nat, i: nat): nat
    requires i <= |args|
  {
    if exists j :: 0 <= j < i && args[j].variadic then tokens else if i <= tokens then i else tokens
  }

  /** The tokens argument i takes. */
  function Taken(args: seq<Arg>, tokens: seq<string>, i: nat): seq<string>
    requires i < |args|
  {
    var s := Start(args, |tokens|, i);
    if args[i].variadic then tokens[s..] else if s < |tokens| then [tokens[s]] else []
  }

  function Texts(tokens: seq<string>): seq<Value> {
    seq(|tokens|, i requires 0 <= i < |tokens| => StrValue(tokens[i]))
  }

  /** What argument i is provided with; an empty list is no provision. */
  function Provision(args: seq<Arg>, positionals: Positionals, i: nat): Option<Value>
    requires i < |args|
  {
    match positionals
    case Typed(byName) =>
      if args[i].name !in byName || (args[i].variadic && byName[args[i].name] == ListValue([])) then None
      else Some(byName[args[i].name])
    case Tokens(tokens) =>
      var taken := Taken(args, tokens, i);
      if taken == [] then None
      else Some(if args[i].variadic then ListValue(Texts(taken)) else StrValue(taken[0]))
  }

  ghost predicate Covers(args: seq<Arg>, positionals: Positionals, values: map<string, Value>, n: nat) {
    && n <= |args|
    && (forall i :: 0 <= i < n ==> (args[i].name in values <==> Provision(args, positionals, i).Some?))
    && (forall i :: 0 <= i < n && args[i].name in values ==>
      Provision(args, positionals, i) == Some(values[args[i].name]))
    && (forall k :: k in values ==> exists i :: 0 <= i < n && args[i].name == k)
  }

  ghost predicate DistinctNames(args: seq<Arg>) {
    forall i, j :: 0 <= i < j < |args| ==> args[i].name != args[j].name
  }

  /** One more argument read, with what it is provided with. */
  lemma CoversMore(args: seq<Arg>, positionals: Positionals, values: map<string, Value>, i: nat)
    requires DistinctNames(args) && i < |args| && Covers(args, positionals, values, i)
    ensures args[i].name !in values
    ensures Provision(args, positionals, i).None? ==> Covers(args, positionals, values, i + 1)
    ensures Provision(args, positionals, i).Some? ==>
      Covers(args, positionals, values[args[i].name := Provision(args, positionals, i).value], i + 1)
  {
    hide Provision;
  }

  lemma NothingCovered(args: seq<Arg>, positionals: Positionals)
    ensures Covers(args, positionals, map[], 0)
  {
  }

  method NewArgInput(args: seq<Arg>, positionals: Positionals) returns (values: map<string, Value>)
    requires DistinctNames(args)
    ensures Covers(args, positionals, values, |args|)
  {
    values := map[];
    NothingCovered(args, positionals);
    hide Covers, DistinctNames;
    if positionals.Typed? {
      for i := 0 to |args|
        invariant Covers(args, positionals, values, i)
      {
        var a := args[i];
        CoversMore(args, positionals, values, i);
        if a.name !in positionals.byName { continue; }
        var raw := positionals.byName[a.name];
        if a.variadic && raw == ListValue([]) { continue; }
        values := values[a.name := raw];
      }
      return values;
    }
    var tokens := positionals.tokens;
    var posIdx := 0;
    for i := 0 to |args|
      invariant posIdx == Start(args, |tokens|, i) <= |tokens|
      invariant Covers(args, positionals, values, i)
    {
      var a := args[i];
      StartStep(args, |tokens|, i);
      CoversMore(args, positionals, values, i);
      if a.variadic {
        var remaining := tokens[posIdx..];
        if |remaining| > 0 {
          values := values[a.name := ListValue(Texts(remaining))];
        }
        posIdx := |tokens|;
        continue;
      }
      if posIdx < |tokens| {
        values := values[a.name := StrValue(tokens[posIdx])];
        posIdx := posIdx + 1;
      }
    }
  }

  lemma StartStep(args: seq<Arg>, tokens: nat, i: nat)
    requires i < |args|
    ensures Start(args, tokens, i + 1) ==
      if args[i].variadic then tokens
      else if Start(args, tokens, i) < tokens then Start(args, tokens, i) + 1 else tokens
    ensures Start(args, tokens, i) <= tokens
  {
  }

  function TakenUpTo(args: seq<Arg>, tokens: seq<string>, n: nat): seq<string>
    requires n <= |args|
  {
    if n == 0 then [] else TakenUpTo(args, tokens, n - 1) + Taken(args, tokens, n - 1)
  }

  lemma {:induction false} TakenPrefix(args: seq<Arg>, tokens: seq<string>, n: nat)
    requires n <= |args|
    ensures Start(args, |tokens|, n) <= |tokens| && TakenUpTo(args, tokens, n) == tokens[..Start(args, |tokens|, n)]
  {
    if n > 0 {
      TakenPrefix(args, tokens, n - 1);
      StartStep(args, |tokens|, n - 1);
      var s := Start(args, |tokens|, n - 1);
      assert tokens[..s] + tokens[s..] == tokens && tokens[..|tokens|] == tokens;
    }
  }

  lemma PrefixWhole(tokens: seq<string>, s: nat)
    requires s <= |tokens|
    ensures tokens[..s] <= tokens && (tokens[..s] == tokens <==> s == |tokens|)
  {
    assert |tokens[..s]| == s;
  }

  /** The arguments take the tokens in order, each once; all of them just when there are
      no more tokens than arguments or one argument is variadic. */
  lemma EveryTokenTaken(args: seq<Arg>, tokens: seq<string>)
    ensures TakenUpTo(args, tokens, |args|) <= tokens
    ensures TakenUpTo(args, tokens, |args|) == tokens <==>
      |tokens| <= |args| || exists j :: 0 <= j < |args| && args[j].variadic
  {
    hide TakenUpTo, Taken;
    TakenPrefix(args, tokens, |args|);
    PrefixWhole(tokens, Start(args, |tokens|, |args|));
  }

  /** At a machine door an argument is provided exactly when the call gives it something, an empty list for a
      variadic one aside, and then with what the call gives. */
  lemma TypedProvision(args: seq<Arg>, byName: map<string, Value>, values: map<string, Value>, i: nat)
    requires DistinctNames(args) && Covers(args, Typed(byName), values, |args|) && i < |args|
    ensures args[i].name in values <==>
      args[i].name in byName && !(args[i].variadic && byName[args[i].name] == ListValue([]))
    ensures args[i].name in values ==> values[args[i].name] == byName[args[i].name]
  {
  }

  /** On the command line a variadic argument takes all that is left, as a list, and any other the one token
      in its place; one that is left nothing is not provided. */
  lemma TokenProvision(args: seq<Arg>, tokens: seq<string>, values: map<string, Value>, i: nat)
    requires DistinctNames(args) && Covers(args, Tokens(tokens), values, |args|) && i < |args|
    requires forall j :: 0 <= j < i ==> !args[j].variadic
    ensures args[i].name in values <==> i < |tokens|
    ensures i < |tokens| && !args[i].variadic ==> values[args[i].name] == StrValue(tokens[i])
    ensures i < |tokens| && args[i].variadic ==>
      && values[args[i].name].ListValue? && |values[args[i].name].items| == |tokens| - i
      && forall k :: i <= k < |tokens| ==> values[args[i].name].items[k - i] == StrValue(tokens[k])
    ensures args[i].variadic ==> forall j :: i < j < |args| ==> args[j].name !in values
  {
    hide DistinctNames;
    assert Start(args, |tokens|, i) == if i <= |tokens| then i else |tokens|;
    assert args[i].name in values <==> Provision(args, Tokens(tokens), i).Some?;
    if args[i].variadic {
      forall j | i < j < |args| ensures args[j].name !in values {
        assert Start(args, |tokens|, j) == |tokens| && Provision(args, Tokens(tokens), j).None?;
      }
    }
  }
}
