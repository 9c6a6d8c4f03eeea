/** The tag expression language: tokenizer, five-level recursive descent, evaluation. */
module TagDsl {
  import opened Names

  /** The binary operators, loosest first. */
  datatype Op = Diff | Or | Xor | And

  function Level(op: Op): nat {
    match op
    case Diff => 0
    case Or => 1
    case Xor => 2
    case And => 3
  }

  function OpAt(level: nat): (op: Op)
    requires level < 4
    ensures Level(op) == level
  {
    if level == 0 then Diff else if level == 1 then Or else if level == 2 then Xor else And
  }

  /** The level of a negation or a primary, which binds tightest. */
  const UNARY: nat := 4

  datatype Kind = Ident | Operator(op: Op) | Bang | LParen | RParen

  datatype Token = Token(kind: Kind, val: string, pos: nat)

  datatype Tree = Name(name: string) | Not(operand: Tree) | Bin(op: Op, left: Tree, right: Tree)

  function Eval(t: Tree, tags: set<string>): bool {
    match t
    case Name(n) => n in tags
    case Not(o) => !Eval(o, tags)
    case Bin(And, l, r) => Eval(l, tags) && Eval(r, tags)
    case Bin(Or, l, r) => Eval(l, tags) || Eval(r, tags)
    case Bin(Xor, l, r) => Eval(l, tags) != Eval(r, tags)
    case Bin(Diff, l, r) => Eval(l, tags) && !Eval(r, tags)
  }

  datatype TagError =
    | Empty
    | UnexpectedChar(pos: nat)
    | UnexpectedToken(at: nat)
    | UnexpectedEnd
    | ExpectedRParen

  // --- Tokenizing ---------------------------------------------------------------

  predicate IsBlank(c: char) {
    c == ' ' || c == '\t' || c == '\n' || c == '\r'
  }

  predicate IsLower(c: char) {
    'a' <= c <= 'z'
  }

  predicate IsNameChar(c: char) {
    IsLower(c) || '0' <= c <= '9' || c == '-'
  }

  function SymbolKind(c: char): Option<Kind> {
    match c
    case '&' => Some(Operator(And))
    case '|' => Some(Operator(Or))
    case '^' => Some(Operator(Xor))
    case '-' => Some(Operator(Diff))
    case '!' => Some(Bang)
    case '(' => Some(LParen)
    case ')' => Some(RParen)
    case _ => None
  }

  /** Where the run of name characters starting at j ends. */
  function NameEnd(expr: string, j: nat): (e: nat)
    requires j <= |expr|
    ensures j <= e <= |expr| && forall k :: j <= k < e ==> IsNameChar(expr[k])
    ensures e < |expr| ==> !IsNameChar(expr[e])
    decreases |expr| - j
  {
    if j < |expr| && IsNameChar(expr[j]) then NameEnd(expr, j + 1) else j
  }

  /** The tokens of expr from position i on: longest names, blanks dropped. */
  function Lex(expr: string, i: nat): Result<seq<Token>, TagError>
    requires i <= |expr|
    decreases |expr| - i
  {
    if i == |expr| then Success([])
    else if IsBlank(expr[i]) then Lex(expr, i + 1)
    else if SymbolKind(expr[i]).Some? then
      Prepend([Token(SymbolKind(expr[i]).value, [expr[i]], i)], Lex(expr, i + 1))
    else if IsLower(expr[i]) then
      var e := NameEnd(expr, i + 1);
      Prepend([Token(Ident, expr[i..e], i)], Lex(expr, e))
    else Failure(UnexpectedChar(i))
  }

  function Prepend(tokens: seq<Token>, rest: Result<seq<Token>, TagError>): Result<seq<Token>, TagError> {
    if rest.Success? then Success(tokens + rest.value) else rest
  }

  lemma PrependTwice(a: seq<Token>, b: seq<Token>, rest: Result<seq<Token>, TagError>)
    ensures Prepend(a, Prepend(b, rest)) == Prepend(a + b, rest)
  {
    if rest.Success? { assert a + (b + rest.value) == (a + b) + rest.value; }
  }

  lemma PrependNothing(rest: Result<seq<Token>, TagError>)
    ensures Prepend([], rest) == rest
  {
    if rest.Success? { assert [] + rest.value == rest.value; }
  }

  /** tagdslTokenize. */
  method Tokenize(expr: string) returns (r: Result<seq<Token>, TagError>)
    ensures r == Lex(expr, 0)
  {
    var tokens := [];
    var i := 0;
    PrependNothing(Lex(expr, 0));
    while i < |expr|
      invariant i <= |expr| && Lex(expr, 0) == Prepend(tokens, Lex(expr, i))
    {
      var ch := expr[i];
      if IsBlank(ch) {
        i := i + 1;
        continue;
      }
      var symbol := SymbolKind(ch);
      if symbol.Some? {
        PrependTwice(tokens, [Token(symbol.value, [ch], i)], Lex(expr, i + 1));
        tokens := tokens + [Token(symbol.value, [ch], i)];
        i := i + 1;
      } else if IsLower(ch) {
        var start := i;
        i := i + 1;
        while i < |expr| && IsNameChar(expr[i])
          invariant start < i <= |expr| && NameEnd(expr, i) == NameEnd(expr, start + 1)
        {
          i := i + 1;
        }
        PrependTwice(tokens, [Token(Ident, expr[start..i], start)], Lex(expr, i));
        tokens := tokens + [Token(Ident, expr[start..i], start)];
      } else {
        return Failure(UnexpectedChar(i));
      }
    }
    assert tokens + [] == tokens;
    return Success(tokens);
  }

  // --- Parsing --------------------------------------------------------------------

  datatype Parsed = Parsed(tree: Tree, next: nat) | Refused(error: TagError)

  /** What recursive descent reads at a level from token p on. Levels 0 to 3 are
      left-associative chains of one operator; UNARY is negation or a primary. */
  ghost function Descend(ts: seq<Token>, level: nat, p: nat): (r: Parsed)
    requires level <= UNARY && p <= |ts|
    ensures r.Parsed? ==> p < r.next <= |ts|
    decreases |ts| - p, UNARY - level, 1
  {
    if level < UNARY then
      var first := Descend(ts, level + 1, p);
      if first.Refused? then first else Chain(ts, level, first.tree, first.next)
    else if p == |ts| then Refused(UnexpectedEnd)
    else match ts[p].kind
      case Bang =>
        var operand := Descend(ts, UNARY, p + 1);
        if operand.Refused? then operand else Parsed(Not(operand.tree), operand.next)
      case Ident => Parsed(Name(ts[p].val), p + 1)
      case LParen =>
        var inner := Descend(ts, 0, p + 1);
        if inner.Refused? then inner
        else if inner.next == |ts| || ts[inner.next].kind != RParen then Refused(ExpectedRParen)
        else Parsed(inner.tree, inner.next + 1)
      case _ => Refused(UnexpectedToken(p))
  }

  /** The rest of a chain at a level, left being what was read so far. */
  ghost function Chain(ts: seq<Token>, level: nat, left: Tree, p: nat): (r: Parsed)
    requires level < UNARY && p <= |ts|
    ensures r.Parsed? ==> p <= r.next <= |ts|
    decreases |ts| - p, UNARY - level, 0
  {
    if p == |ts| || ts[p].kind != Operator(OpAt(level)) then Parsed(left, p)
    else
      var right := Descend(ts, level + 1, p + 1);
      if right.Refused? then right
      else Chain(ts, level, Bin(OpAt(level), left, right.tree), right.next)
  }

  class Parser {
    const tokens: seq<Token>
    var pos: nat

    constructor (tokens: seq<Token>)
      ensures this.tokens == tokens && pos == 0
    {
      this.tokens, this.pos := tokens, 0;
    }

    /** What a method of the parser leaves: the tree and position the descent gives. */
    ghost predicate Leaves(want: Parsed, r: Result<Tree, TagError>)
      reads this
    {
      if want.Parsed? then r == Success(want.tree) && pos == want.next
      else r == Failure(want.error)
    }

    /** parseDiff, parseOr, parseXor and parseAnd: one body over the level's operator. */
    method ParseChain(level: nat) returns (r: Result<Tree, TagError>)
      requires level < UNARY && pos <= |tokens|
      modifies this`pos
      ensures Leaves(Descend(tokens, level, old(pos)), r)
      decreases |tokens| - pos, UNARY - level, 1
    {
      ghost var start := pos;
      r := ParseOperand(level);
      if r.Failure? { return; }
      var left := r.value;
      while pos < |tokens| && tokens[pos].kind == Operator(OpAt(level))
        invariant start < pos <= |tokens|
        invariant Descend(tokens, level, start) == Chain(tokens, level, left, pos)
        decreases |tokens| - pos
      {
        pos := pos + 1;
        r := ParseOperand(level);
        if r.Failure? { return; }
        left := Bin(OpAt(level), left, r.value);
      }
      return Success(left);
    }

    /** The next tighter level. */
    method ParseOperand(level: nat) returns (r: Result<Tree, TagError>)
      requires level < UNARY && pos <= |tokens|
      modifies this`pos
      ensures Leaves(Descend(tokens, level + 1, old(pos)), r)
      decreases |tokens| - pos, UNARY - level, 0
    {
      if level + 1 < UNARY {
        r := ParseChain(level + 1);
      } else {
        r := ParseNot();
      }
    }

    method ParseNot() returns (r: Result<Tree, TagError>)
      requires pos <= |tokens|
      modifies this`pos
      ensures Leaves(Descend(tokens, UNARY, old(pos)), r)
      decreases |tokens| - pos, 0, 1
    {
      if pos < |tokens| && tokens[pos].kind == Bang {
        pos := pos + 1;
        r := ParseNot();
        if r.Failure? { return; }
        return Success(Not(r.value));
      }
      r := ParsePrimary();
    }

    method ParsePrimary() returns (r: Result<Tree, TagError>)
      requires pos <= |tokens| && (pos < |tokens| ==> tokens[pos].kind != Bang)
      modifies this`pos
      ensures Leaves(Descend(tokens, UNARY, old(pos)), r)
      decreases |tokens| - pos, 0, 0
    {
      if pos == |tokens| {
        return Failure(UnexpectedEnd);
      }
      var tok := tokens[pos];
      match tok.kind {
        case Ident =>
          pos := pos + 1;
          return Success(Name(tok.val));
        case LParen =>
          pos := pos + 1;
          r := ParseChain(0);
          if r.Failure? { return; }
          if pos == |tokens| || tokens[pos].kind != RParen {
            return Failure(ExpectedRParen);
          }
          pos := pos + 1;
        case _ =>
          return Failure(UnexpectedToken(pos));
      }
    }
  }

  /** The tree of a whole token list. */
  ghost function ParseTokens(ts: seq<Token>): Result<Tree, TagError> {
    if ts == [] then Failure(Empty)
    else
      var d := Descend(ts, 0, 0);
      if d.Refused? then Failure(d.error)
      else if d.next < |ts| then Failure(UnexpectedToken(d.next))
      else Success(d.tree)
  }

  /** tagdslParse. */
  method Parse(tokens: seq<Token>) returns (r: Result<Tree, TagError>)
    ensures r == ParseTokens(tokens)
  {
    if tokens == [] { return Failure(Empty); }
    var p := new Parser(tokens);
    r := p.ParseChain(0);
    if r.Failure? { return; }
    if p.pos < |tokens| { return Failure(UnexpectedToken(p.pos)); }
  }

  ghost function Match(expr: string, tags: set<string>): Result<bool, TagError> {
    var trimmed := TrimSpace(expr);
    if trimmed == "" then Failure(Empty)
    else
      var lexed := Lex(trimmed, 0);
      if lexed.Failure? then Failure(lexed.error)
      else
        var parsed := ParseTokens(lexed.value);
        if parsed.Failure? then Failure(parsed.error) else Success(Eval(parsed.value, tags))
  }

  /** matchTagExpr. */
  method MatchTagExpr(expr: string, tags: set<string>) returns (r: Result<bool, TagError>)
    ensures r == Match(expr, tags)
  {
    var trimmed := TrimSpace(expr);
    if trimmed == "" { return Failure(Empty); }
    var lexed := Tokenize(trimmed);
    if lexed.Failure? { return Failure(lexed.error); }
    if lexed.value == [] { return Failure(Empty); }
    var parsed := Parse(lexed.value);
    if parsed.Failure? { return Failure(parsed.error); }
    return Success(Eval(parsed.value, tags));
  }
}
