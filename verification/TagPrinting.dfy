/** Printing a tag tree with minimal parentheses, and reading it back. */
module TagPrinting {
  import opened Names
  import opened TagDsl
  import opened TagGrammar

  predicate ValidName(n: string) {
    n != "" && IsLower(n[0]) && forall k :: 0 <= k < |n| ==> IsNameChar(n[k])
  }

  predicate ValidNames(t: Tree) {
    match t
    case Name(n) => ValidName(n)
    case Not(o) => ValidNames(o)
    case Bin(_, l, r) => ValidNames(l) && ValidNames(r)
  }

  function SymbolChar(op: Op): char {
    match op
    case And => '&'
    case Or => '|'
    case Xor => '^'
    case Diff => '-'
  }

  /** The derivation that parenthesizes only an operator looser than its place. */
  function Minimal(t: Tree, level: nat): (d: Derivation)
    requires level <= UNARY
    ensures d.Fits(level) && d.ToTree() == t
    decreases t
  {
    match t
    case Name(n) => Leaf(n)
    case Not(o) => Negation(Minimal(o, UNARY))
    case Bin(op, l, r) =>
      var chain := Binary(op, Minimal(l, Level(op)), Minimal(r, Level(op) + 1));
      if level <= Level(op) then chain else Group(chain)
  }

  /** How many pairs of parentheses a derivation writes. */
  function Pairs(d: Derivation): nat {
    match d
    case Leaf(_) => 0
    case Group(inner) => Pairs(inner) + 1
    case Negation(operand) => Pairs(operand)
    case Binary(_, left, right) => Pairs(left) + Pairs(right)
  }

  /** No derivation of the tree at the level writes fewer. */
  lemma {:induction false} MinimalIsLeast(d: Derivation, level: nat)
    requires level <= UNARY && d.Fits(level)
    ensures Pairs(Minimal(d.ToTree(), level)) <= Pairs(d)
    decreases d
  {
    match d
    case Leaf(_) =>
    case Group(inner) => MinimalIsLeast(inner, 0);
    case Negation(operand) => MinimalIsLeast(operand, UNARY);
    case Binary(op, left, right) =>
      MinimalIsLeast(left, Level(op));
      MinimalIsLeast(right, Level(op) + 1);
  }

  /** A derivation written out, binary operators spaced. */
  function Write(d: Derivation): (s: string) {
    match d
    case Leaf(n) => n
    case Group(inner) => "(" + Write(inner) + ")"
    case Negation(operand) => "!" + Write(operand)
    case Binary(op, left, right) => Write(left) + " " + [SymbolChar(op)] + " " + Write(right)
  }

  function Print(t: Tree): string {
    Write(Minimal(t, 0))
  }

  predicate ValidLeaves(d: Derivation) {
    match d
    case Leaf(n) => ValidName(n)
    case Group(inner) => ValidLeaves(inner)
    case Negation(operand) => ValidLeaves(operand)
    case Binary(_, left, right) => ValidLeaves(left) && ValidLeaves(right)
  }

  lemma {:induction false} MinimalValid(t: Tree, level: nat)
    requires level <= UNARY && ValidNames(t)
    ensures ValidLeaves(Minimal(t, level))
    decreases t
  {
    match t
    case Name(_) =>
    case Not(o) => MinimalValid(o, UNARY);
    case Bin(op, l, r) =>
      MinimalValid(l, Level(op));
      MinimalValid(r, Level(op) + 1);
  }

  /** The tokens of a written derivation that starts at position i. */
  function TokensOf(d: Derivation, i: nat): (ts: seq<Token>)
    ensures |ts| == d.Width()
  {
    match d
    case Leaf(n) => [Token(Ident, n, i)]
    case Group(inner) =>
      [Token(LParen, "(", i)] + TokensOf(inner, i + 1) + [Token(RParen, ")", i + 1 + |Write(inner)|)]
    case Negation(operand) => [Token(Bang, "!", i)] + TokensOf(operand, i + 1)
    case Binary(op, left, right) =>
      var j := i + |Write(left)| + 1;
      TokensOf(left, i) + [Token(Operator(op), [SymbolChar(op)], j)] + TokensOf(right, j + 2)
  }

  /** A name may not run on into what follows it. */
  predicate Bounded(expr: string, j: nat) {
    j >= |expr| || !IsNameChar(expr[j])
  }

  lemma {:induction false} NameEndAt(expr: string, i: nat, k: nat, e: nat)
    requires i <= k <= e <= |expr| && (forall m :: i <= m < e ==> IsNameChar(expr[m])) && Bounded(expr, e)
    ensures NameEnd(expr, k) == e
    decreases e - k
  {
    if k < e { NameEndAt(expr, i, k + 1, e); }
  }

  /** Tokenizing a written derivation in place gives its tokens and goes on after it. */
  lemma {:induction false} LexWritten(expr: string, i: nat, d: Derivation)
    requires ValidLeaves(d) && At(expr, i, Write(d)) && Bounded(expr, i + |Write(d)|)
    ensures Lex(expr, i) == Prepend(TokensOf(d, i), Lex(expr, i + |Write(d)|))
    decreases d, 1
  {
    hide Lex, At;
    match d
    case Leaf(n) => LexName(expr, i, n);
    case Negation(operand) =>
      AtParts(expr, i, "!", Write(operand));
      AtHead(expr, i, "!");
      LexSymbol(expr, i);
      LexWritten(expr, i + 1, operand);
      PrependTwice([Token(Bang, "!", i)], TokensOf(operand, i + 1), Lex(expr, i + |Write(d)|));
    case Group(inner) => LexGroup(expr, i, inner);
    case Binary(op, left, right) => LexBinary(expr, i, op, left, right);
  }

  lemma LexName(expr: string, i: nat, n: string)
    requires ValidName(n) && At(expr, i, n) && Bounded(expr, i + |n|)
    ensures Lex(expr, i) == Prepend([Token(Ident, n, i)], Lex(expr, i + |n|))
  {
    var e := i + |n|;
    forall m | i <= m < e ensures expr[m] == n[m - i] {
      assert expr[i..e][m - i] == n[m - i];
    }
    NameEndAt(expr, i, i + 1, e);
  }

  lemma LexSymbol(expr: string, i: nat)
    requires i < |expr| && SymbolKind(expr[i]).Some?
    ensures Lex(expr, i) == Prepend([Token(SymbolKind(expr[i]).value, [expr[i]], i)], Lex(expr, i + 1))
  {
  }

  lemma LexBlank(expr: string, i: nat)
    requires i < |expr| && IsBlank(expr[i])
    ensures Lex(expr, i) == Lex(expr, i + 1)
  {
  }

  lemma {:induction false} LexGroup(expr: string, i: nat, inner: Derivation)
    requires ValidLeaves(inner) && At(expr, i, "(" + Write(inner) + ")")
    ensures var e := i + 1 + |Write(inner)|;
      Lex(expr, i) == Prepend(TokensOf(Group(inner), i), Lex(expr, e + 1))
    decreases Group(inner), 0
  {
    hide Lex, At, Prepend, ValidLeaves, TokensOf;
    var e := i + 1 + |Write(inner)|;
    GroupLaidOut(expr, i, Write(inner));
    LexSymbol(expr, i);
    LexWritten(expr, i + 1, inner);
    LexSymbol(expr, e);
    PrependThree([Token(LParen, "(", i)], TokensOf(inner, i + 1), [Token(RParen, ")", e)], Lex(expr, e + 1));
    GroupTokens(inner, i);
  }

  lemma GroupTokens(inner: Derivation, i: nat)
    ensures TokensOf(Group(inner), i) ==
      [Token(LParen, "(", i)] + TokensOf(inner, i + 1) + [Token(RParen, ")", i + 1 + |Write(inner)|)]
  {
  }

  lemma GroupLaidOut(expr: string, i: nat, w: string)
    requires At(expr, i, "(" + w + ")")
    ensures var e := i + 1 + |w|;
      i < |expr| && expr[i] == '(' && At(expr, i + 1, w) && e < |expr| && expr[e] == ')' && Bounded(expr, e)
  {
    assert "(" + w + ")" == [] + ['('] + (w + ")") && w + ")" == w + [')'] + [];
    AtThree(expr, i, [], '(', w + ")");
    AtThree(expr, i + 1, w, ')', []);
  }

  lemma PrependThree(a: seq<Token>, b: seq<Token>, c: seq<Token>, rest: Result<seq<Token>, TagError>)
    ensures Prepend(a, Prepend(b, Prepend(c, rest))) == Prepend(a + b + c, rest)
  {
    PrependTwice(a, b, Prepend(c, rest));
    PrependTwice(a + b, c, rest);
  }

  lemma {:induction false} LexBinary(expr: string, i: nat, op: Op, left: Derivation, right: Derivation)
    requires ValidLeaves(left) && ValidLeaves(right)
    requires var d := Binary(op, left, right); At(expr, i, Write(d)) && Bounded(expr, i + |Write(d)|)
    ensures var d := Binary(op, left, right);
      Lex(expr, i) == Prepend(TokensOf(d, i), Lex(expr, i + |Write(d)|))
    decreases Binary(op, left, right), 0
  {
    hide Lex, At, Prepend, ValidLeaves, TokensOf;
    var l, r, c := Write(left), Write(right), SymbolChar(op);
    var j, e := i + |l| + 1, i + |Write(Binary(op, left, right))|;
    BinaryLaidOut(expr, i, l, c, r);
    LexWritten(expr, i, left);
    LexBlank(expr, j - 1);
    LexSymbol(expr, j);
    LexBlank(expr, j + 1);
    LexWritten(expr, j + 2, right);
    PrependThree(TokensOf(left, i), [Token(Operator(op), [c], j)], TokensOf(right, j + 2), Lex(expr, e));
    BinaryTokens(op, left, right, i);
  }

  lemma BinaryTokens(op: Op, left: Derivation, right: Derivation, i: nat)
    ensures var j := i + |Write(left)| + 1;
      TokensOf(Binary(op, left, right), i) ==
      TokensOf(left, i) + [Token(Operator(op), [SymbolChar(op)], j)] + TokensOf(right, j + 2)
  {
  }

  lemma BinaryLaidOut(expr: string, i: nat, l: string, c: char, r: string)
    requires At(expr, i, l + " " + [c] + " " + r)
    ensures var j := i + |l| + 1;
      At(expr, i, l) && At(expr, j + 2, r) && j + 1 < |expr| && expr[j - 1] == ' ' && expr[j] == c && expr[j + 1] == ' '
  {
    assert l + " " + [c] + " " + r == l + [' '] + ([c] + " " + r);
    AtThree(expr, i, l, ' ', [c] + " " + r);
    assert [c] + " " + r == [c] + [' '] + r;
    AtThree(expr, i + |l| + 1, [c], ' ', r);
    AtHead(expr, i + |l| + 1, [c]);
  }

  lemma {:induction false} SpelledByTokens(d: Derivation, i: nat, ts: seq<Token>, p: nat)
    requires At(ts, p, TokensOf(d, i))
    ensures d.Spelled(ts, p)
    decreases d, 1
  {
    hide At, Write;
    match d
    case Leaf(_) => AtHead(ts, p, TokensOf(d, i));
    case Negation(operand) =>
      AtParts(ts, p, [Token(Bang, "!", i)], TokensOf(operand, i + 1));
      AtHead(ts, p, [Token(Bang, "!", i)]);
      SpelledByTokens(operand, i + 1, ts, p + 1);
    case Group(inner) => GroupByTokens(inner, i, ts, p);
    case Binary(op, left, right) => BinaryByTokens(op, left, right, i, ts, p);
  }

  lemma {:induction false} GroupByTokens(inner: Derivation, i: nat, ts: seq<Token>, p: nat)
    requires At(ts, p, TokensOf(Group(inner), i))
    ensures Group(inner).Spelled(ts, p)
    decreases Group(inner), 0
  {
    GroupTokens(inner, i);
    hide At, Write, TokensOf;
    var open, close := [Token(LParen, "(", i)], [Token(RParen, ")", i + 1 + |Write(inner)|)];
    AtParts(ts, p, open + TokensOf(inner, i + 1), close);
    AtParts(ts, p, open, TokensOf(inner, i + 1));
    AtHead(ts, p, open);
    AtHead(ts, p + 1 + inner.Width(), close);
    SpelledByTokens(inner, i + 1, ts, p + 1);
  }

  lemma {:induction false} BinaryByTokens(op: Op, left: Derivation, right: Derivation, i: nat, ts: seq<Token>, p: nat)
    requires At(ts, p, TokensOf(Binary(op, left, right), i))
    ensures Binary(op, left, right).Spelled(ts, p)
    decreases Binary(op, left, right), 0
  {
    BinaryTokens(op, left, right, i);
    hide At, Write, TokensOf, SymbolChar;
    var j := i + |Write(left)| + 1;
    AtThree(ts, p, TokensOf(left, i), Token(Operator(op), [SymbolChar(op)], j), TokensOf(right, j + 2));
    SpelledByTokens(left, i, ts, p);
    SpelledByTokens(right, j + 2, ts, p + left.Width() + 1);
    BinarySpelled(op, left, right, ts, p);
  }

  lemma BinarySpelled(op: Op, left: Derivation, right: Derivation, ts: seq<Token>, p: nat)
    requires var q := p + left.Width();
      && left.Spelled(ts, p) && q < |ts| && ts[q].kind == Operator(op) && right.Spelled(ts, q + 1)
      && q + 1 + right.Width() <= |ts|
    ensures Binary(op, left, right).Spelled(ts, p)
  {
  }

  lemma {:induction false} WrittenTrimmed(d: Derivation)
    requires ValidLeaves(d)
    ensures Write(d) != "" && !IsSpace(Write(d)[0]) && !IsSpace(Write(d)[|Write(d)| - 1])
  {
    match d
    case Leaf(n) => assert IsNameChar(n[|n| - 1]);
    case Group(inner) =>
    case Negation(operand) => WrittenTrimmed(operand);
    case Binary(_, left, right) =>
      WrittenTrimmed(left);
      WrittenTrimmed(right);
  }

  /** Printing with minimal parentheses, then tokenizing and parsing, gives the tree
      back; names may contain the character that is also the difference operator. */
  lemma PrintParses(t: Tree)
    requires ValidNames(t)
    ensures Lex(Print(t), 0).Success? && ParseTokens(Lex(Print(t), 0).value) == Success(t)
  {
    var d := Minimal(t, 0);
    MinimalValid(t, 0);
    var expr := Write(d);
    LexWritten(expr, 0, d);
    var ts := TokensOf(d, 0);
    assert ts + [] == ts;
    SpelledByTokens(d, 0, ts, 0);
    assert Derives(d, ts) && d.ToTree() == t;
    ParseIffDerives(ts, t);
  }

  /** So matching a printed tree against tags evaluates the tree. */
  lemma MatchPrinted(t: Tree, tags: set<string>)
    requires ValidNames(t)
    ensures Match(Print(t), tags) == Success(Eval(t, tags))
  {
    PrintParses(t);
    MinimalValid(t, 0);
    WrittenTrimmed(Minimal(t, 0));
  }
}
