/** The five-level left-associative grammar of tag expressions, written down apart from
    the parser, and what the parser and the printer have to do with it. */
module TagGrammar {
  import opened Names
  import opened TagDsl

  /** A derivation: like a tree, but keeping the parentheses that were written. */
  datatype Derivation =
    | Leaf(name: string)
    | Group(inner: Derivation)
    | Negation(operand: Derivation)
    | Binary(op: Op, left: Derivation, right: Derivation)
  {
    /** How many tokens the derivation spans. */
    function Width(): (w: nat)
      ensures w > 0
    {
      match this
      case Leaf(_) => 1
      case Group(inner) => inner.Width() + 2
      case Negation(operand) => operand.Width() + 1
      case Binary(_, left, right) => left.Width() + 1 + right.Width()
    }

    function ToTree(): Tree {
      match this
      case Leaf(n) => Name(n)
      case Group(inner) => inner.ToTree()
      case Negation(operand) => Not(operand.ToTree())
      case Binary(op, left, right) => Bin(op, left.ToTree(), right.ToTree())
    }

    /** The grammar: a chain's left operand may be a chain of the same operator, its
        right operand binds strictly tighter, and parentheses start over. */
    predicate Fits(level: nat) {
      match this
      case Leaf(_) => true
      case Group(inner) => inner.Fits(0)
      case Negation(operand) => operand.Fits(UNARY)
      case Binary(op, left, right) => level <= Level(op) && left.Fits(Level(op)) && right.Fits(Level(op) + 1)
    }

    /** The tokens of ts from p on are exactly this derivation, written out. */
    predicate Spelled(ts: seq<Token>, p: nat) {
      p + Width() <= |ts| &&
      match this
      case Leaf(n) => ts[p].kind == Ident && ts[p].val == n
      case Group(inner) =>
        ts[p].kind == LParen && inner.Spelled(ts, p + 1) && ts[p + 1 + inner.Width()].kind == RParen
      case Negation(operand) => ts[p].kind == Bang && operand.Spelled(ts, p + 1)
      case Binary(op, left, right) =>
        left.Spelled(ts, p) && ts[p + left.Width()].kind == Operator(op) && right.Spelled(ts, p + left.Width() + 1)
    }
  }

  /** d derives the whole token list. */
  ghost predicate Derives(d: Derivation, ts: seq<Token>) {
    d.Fits(0) && d.Spelled(ts, 0) && d.Width() == |ts|
  }

  // --- What the parser accepts, the grammar derives -----------------------------------

  lemma {:induction false} DescendSound(ts: seq<Token>, level: nat, p: nat) returns (d: Derivation)
    requires level <= UNARY && p <= |ts| && Descend(ts, level, p).Parsed?
    ensures d.Fits(level) && d.Spelled(ts, p)
    ensures Descend(ts, level, p) == Parsed(d.ToTree(), p + d.Width())
    decreases |ts| - p, UNARY - level, 1
  {
    if level < UNARY {
      var first := DescendSound(ts, level + 1, p);
      FitsLooser(first, level + 1, level);
      d := ChainSound(ts, level, first, p);
    } else {
      if ts[p].kind == Bang {
        var operand := DescendSound(ts, UNARY, p + 1);
        d := Negation(operand);
      } else if ts[p].kind == LParen {
        var inner := DescendSound(ts, 0, p + 1);
        d := Group(inner);
      } else {
        d := Leaf(ts[p].val);
      }
    }
  }

  lemma {:induction false} FitsLooser(d: Derivation, level: nat, looser: nat)
    requires d.Fits(level) && looser <= level
    ensures d.Fits(looser)
  {
  }

  /** A chain that stops, and one that goes on. */
  lemma ChainStops(ts: seq<Token>, level: nat, left: Tree, q: nat)
    requires level < UNARY && q <= |ts| && (q == |ts| || ts[q].kind != Operator(OpAt(level)))
    ensures Chain(ts, level, left, q) == Parsed(left, q)
  {
  }

  lemma ChainGoes(ts: seq<Token>, level: nat, left: Tree, q: nat)
    requires level < UNARY && q < |ts| && ts[q].kind == Operator(OpAt(level))
    ensures Descend(ts, level + 1, q + 1).Refused? ==> Chain(ts, level, left, q) == Descend(ts, level + 1, q + 1)
    ensures Descend(ts, level + 1, q + 1).Parsed? ==>
      Chain(ts, level, left, q) ==
      Chain(ts, level, Bin(OpAt(level), left, Descend(ts, level + 1, q + 1).tree), Descend(ts, level + 1, q + 1).next)
  {
  }

  lemma DescendChain(ts: seq<Token>, level: nat, p: nat)
    requires level < UNARY && p <= |ts|
    ensures Descend(ts, level + 1, p).Refused? ==> Descend(ts, level, p) == Descend(ts, level + 1, p)
    ensures Descend(ts, level + 1, p).Parsed? ==>
      Descend(ts, level, p) == Chain(ts, level, Descend(ts, level + 1, p).tree, Descend(ts, level + 1, p).next)
  {
  }

  /** One more operand on the right of a chain. */
  lemma ChainLonger(ts: seq<Token>, level: nat, left: Derivation, right: Derivation, p: nat)
    requires level < UNARY && left.Fits(level) && left.Spelled(ts, p) && right.Fits(level + 1)
    requires var q := p + left.Width(); q < |ts| && ts[q].kind == Operator(OpAt(level)) && right.Spelled(ts, q + 1)
    ensures var d := Binary(OpAt(level), left, right);
      && d.Fits(level) && d.Spelled(ts, p) && d.ToTree() == Bin(OpAt(level), left.ToTree(), right.ToTree())
      && p + d.Width() == p + left.Width() + 1 + right.Width()
  {
  }

  lemma {:induction false} ChainSound(ts: seq<Token>, level: nat, left: Derivation, p: nat) returns (d: Derivation)
    requires level < UNARY && left.Fits(level) && left.Spelled(ts, p)
    requires p + left.Width() <= |ts| && Chain(ts, level, left.ToTree(), p + left.Width()).Parsed?
    ensures d.Fits(level) && d.Spelled(ts, p)
    ensures Chain(ts, level, left.ToTree(), p + left.Width()) == Parsed(d.ToTree(), p + d.Width())
    decreases |ts| - p - left.Width(), UNARY - level, 0
  {
    hide Chain, Descend;
    var q := p + left.Width();
    if q == |ts| || ts[q].kind != Operator(OpAt(level)) {
      ChainStops(ts, level, left.ToTree(), q);
      d := left;
    } else {
      ChainGoes(ts, level, left.ToTree(), q);
      var right := DescendSound(ts, level + 1, q + 1);
      ChainLonger(ts, level, left, right, p);
      d := ChainSound(ts, level, Binary(OpAt(level), left, right), p);
    }
  }

  // --- What the grammar derives, the parser accepts -----------------------------------

  /** No operator of this level or tighter continues at q. */
  predicate Ends(ts: seq<Token>, q: nat, level: nat) {
    q >= |ts| || !ts[q].kind.Operator? || Level(ts[q].kind.op) < level
  }

  lemma OnlyOp(op: Op, level: nat)
    requires level < UNARY && Level(op) == level
    ensures op == OpAt(level)
  {
  }

  /** A derivation at a chain level is read as the start of that chain. */
  lemma {:induction false} ChainComplete(ts: seq<Token>, level: nat, d: Derivation, p: nat)
    requires level < UNARY && d.Fits(level) && d.Spelled(ts, p) && Ends(ts, p + d.Width(), level + 1)
    ensures Descend(ts, level, p) == Chain(ts, level, d.ToTree(), p + d.Width())
    decreases d, UNARY - level, 0
  {
    hide Chain, Descend;
    if d.Binary? && Level(d.op) == level {
      assert d.op == OpAt(level) by { OnlyOp(d.op, level); }
      var q := p + d.left.Width();
      ChainComplete(ts, level, d.left, p);
      DescendComplete(ts, level + 1, d.right, q + 1);
      ChainGoes(ts, level, d.left.ToTree(), q);
    } else {
      DescendComplete(ts, level + 1, d, p);
      DescendChain(ts, level, p);
    }
  }

  lemma {:induction false} DescendComplete(ts: seq<Token>, level: nat, d: Derivation, p: nat)
    requires level <= UNARY && d.Fits(level) && d.Spelled(ts, p) && Ends(ts, p + d.Width(), level)
    ensures Descend(ts, level, p) == Parsed(d.ToTree(), p + d.Width())
    decreases d, UNARY - level, 1
  {
    if level < UNARY {
      ChainComplete(ts, level, d, p);
      ChainStops(ts, level, d.ToTree(), p + d.Width());
    } else {
      match d
      case Leaf(_) =>
      case Group(inner) => DescendComplete(ts, 0, inner, p + 1);
      case Negation(operand) => DescendComplete(ts, UNARY, operand, p + 1);
    }
  }

  /** The parser accepts a token list with a tree exactly when the grammar derives the
      list with that tree. */
  lemma ParseIffDerives(ts: seq<Token>, t: Tree)
    ensures ParseTokens(ts) == Success(t) <==> exists d :: Derives(d, ts) && d.ToTree() == t
  {
    if ParseTokens(ts) == Success(t) {
      var d := DescendSound(ts, 0, 0);
      assert Derives(d, ts) && d.ToTree() == t;
    }
    forall d | Derives(d, ts) ensures ParseTokens(ts) == Success(d.ToTree()) {
      DescendComplete(ts, 0, d, 0);
    }
  }

  /** The grammar is unambiguous: one token list derives at most one tree. */
  lemma TreeUnique(ts: seq<Token>, c: Derivation, d: Derivation)
    requires Derives(c, ts) && Derives(d, ts)
    ensures c.ToTree() == d.ToTree()
  {
    DescendComplete(ts, 0, c, 0);
    DescendComplete(ts, 0, d, 0);
  }

  // --- Leaves and operators, in order ---------------------------------------------------

  datatype Symbol = NameSymbol(name: string) | OpSymbol(op: Op) | NotSymbol

  function InOrder(t: Tree): seq<Symbol> {
    match t
    case Name(n) => [NameSymbol(n)]
    case Not(o) => [NotSymbol] + InOrder(o)
    case Bin(op, l, r) => InOrder(l) + [OpSymbol(op)] + InOrder(r)
  }

  function SymbolOf(t: Token): seq<Symbol> {
    match t.kind
    case Ident => [NameSymbol(t.val)]
    case Operator(op) => [OpSymbol(op)]
    case Bang => [NotSymbol]
    case LParen => []
    case RParen => []
  }

  /** The non-parenthesis tokens from p up to q. */
  function Symbols(ts: seq<Token>, p: nat, q: nat): seq<Symbol>
    requires p <= q <= |ts|
    decreases q - p
  {
    if p == q then [] else SymbolOf(ts[p]) + Symbols(ts, p + 1, q)
  }

  lemma {:induction false} SymbolsSplit(ts: seq<Token>, p: nat, q: nat, r: nat)
    requires p <= q <= r <= |ts|
    ensures Symbols(ts, p, r) == Symbols(ts, p, q) + Symbols(ts, q, r)
    decreases q - p
  {
    hide SymbolOf;
    if p < q {
      SymbolsSplit(ts, p + 1, q, r);
      assert SymbolOf(ts[p]) + (Symbols(ts, p + 1, q) + Symbols(ts, q, r)) ==
             SymbolOf(ts[p]) + Symbols(ts, p + 1, q) + Symbols(ts, q, r);
    }
  }

  lemma SymbolsOne(ts: seq<Token>, p: nat)
    requires p < |ts|
    ensures Symbols(ts, p, p + 1) == SymbolOf(ts[p])
  {
    assert Symbols(ts, p + 1, p + 1) == [];
  }

  /** A derivation's tree lists the spelled tokens in order, parentheses dropped. */
  lemma {:induction false} SpelledInOrder(ts: seq<Token>, p: nat, d: Derivation)
    requires d.Spelled(ts, p)
    ensures Symbols(ts, p, p + d.Width()) == InOrder(d.ToTree())
    decreases d
  {
    hide Symbols;
    match d
    case Leaf(_) => SymbolsOne(ts, p);
    case Negation(operand) =>
      SpelledInOrder(ts, p + 1, operand);
      SymbolsHead(ts, p, p + d.Width());
    case Group(inner) =>
      SpelledInOrder(ts, p + 1, inner);
      SymbolsInside(ts, p, p + 1 + inner.Width());
    case Binary(op, left, right) =>
      var mid := p + left.Width();
      SpelledInOrder(ts, p, left);
      SpelledInOrder(ts, mid + 1, right);
      BinaryInOrder(ts, p, op, left, right);
  }

  lemma BinaryInOrder(ts: seq<Token>, p: nat, op: Op, left: Derivation, right: Derivation)
    requires Binary(op, left, right).Spelled(ts, p)
    requires var mid := p + left.Width();
      && Symbols(ts, p, mid) == InOrder(left.ToTree())
      && Symbols(ts, mid + 1, mid + 1 + right.Width()) == InOrder(right.ToTree())
    ensures Symbols(ts, p, p + Binary(op, left, right).Width()) == InOrder(Binary(op, left, right).ToTree())
  {
    hide Symbols;
    var mid := p + left.Width();
    SymbolsAround(ts, p, mid, mid + 1 + right.Width());
  }

  lemma SymbolsInside(ts: seq<Token>, p: nat, close: nat)
    requires p < close < |ts| && ts[p].kind == LParen && ts[close].kind == RParen
    ensures Symbols(ts, p, close + 1) == Symbols(ts, p + 1, close)
  {
    hide Symbols;
    SymbolsHead(ts, p, close + 1);
    SymbolsOne(ts, close);
    SymbolsSplit(ts, p + 1, close, close + 1);
  }

  lemma SymbolsHead(ts: seq<Token>, p: nat, q: nat)
    requires p < q <= |ts|
    ensures Symbols(ts, p, q) == SymbolOf(ts[p]) + Symbols(ts, p + 1, q)
  {
  }

  lemma SymbolsAround(ts: seq<Token>, p: nat, mid: nat, end: nat)
    requires p <= mid < end <= |ts|
    ensures Symbols(ts, p, end) == Symbols(ts, p, mid) + SymbolOf(ts[mid]) + Symbols(ts, mid + 1, end)
  {
    SymbolsSplit(ts, p, mid + 1, end);
    SymbolsSplit(ts, p, mid, mid + 1);
    SymbolsOne(ts, mid);
  }

  /** An accepted token list is its tree's leaves and operators with parentheses added. */
  lemma AcceptedInOrder(ts: seq<Token>)
    requires ParseTokens(ts).Success?
    ensures InOrder(ParseTokens(ts).value) == Symbols(ts, 0, |ts|)
  {
    hide Symbols, InOrder, Chain;
    var d := DescendSound(ts, 0, 0);
    SpelledInOrder(ts, 0, d);
  }
}
