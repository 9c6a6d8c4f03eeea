/** What a tag expression says of the tags, stated on the texts themselves: names, negation,
    the four operators and how tightly they bind. */
module TagMeaning {
  import opened Names
  import opened TagDsl
  import opened TagGrammar
  import opened TagReading

  // --- Texts and the tokens they are cut into -----------------------------------------------

  /** Tokens without their positions. */
  function Flat(ts: seq<Token>): (r: seq<Token>)
    ensures |r| == |ts|
  {
    seq(|ts|, i requires 0 <= i < |ts| => ts[i].(pos := 0))
  }

  /** The whole text is these tokens, wherever they stand. */
  ghost predicate Cut(text: string, flat: seq<Token>) {
    exists ts :: Tiles(text, 0, ts, |text|) && Flat(ts) == flat
  }

  /** No name runs from one text into the next. */
  predicate Apart(a: string, b: string) {
    b == "" || !InName(b[0]) || (a != "" && !InName(a[|a| - 1]))
  }

  function Shift(ts: seq<Token>, n: nat): (r: seq<Token>)
    ensures |r| == |ts| && Flat(r) == Flat(ts)
  {
    seq(|ts|, i requires 0 <= i < |ts| => ts[i].(pos := ts[i].pos + n))
  }

  lemma StandsWithin(a: string, s: string, b: string, t: Token)
    requires Stands(s, t) && Apart(s, b)
    ensures Stands(a + s + b, t.(pos := t.pos + |a|))
  {
    hide InName, OpensName, Spelling;
    var x, e := a + s + b, t.pos + |t.val|;
    assert x[|a| + t.pos..|a| + e] == t.val by {
      assert x[|a|..|a| + |s|] == s;
      assert x[|a| + t.pos..|a| + e] == x[|a|..|a| + |s|][t.pos..e];
    }
    if t.kind == Ident && |a| + e < |x| {
      if e < |s| {
        assert x[|a| + e] == s[e];
      } else {
        assert s[t.pos..e][|t.val| - 1] == s[|s| - 1];
        assert x[|a| + e] == b[0];
      }
    }
  }

  lemma BlanksWithin(a: string, s: string, b: string, i: nat, j: nat)
    requires Blanks(s, i, j)
    ensures Blanks(a + s + b, |a| + i, |a| + j)
  {
    hide Gap;
    forall k | |a| + i <= k < |a| + j ensures Gap((a + s + b)[k]) {
      assert (a + s + b)[k] == s[k - |a|];
    }
  }

  lemma {:induction false} TilesWithin(a: string, s: string, b: string, i: nat, ts: seq<Token>, e: nat)
    requires Tiles(s, i, ts, e) && Apart(s, b)
    ensures Tiles(a + s + b, |a| + i, Shift(ts, |a|), |a| + e)
    decreases |ts|
  {
    hide Stands, Blanks, Apart;
    if ts == [] {
      BlanksWithin(a, s, b, i, e);
    } else {
      BlanksWithin(a, s, b, i, ts[0].pos);
      StandsWithin(a, s, b, ts[0]);
      TilesWithin(a, s, b, ts[0].pos + |ts[0].val|, ts[1..], e);
      assert Shift(ts, |a|)[1..] == Shift(ts[1..], |a|);
    }
  }

  lemma {:induction false} TilesJoin(x: string, i: nat, ts: seq<Token>, j: nat, us: seq<Token>, e: nat)
    requires Tiles(x, i, ts, j) && Tiles(x, j, us, e)
    ensures Tiles(x, i, ts + us, e)
    decreases |ts|
  {
    hide Stands;
    if ts == [] {
      assert ts + us == us;
    } else {
      TilesJoin(x, ts[0].pos + |ts[0].val|, ts[1..], j, us, e);
      assert (ts + us)[1..] == ts[1..] + us;
    }
  }

  lemma CutJoin(a: string, m: seq<Token>, b: string, n: seq<Token>)
    requires Cut(a, m) && Cut(b, n) && Apart(a, b)
    ensures Cut(a + b, m + n)
  {
    hide Tiles, Apart;
    var ts :| Tiles(a, 0, ts, |a|) && Flat(ts) == m;
    var us :| Tiles(b, 0, us, |b|) && Flat(us) == n;
    TilesWithin("", a, b, 0, ts, |a|);
    assert "" + a + b == a + b && Shift(ts, 0) == ts;
    assert Apart(b, "") by { LastApart(b); }
    TilesWithin(a, b, "", 0, us, |b|);
    assert a + b + "" == a + b;
    TilesJoin(a + b, 0, ts, |a|, Shift(us, |a|), |a + b|);
    assert Flat(ts + Shift(us, |a|)) == m + n;
  }

  lemma LastApart(b: string)
    ensures Apart(b, "")
  {
  }

  function Sign(kind: Kind): Token
    requires kind != Ident
  {
    Token(kind, Spelling(kind), 0)
  }

  /** A sign, with or without a blank on either side. */
  lemma SignCut(before: string, kind: Kind, after: string)
    requires kind != Ident && before in ["", " "] && after in ["", " "]
    ensures Cut(before + Spelling(kind) + after, [Sign(kind)])
  {
    OneSymbol(kind);
    hide Spelling;
    var text := before + Spelling(kind) + after;
    var t := Token(kind, Spelling(kind), |before|);
    assert text[|before|..|before| + 1] == Spelling(kind);
    assert Tiles(text, |before| + 1, [], |text|);
    assert [t][1..] == [];
    assert Tiles(text, 0, [t], |text|);
    assert Flat([t]) == [Sign(kind)];
  }

  lemma {:induction false} TrimmedTwice(s: string)
    ensures TrimSpace(TrimSpace(s)) == TrimSpace(s) && |TrimSpace(s)| <= |s|
    decreases |s|
  {
    hide IsSpace;
    if s != "" && IsSpace(s[0]) {
      TrimmedTwice(s[1..]);
    } else if s != "" && IsSpace(s[|s| - 1]) {
      TrimmedTwice(s[..|s| - 1]);
    }
  }

  /** What starts and ends with a character that is no space is trimmed, and nothing else. */
  lemma TrimmedEnds(s: string)
    requires s != ""
    ensures TrimSpace(s) == s <==> !IsSpace(s[0]) && !IsSpace(s[|s| - 1])
  {
    hide IsSpace;
    if IsSpace(s[0]) {
      TrimmedTwice(s[1..]);
    } else if IsSpace(s[|s| - 1]) {
      TrimmedTwice(s[..|s| - 1]);
    }
  }

  // --- Texts and derivations ------------------------------------------------------------------

  /** The text, which has no blanks around it, is written out from this derivation. */
  ghost predicate Reads(text: string, d: Derivation) {
    TrimSpace(text) == text && exists flat :: Cut(text, flat) && d.Spelled(flat, 0) && d.Width() == |flat|
  }

  /** From p on, w tokens of ts are those of us, n places further on, but for their positions. */
  predicate Alike(ts: seq<Token>, p: nat, us: seq<Token>, n: nat, w: nat) {
    && p + w <= |ts| && p + n + w <= |us|
    && forall j :: p <= j < p + w ==> ts[j].kind == us[j + n].kind && ts[j].val == us[j + n].val
  }

  lemma AlikePart(ts: seq<Token>, p: nat, us: seq<Token>, n: nat, w: nat, q: nat, v: nat)
    requires Alike(ts, p, us, n, w) && p <= q && q + v <= p + w
    ensures Alike(ts, q, us, n, v)
  {
  }

  lemma AlikeAt(ts: seq<Token>, p: nat, us: seq<Token>, n: nat, w: nat, j: nat)
    requires Alike(ts, p, us, n, w) && p <= j < p + w
    ensures j + n < |us| && j < |ts| && ts[j].kind == us[j + n].kind && ts[j].val == us[j + n].val
  {
  }

  /** A derivation is spelled by tokens that differ in their positions only. */
  lemma {:induction false} SpelledAlike(d: Derivation, ts: seq<Token>, p: nat, us: seq<Token>, n: nat)
    requires d.Spelled(ts, p) && Alike(ts, p, us, n, d.Width())
    ensures d.Spelled(us, p + n)
  {
    var w := d.Width();
    assert p + n + w <= |us|;
    hide Alike;
    match d
    case Leaf(_) => AlikeAt(ts, p, us, n, w, p);
    case Negation(operand) =>
      AlikeAt(ts, p, us, n, w, p);
      AlikePart(ts, p, us, n, w, p + 1, operand.Width());
      SpelledAlike(operand, ts, p + 1, us, n);
    case Group(inner) =>
      AlikeAt(ts, p, us, n, w, p);
      AlikeAt(ts, p, us, n, w, p + 1 + inner.Width());
      AlikePart(ts, p, us, n, w, p + 1, inner.Width());
      SpelledAlike(inner, ts, p + 1, us, n);
    case Binary(_, left, right) =>
      var q := p + left.Width();
      AlikeAt(ts, p, us, n, w, q);
      AlikePart(ts, p, us, n, w, p, left.Width());
      AlikePart(ts, p, us, n, w, q + 1, right.Width());
      SpelledAlike(left, ts, p, us, n);
      SpelledAlike(right, ts, q + 1, us, n);
  }

  lemma FlatSpelled(d: Derivation, ts: seq<Token>)
    requires d.Width() == |ts|
    ensures d.Spelled(ts, 0) <==> d.Spelled(Flat(ts), 0)
  {
    if d.Spelled(ts, 0) { SpelledAlike(d, ts, 0, Flat(ts), 0); }
    if d.Spelled(Flat(ts), 0) { SpelledAlike(d, Flat(ts), 0, ts, 0); }
  }

  /** What is spelled on its own is spelled between other tokens. */
  lemma SpelledWithin(d: Derivation, a: seq<Token>, ts: seq<Token>, b: seq<Token>)
    requires d.Spelled(ts, 0) && d.Width() == |ts|
    ensures d.Spelled(a + ts + b, |a|)
  {
    SpelledAlike(d, ts, 0, a + ts + b, |a|);
  }

  /** A text that matches is written out from a derivation whose tree gives the answer. */
  lemma Matched(e: string, tags: set<string>) returns (d: Derivation)
    requires Match(e, tags).Success?
    ensures Reads(TrimSpace(e), d) && d.Fits(0) && Match(e, tags) == Success(Eval(d.ToTree(), tags))
  {
    hide Tiles, Match, Eval;
    MatchIff(e, tags, Match(e, tags).value);
    var ts, x :| Says(e, ts, x) && Match(e, tags).value == Eval(x.ToTree(), tags);
    d := x;
    FlatSpelled(d, ts);
    assert Cut(TrimSpace(e), Flat(ts));
    TrimmedTwice(e);
  }

  lemma ReadMatches(text: string, d: Derivation, tags: set<string>)
    requires Reads(text, d) && d.Fits(0)
    ensures Match(text, tags) == Success(Eval(d.ToTree(), tags))
  {
    hide Tiles, Match, Eval;
    var flat :| Cut(text, flat) && d.Spelled(flat, 0) && d.Width() == |flat|;
    var ts :| Tiles(text, 0, ts, |text|) && Flat(ts) == flat;
    FlatSpelled(d, ts);
    assert Says(text, ts, d);
    MatchIff(text, tags, Eval(d.ToTree(), tags));
  }

  lemma CutNothing(flat: seq<Token>)
    requires Cut("", flat)
    ensures flat == []
  {
    var ts :| Tiles("", 0, ts, 0) && Flat(ts) == flat;
  }

  /** What is written out has no space at either end. */
  lemma ReadEnds(text: string, d: Derivation)
    requires Reads(text, d)
    ensures text != "" && !IsSpace(text[0]) && !IsSpace(text[|text| - 1])
  {
    hide IsSpace, Tiles, TrimSpace;
    var flat :| Cut(text, flat) && d.Spelled(flat, 0) && d.Width() == |flat|;
    if text == "" { CutNothing(flat); }
    TrimmedEnds(text);
  }

  /** A sign keeps names apart on the side where it stands. */
  lemma SignApart(text: string, c: char)
    requires !InName(c)
    ensures Apart([c], text) && Apart(text, [c])
  {
  }

  lemma BracketCuts()
    ensures Cut("(", [Sign(LParen)]) && Cut(")", [Sign(RParen)]) && !InName('(') && !InName(')')
  {
    hide Cut;
    SignCut("", LParen, "");
    assert "" + Spelling(LParen) + "" == "(";
    SignCut("", RParen, "");
    assert "" + Spelling(RParen) + "" == ")";
  }

  lemma BracketsCut(text: string, flat: seq<Token>)
    requires Cut(text, flat)
    ensures Cut("(" + text + ")", [Sign(LParen)] + flat + [Sign(RParen)])
  {
    BracketCuts();
    hide Cut, Apart, InName, Spelling;
    SignApart(text, '(');
    CutJoin("(", [Sign(LParen)], text, flat);
    SignApart("(" + text, ')');
    CutJoin("(" + text, [Sign(LParen)] + flat, ")", [Sign(RParen)]);
  }

  lemma GroupReads(text: string, d: Derivation)
    requires Reads(text, d)
    ensures Reads("(" + text + ")", Group(d))
  {
    hide Cut, TrimSpace;
    var flat :| Cut(text, flat) && d.Spelled(flat, 0) && d.Width() == |flat|;
    BracketsCut(text, flat);
    SpelledWithin(d, [Sign(LParen)], flat, [Sign(RParen)]);
    TrimmedEnds("(" + text + ")");
    assert Group(d).Spelled([Sign(LParen)] + flat + [Sign(RParen)], 0);
  }

  lemma NegationReads(text: string, d: Derivation)
    requires Reads(text, d)
    ensures Reads("!" + text, Negation(d))
  {
    hide Cut, TrimSpace;
    var flat :| Cut(text, flat) && d.Spelled(flat, 0) && d.Width() == |flat|;
    SignCut("", Bang, "");
    assert "" + Spelling(Bang) + "" == "!";
    SignApart(text, '!');
    CutJoin("!", [Sign(Bang)], text, flat);
    SpelledLast(d, [Sign(Bang)], flat);
    ReadEnds(text, d);
    TrimmedEnds("!" + text);
    assert Negation(d).Spelled([Sign(Bang)] + flat, 0);
  }

  lemma OperatorCut(l: string, m: seq<Token>, op: Op, r: string, n: seq<Token>)
    requires Cut(l, m) && Cut(r, n)
    ensures Cut(l + " " + Spelling(Operator(op)) + " " + r, m + [Sign(Operator(op))] + n)
  {
    hide Cut, Spelling, Sign, Apart;
    var s := Spelling(Operator(op));
    var middle := " " + s + " ";
    SignCut(" ", Operator(op), " ");
    BlankApart(l, s);
    CutJoin(l, m, middle, [Sign(Operator(op))]);
    BlankBefore(l + middle, r);
    CutJoin(l + middle, m + [Sign(Operator(op))], r, n);
    assert l + " " + s + " " + r == l + middle + r;
  }

  lemma BlankApart(l: string, s: string)
    ensures Apart(l, " " + s + " ") && (l + (" " + s + " "))[|l| + |s| + 1] == ' '
  {
  }

  lemma BlankBefore(a: string, r: string)
    requires a != "" && a[|a| - 1] == ' '
    ensures Apart(a, r)
  {
  }

  lemma BinaryReads(l: string, left: Derivation, op: Op, r: string, right: Derivation)
    requires Reads(l, left) && Reads(r, right)
    ensures Reads(l + " " + Spelling(Operator(op)) + " " + r, Binary(op, left, right))
  {
    hide Cut, TrimSpace, Spelling, IsSpace;
    var m :| Cut(l, m) && left.Spelled(m, 0) && left.Width() == |m|;
    var n :| Cut(r, n) && right.Spelled(n, 0) && right.Width() == |n|;
    OperatorCut(l, m, op, r, n);
    BinarySpelled(left, m, op, right, n);
    ReadEnds(l, left);
    ReadEnds(r, right);
    var text := l + " " + Spelling(Operator(op)) + " " + r;
    assert text[0] == l[0] && text[|text| - 1] == r[|r| - 1];
    TrimmedEnds(text);
  }

  lemma BinarySpelled(left: Derivation, m: seq<Token>, op: Op, right: Derivation, n: seq<Token>)
    requires left.Spelled(m, 0) && left.Width() == |m| && right.Spelled(n, 0) && right.Width() == |n|
    ensures Binary(op, left, right).Spelled(m + [Sign(Operator(op))] + n, 0)
  {
    var sign := Sign(Operator(op));
    var all := m + [sign] + n;
    SpelledFirst(left, m, [sign] + n);
    SpelledLast(right, m + [sign], n);
    Associate(m, [sign], n);
    assert all[|m|] == sign;
    hide Spelling, Sign;
    SpelledAround(all, left, op, right);
  }

  lemma SpelledFirst(d: Derivation, ts: seq<Token>, b: seq<Token>)
    requires d.Spelled(ts, 0) && d.Width() == |ts|
    ensures d.Spelled(ts + b, 0)
  {
    SpelledWithin(d, [], ts, b);
    assert [] + ts + b == ts + b;
  }

  lemma SpelledLast(d: Derivation, a: seq<Token>, ts: seq<Token>)
    requires d.Spelled(ts, 0) && d.Width() == |ts|
    ensures d.Spelled(a + ts, |a|)
  {
    SpelledWithin(d, a, ts, []);
    assert a + ts + [] == a + ts;
  }

  lemma SpelledAround(all: seq<Token>, left: Derivation, op: Op, right: Derivation)
    requires |all| == left.Width() + 1 + right.Width() && left.Spelled(all, 0) && right.Spelled(all, left.Width() + 1)
    requires all[left.Width()].kind == Operator(op)
    ensures Binary(op, left, right).Spelled(all, 0)
  {
  }

  lemma NameReads(n: string)
    requires NameText(n)
    ensures Reads(n, Leaf(n))
  {
    var t := Token(Ident, n, 0);
    assert n[0..|n|] == n && [t][1..] == [];
    assert Stands(n, t);
    assert Tiles(n, |n|, [], |n|);
    assert Tiles(n, 0, [t], |n|);
    assert Flat([t]) == [t];
    assert InName(n[0]) && InName(n[|n| - 1]);
    TrimmedEnds(n);
  }

  // --- The meaning of the texts -----------------------------------------------------------------

  /** A tag name: a small letter, then small letters, digits and hyphens. */
  predicate NameText(n: string) {
    n != "" && OpensName(n[0]) && forall k :: 0 <= k < |n| ==> InName(n[k])
  }

  /** What stands on either side of an operator: a name, an expression in parentheses, or a
      negated operand. */
  ghost predicate Operand(x: string, tags: set<string>)
    decreases |x|
  {
    || NameText(x)
    || (exists e :: Match(e, tags).Success? && x == "(" + TrimSpace(e) + ")")
    || (x != "" && x[0] == '!' && Operand(x[1..], tags))
  }

  const OPERATORS := "-|^&"

  /** What an operator makes of its operands' answers. */
  predicate Joined(c: char, l: bool, r: bool)
    requires c in OPERATORS
  {
    if c == '&' then l && r
    else if c == '|' then l || r
    else if c == '^' then l != r
    else l && !r
  }

  /** "-" binds loosest, then "|", then "^"; "&" binds tightest. */
  predicate Tighter(c: char, d: char)
    requires c in OPERATORS && d in OPERATORS
  {
    || (c == '&' && d != '&')
    || (c == '^' && d in "-|")
    || (c == '|' && d == '-')
  }

  function OpOf(c: char): Op
    requires c in OPERATORS
  {
    if c == '&' then And else if c == '|' then Or else if c == '^' then Xor else Diff
  }

  lemma OpMeans(c: char, l: Tree, r: Tree, tags: set<string>)
    requires c in OPERATORS
    ensures Spelling(Operator(OpOf(c))) == [c]
    ensures Eval(Bin(OpOf(c), l, r), tags) == Joined(c, Eval(l, tags), Eval(r, tags))
  {
  }

  lemma OpTighter(c: char, d: char)
    requires c in OPERATORS && d in OPERATORS
    ensures Tighter(d, c) <==> Level(OpOf(d)) > Level(OpOf(c))
  {
  }

  lemma {:induction false} OperandReads(x: string, tags: set<string>) returns (d: Derivation)
    requires Operand(x, tags)
    ensures Reads(x, d) && d.Fits(UNARY) && Match(x, tags) == Success(Eval(d.ToTree(), tags))
    decreases |x|
  {
    hide Reads, Match, Eval, TrimSpace;
    if NameText(x) {
      d := Leaf(x);
      NameReads(x);
    } else if x[0] == '!' && Operand(x[1..], tags) {
      var inner := OperandReads(x[1..], tags);
      d := Negation(inner);
      NegationReads(x[1..], inner);
      assert "!" + x[1..] == x;
    } else {
      var e :| Match(e, tags).Success? && x == "(" + TrimSpace(e) + ")";
      var inner := Matched(e, tags);
      d := Group(inner);
      GroupReads(TrimSpace(e), inner);
    }
    ReadMatches(x, d, tags);
  }

  /** A name matches the tags it is among. */
  lemma NameMeans(n: string, tags: set<string>)
    requires NameText(n)
    ensures Match(n, tags) == Success(n in tags)
  {
    hide Reads, Match, TrimSpace, NameText;
    NameReads(n);
    ReadMatches(n, Leaf(n), tags);
  }

  /** Parentheses change nothing. */
  lemma GroupMeans(e: string, tags: set<string>)
    requires Match(e, tags).Success?
    ensures Match("(" + TrimSpace(e) + ")", tags) == Match(e, tags)
  {
    hide Reads, Match, TrimSpace;
    var d := Matched(e, tags);
    GroupReads(TrimSpace(e), d);
    ReadMatches("(" + TrimSpace(e) + ")", Group(d), tags);
  }

  /** "!" turns its operand's answer round. */
  lemma NegationMeans(x: string, tags: set<string>)
    requires Operand(x, tags)
    ensures Match(x, tags).Success? && Match("!" + x, tags) == Success(!Match(x, tags).value)
  {
    hide Reads, Match, Operand;
    var d := OperandReads(x, tags);
    NegationReads(x, d);
    ReadMatches("!" + x, Negation(d), tags);
  }

  /** An operator joins the answers of the operands on its two sides. */
  lemma OperatorMeans(x: string, c: char, y: string, tags: set<string>)
    requires Operand(x, tags) && Operand(y, tags) && c in OPERATORS
    ensures Match(x, tags).Success? && Match(y, tags).Success?
    ensures Match(x + " " + [c] + " " + y, tags) == Success(Joined(c, Match(x, tags).value, Match(y, tags).value))
  {
    hide Reads, Match, Operand, Eval, Joined, Spelling, OPERATORS, OpOf;
    var l := OperandReads(x, tags);
    var r := OperandReads(y, tags);
    OpMeans(c, l.ToTree(), r.ToTree(), tags);
    BinaryReads(x, l, OpOf(c), y, r);
    FitsLooser(l, UNARY, Level(OpOf(c)));
    FitsLooser(r, UNARY, Level(OpOf(c)) + 1);
    ReadMatches(x + " " + [c] + " " + y, Binary(OpOf(c), l, r), tags);
  }

  /** Of two operators the tighter one takes its operands first; alike, the left one does. */
  lemma TwoOperators(x: string, c: char, y: string, d: char, z: string, tags: set<string>)
    requires Operand(x, tags) && Operand(y, tags) && Operand(z, tags) && c in OPERATORS && d in OPERATORS
    ensures Match(x, tags).Success? && Match(y, tags).Success? && Match(z, tags).Success?
    ensures Match(x + " " + [c] + " " + y + " " + [d] + " " + z, tags) ==
      var a, b, e := Match(x, tags).value, Match(y, tags).value, Match(z, tags).value;
      Success(if Tighter(d, c) then Joined(c, a, Joined(d, b, e)) else Joined(d, Joined(c, a, b), e))
  {
    hide Reads, Match, Operand, Eval, Joined, Spelling, OPERATORS, OpOf, Tighter;
    var l := OperandReads(x, tags);
    var m := OperandReads(y, tags);
    var r := OperandReads(z, tags);
    var first, second := OpOf(c), OpOf(d);
    OpTighter(c, d);
    OpMeans(c, l.ToTree(), m.ToTree(), tags);
    OpMeans(d, m.ToTree(), r.ToTree(), tags);
    var text := x + " " + [c] + " " + y + " " + [d] + " " + z;
    if Tighter(d, c) {
      var right := Binary(second, m, r);
      OpMeans(c, l.ToTree(), right.ToTree(), tags);
      BinaryReads(y, m, second, z, r);
      BinaryReads(x, l, first, y + " " + [d] + " " + z, right);
      assert text == x + " " + [c] + " " + (y + " " + [d] + " " + z);
      FitsAround(l, first, right);
      FitsAround(m, second, r);
      ReadMatches(text, Binary(first, l, right), tags);
    } else {
      var left := Binary(first, l, m);
      OpMeans(d, left.ToTree(), r.ToTree(), tags);
      BinaryReads(x, l, first, y, m);
      BinaryReads(x + " " + [c] + " " + y, left, second, z, r);
      FitsAround(l, first, m);
      FitsAround(left, second, r);
      ReadMatches(text, Binary(second, left, r), tags);
    }
  }

  /** Operands that bind tightly enough fit around an operator. */
  lemma FitsAround(left: Derivation, op: Op, right: Derivation)
    requires left.Fits(UNARY) || (left.Binary? && left.Fits(0) && Level(left.op) >= Level(op))
    requires right.Fits(UNARY) || (right.Binary? && right.Fits(0) && Level(right.op) > Level(op))
    ensures Binary(op, left, right).Fits(0)
  {
    if left.Fits(UNARY) { FitsLooser(left, UNARY, Level(op)); }
    if right.Fits(UNARY) { FitsLooser(right, UNARY, Level(op) + 1); }
  }
}
