/** What a tag expression's text says: the tokens it is cut into, told apart from the tokenizer,
    and the answer the whole expression gives. */
module TagReading {
  import opened Names
  import opened TagDsl
  import opened TagGrammar

  // --- Characters, written out ---------------------------------------------------------------

  predicate Gap(c: char) {
    c in " \t\n\r"
  }

  predicate OpensName(c: char) {
    'a' <= c <= 'z'
  }

  predicate InName(c: char) {
    'a' <= c <= 'z' || '0' <= c <= '9' || c == '-'
  }

  /** How a token that is no name is written. */
  function Spelling(kind: Kind): string
    requires kind != Ident
  {
    match kind
    case Bang => "!"
    case LParen => "("
    case RParen => ")"
    case Operator(Diff) => "-"
    case Operator(Or) => "|"
    case Operator(Xor) => "^"
    case Operator(And) => "&"
  }

  lemma CharsAgree(c: char)
    ensures Gap(c) <==> IsBlank(c)
    ensures OpensName(c) <==> IsLower(c)
    ensures InName(c) <==> IsNameChar(c)
  {
  }

  lemma IllegalAgrees(c: char)
    ensures Illegal(c) <==> !IsBlank(c) && SymbolKind(c).None? && !IsLower(c)
  {
    CharsAgree(c);
    hide Gap, OpensName, InName;
    var symbols := "&|^-!()";
    assert SymbolKind(c).Some? <==> c in symbols;
  }

  lemma SymbolsAgree(c: char, kind: Kind)
    requires kind != Ident
    ensures SymbolKind(c) == Some(kind) <==> Spelling(kind) == [c]
  {
    var s := Spelling(kind);
    assert s == [c] ==> s[0] == c;
    if s[0] == c { assert s == [c]; }
  }

  // --- Tokens in the text -----------------------------------------------------------------------

  predicate Blanks(expr: string, i: nat, j: nat) {
    i <= j <= |expr| && forall k :: i <= k < j ==> Gap(expr[k])
  }

  /** A token stands in the text where it says: a symbol, or a name that runs as far as it can. */
  predicate Stands(expr: string, t: Token) {
    && t.pos + |t.val| <= |expr| && expr[t.pos..t.pos + |t.val|] == t.val && t.val != ""
    && if t.kind == Ident then
      && OpensName(t.val[0]) && (forall k :: 0 <= k < |t.val| ==> InName(t.val[k]))
      && (t.pos + |t.val| < |expr| ==> !InName(expr[t.pos + |t.val|]))
    else t.val == Spelling(t.kind)
  }

  /** From i to e the text is these tokens, in order, with nothing but blanks between them. */
  predicate Tiles(expr: string, i: nat, ts: seq<Token>, e: nat)
    decreases |ts|
  {
    if ts == [] then Blanks(expr, i, e)
    else Blanks(expr, i, ts[0].pos) && Stands(expr, ts[0]) && Tiles(expr, ts[0].pos + |ts[0].val|, ts[1..], e)
  }

  /** No token begins with it and it is no blank. */
  predicate Illegal(c: char) {
    !Gap(c) && c !in "&|^-!()" && !OpensName(c)
  }

  lemma {:induction false} BlanksSkipped(expr: string, i: nat, j: nat)
    requires Blanks(expr, i, j)
    ensures Lex(expr, i) == Lex(expr, j)
    decreases j - i
  {
    hide Gap;
    if i < j {
      CharsAgree(expr[i]);
      BlanksSkipped(expr, i + 1, j);
    }
  }

  lemma {:induction false} NameRuns(expr: string, j: nat, e: nat)
    requires j <= e <= |expr| && (forall k :: j <= k < e ==> IsNameChar(expr[k]))
    requires (e < |expr| ==> !IsNameChar(expr[e]))
    ensures NameEnd(expr, j) == e
    decreases e - j
  {
    if j < e { NameRuns(expr, j + 1, e); }
  }

  lemma StandingLexed(expr: string, t: Token)
    requires Stands(expr, t)
    ensures Lex(expr, t.pos) == Prepend([t], Lex(expr, t.pos + |t.val|))
  {
    hide Lex, Prepend, Stands;
    if t.kind == Ident {
      NameReached(expr, t);
      NameLexed(expr, t.pos, t.pos + |t.val|);
    } else {
      SymbolReached(expr, t);
      SymbolLexed(expr, t.pos);
    }
  }

  lemma NameReached(expr: string, t: Token)
    requires Stands(expr, t) && t.kind == Ident
    ensures var e := t.pos + |t.val|;
      t.pos < e <= |expr| && IsLower(expr[t.pos]) && expr[t.pos..e] == t.val && NameEnd(expr, t.pos + 1) == e
  {
    var e := t.pos + |t.val|;
    assert t.val[0] == expr[t.pos];
    CharsAgree(expr[t.pos]);
    AllInName(expr, t.pos, t.val);
    if e < |expr| { CharsAgree(expr[e]); }
    hide Gap, OpensName, InName, Spelling, IsLower, IsNameChar, NameEnd;
    NameRuns(expr, t.pos + 1, e);
  }

  lemma AllInName(expr: string, i: nat, n: string)
    requires i + |n| <= |expr| && expr[i..i + |n|] == n && forall k :: 0 <= k < |n| ==> InName(n[k])
    ensures forall k :: i <= k < i + |n| ==> IsNameChar(expr[k])
  {
    hide InName, IsNameChar;
    forall k | i <= k < i + |n| ensures IsNameChar(expr[k]) {
      assert n[k - i] == expr[k] && InName(n[k - i]);
      CharsAgree(expr[k]);
    }
  }

  lemma SymbolReached(expr: string, t: Token)
    requires Stands(expr, t) && t.kind != Ident
    ensures t.pos < |expr| && t.val == [expr[t.pos]] && SymbolKind(expr[t.pos]) == Some(t.kind)
  {
    OneSymbol(t.kind);
    hide Spelling, SymbolKind;
    assert t.val[0] == expr[t.pos];
    SymbolsAgree(expr[t.pos], t.kind);
  }

  lemma OneSymbol(kind: Kind)
    requires kind != Ident
    ensures |Spelling(kind)| == 1
  {
  }

  lemma NameLexed(expr: string, i: nat, e: nat)
    requires i < |expr| && IsLower(expr[i]) && NameEnd(expr, i + 1) == e
    ensures Lex(expr, i) == Prepend([Token(Ident, expr[i..e], i)], Lex(expr, e))
  {
    hide Prepend, NameEnd;
    assert !IsBlank(expr[i]) && SymbolKind(expr[i]).None?;
  }

  lemma SymbolLexed(expr: string, i: nat)
    requires i < |expr| && SymbolKind(expr[i]).Some?
    ensures Lex(expr, i) == Prepend([Token(SymbolKind(expr[i]).value, [expr[i]], i)], Lex(expr, i + 1))
  {
  }

  /** Tokens that tile a stretch of the text are what is read there. */
  lemma {:induction false} TiledLexed(expr: string, i: nat, ts: seq<Token>, e: nat)
    requires Tiles(expr, i, ts, e)
    ensures e <= |expr| && i <= |expr| && Lex(expr, i) == Prepend(ts, Lex(expr, e))
    decreases |ts|
  {
    hide Lex, Stands;
    if ts == [] {
      BlanksSkipped(expr, i, e);
      PrependNothing(Lex(expr, e));
    } else {
      TiledLexed(expr, ts[0].pos + |ts[0].val|, ts[1..], e);
      BlanksSkipped(expr, i, ts[0].pos);
      StandingLexed(expr, ts[0]);
      PrependTwice([ts[0]], ts[1..], Lex(expr, e));
      assert [ts[0]] + ts[1..] == ts;
    }
  }

  /** What is read tiles the text to the end, or to the first character that is not legal there. */
  lemma {:induction false} LexedTiles(expr: string, i: nat) returns (ts: seq<Token>, e: nat)
    requires i <= |expr|
    ensures Tiles(expr, i, ts, e)
    ensures Lex(expr, i).Success? ==> e == |expr| && Lex(expr, i).value == ts
    ensures Lex(expr, i).Failure? ==> e < |expr| && Illegal(expr[e]) && Lex(expr, i).error == UnexpectedChar(e)
    decreases |expr| - i
  {
    hide Tiles, Stands, Illegal;
    if i < |expr| { IllegalAgrees(expr[i]); }
    if i == |expr| {
      ts, e := [], i;
      NothingTiles(expr, i);
    } else if IsBlank(expr[i]) {
      ts, e := LexedTiles(expr, i + 1);
      BlankTiles(expr, i, ts, e);
    } else if SymbolKind(expr[i]).Some? {
      var more;
      more, e := LexedTiles(expr, i + 1);
      var t := Token(SymbolKind(expr[i]).value, [expr[i]], i);
      SymbolStands(expr, i);
      ts := [t] + more;
      TokenTiles(expr, t, more, e);
    } else if IsLower(expr[i]) {
      var end := NameEnd(expr, i + 1);
      var more;
      more, e := LexedTiles(expr, end);
      var t := Token(Ident, expr[i..end], i);
      NameStands(expr, i, end);
      ts := [t] + more;
      TokenTiles(expr, t, more, e);
    } else {
      ts, e := [], i;
      NothingTiles(expr, i);
    }
  }

  lemma NothingTiles(expr: string, i: nat)
    requires i <= |expr|
    ensures Tiles(expr, i, [], i)
  {
  }

  lemma BlankTiles(expr: string, i: nat, ts: seq<Token>, e: nat)
    requires i < |expr| && IsBlank(expr[i]) && Tiles(expr, i + 1, ts, e)
    ensures Tiles(expr, i, ts, e)
  {
    CharsAgree(expr[i]);
    hide Gap;
  }

  lemma TokenTiles(expr: string, t: Token, more: seq<Token>, e: nat)
    requires Stands(expr, t) && Tiles(expr, t.pos + |t.val|, more, e)
    ensures Tiles(expr, t.pos, [t] + more, e)
  {
    assert ([t] + more)[1..] == more;
  }

  lemma SymbolStands(expr: string, i: nat)
    requires i < |expr| && SymbolKind(expr[i]).Some?
    ensures Stands(expr, Token(SymbolKind(expr[i]).value, [expr[i]], i))
  {
    SymbolNotIdent(expr[i]);
    SymbolsAgree(expr[i], SymbolKind(expr[i]).value);
    hide SymbolKind, Spelling;
  }

  lemma NameStands(expr: string, i: nat, e: nat)
    requires i < e <= |expr| && IsLower(expr[i]) && (forall k :: i <= k < e ==> IsNameChar(expr[k]))
    requires e < |expr| ==> !IsNameChar(expr[e])
    ensures Stands(expr, Token(Ident, expr[i..e], i))
  {
    CharsAgree(expr[i]);
    forall k | i <= k < e ensures InName(expr[k]) {
      CharsAgree(expr[k]);
    }
    if e < |expr| { CharsAgree(expr[e]); }
    hide IsNameChar, IsLower, InName, OpensName;
    var t := Token(Ident, expr[i..e], i);
    assert t.pos + |t.val| == e && t.val[0] == expr[i];
  }

  lemma SymbolNotIdent(c: char)
    ensures SymbolKind(c) != Some(Ident)
  {
  }

  /** Tokenizing gives exactly the tokens that tile the text. */
  lemma LexIff(expr: string, ts: seq<Token>)
    ensures Lex(expr, 0) == Success(ts) <==> Tiles(expr, 0, ts, |expr|)
  {
    hide Tiles;
    var read, e := LexedTiles(expr, 0);
    if Tiles(expr, 0, ts, |expr|) {
      TiledLexed(expr, 0, ts, |expr|);
      assert ts + [] == ts;
    }
  }

  /** It fails exactly at the first character that stands where no token can begin. */
  lemma LexFailsIff(expr: string, p: nat)
    ensures Lex(expr, 0) == Failure(UnexpectedChar(p)) <==>
      p < |expr| && Illegal(expr[p]) && exists before :: Tiles(expr, 0, before, p)
  {
    hide Tiles;
    var read, e := LexedTiles(expr, 0);
    if p < |expr| && Illegal(expr[p]) {
      IllegalAgrees(expr[p]);
      assert Lex(expr, p) == Failure(UnexpectedChar(p));
      forall before | Tiles(expr, 0, before, p) ensures Lex(expr, 0) == Failure(UnexpectedChar(p)) {
        TiledLexed(expr, 0, before, p);
      }
    }
  }

  /** The trimmed text is tiled by tokens that the grammar derives. */
  ghost predicate Says(expr: string, ts: seq<Token>, d: Derivation) {
    Tiles(TrimSpace(expr), 0, ts, |TrimSpace(expr)|) && Derives(d, ts)
  }

  /** Matching succeeds exactly on the texts the grammar derives, with what their tree says of the tags. */
  lemma MatchIff(expr: string, tags: set<string>, b: bool)
    ensures Match(expr, tags) == Success(b) <==> exists ts, d :: Says(expr, ts, d) && b == Eval(d.ToTree(), tags)
  {
    var text := TrimSpace(expr);
    if Match(expr, tags) == Success(b) {
      var ts := Lex(text, 0).value;
      LexIff(text, ts);
      ParseIffDerives(ts, ParseTokens(ts).value);
      var d :| Derives(d, ts) && d.ToTree() == ParseTokens(ts).value;
      assert Says(expr, ts, d);
    }
    forall ts, d | Says(expr, ts, d) ensures Match(expr, tags) == Success(Eval(d.ToTree(), tags)) {
      LexIff(text, ts);
      ParseIffDerives(ts, d.ToTree());
      NonEmptyText(text, ts, d);
    }
  }

  lemma NonEmptyText(text: string, ts: seq<Token>, d: Derivation)
    requires Tiles(text, 0, ts, |text|) && Derives(d, ts)
    ensures text != ""
  {
  }
}
