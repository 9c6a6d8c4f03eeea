/** How the canonical document lies on its lines, told by a scan that knows nothing of the writer. */
module JsonLayout {
  import opened Names
  import opened Numbers
  import opened JsonText

  // --- The scan ---------------------------------------------------------------------------

  /** What follows the string whose opening quote was just passed. */
  function PastString(s: string): (r: string)
    ensures |r| <= |s|
  {
    if s == "" then ""
    else if s[0] == '"' then s[1..]
    else if s[0] == '\\' && |s| > 1 then PastString(s[2..])
    else PastString(s[1..])
  }

  /** A line break, exactly n spaces, and something on the line. */
  predicate LineOpens(s: string, n: nat) {
    && |s| > n + 1 && s[0] == '\n' && s[n + 1] !in " \n"
    && forall k :: 1 <= k <= n ==> s[k] == ' '
  }

  /** From here to its end, with d brackets open, the text is laid out: an opening bracket is closed at
      once or ends its line, and what it holds stands on lines of its own, two spaces further in; a comma
      ends its line; a closing bracket opens a line, two spaces further out; one space follows a colon;
      and outside strings there is no other white space. */
  predicate LaidOut(s: string, d: nat)
    decreases |s|
  {
    if s == "" then d == 0
    else if s[0] == '"' then LaidOut(PastString(s[1..]), d)
    else if s[0] in "[{" then
      if |s| > 1 && s[1] in "]}" then LaidOut(s[2..], d)
      else LineOpens(s[1..], 2 * (d + 1)) && LaidOut(s[1..][1 + 2 * (d + 1)..], d + 1)
    else if s[0] == ',' then LineOpens(s[1..], 2 * d) && LaidOut(s[1..][1 + 2 * d..], d)
    else if s[0] == ':' then |s| > 2 && s[1] == ' ' && s[2] !in " \n" && LaidOut(s[2..], d)
    else if s[0] == '\n' then
      d > 0 && LineOpens(s, 2 * (d - 1)) && s[1 + 2 * (d - 1)] in "]}" && LaidOut(s[2 + 2 * (d - 1)..], d - 1)
    else s[0] !in " \t\r]}" && LaidOut(s[1..], d)
  }

  // --- Steps of the scan --------------------------------------------------------------------

  predicate Inert(c: char) {
    c !in "\"[{,:\n \t\r]}"
  }

  lemma {:induction false} InertPassed(w: string, rest: string, d: nat)
    requires forall k :: 0 <= k < |w| ==> Inert(w[k])
    ensures LaidOut(w + rest, d) == LaidOut(rest, d)
  {
    if w == "" {
      assert w + rest == rest;
    } else {
      assert (w + rest)[1..] == w[1..] + rest;
      assert Inert(w[0]);
      InertPassed(w[1..], rest, d);
    }
  }

  lemma NumberPassed(w: string, rest: string, d: nat)
    requires NumberText(w)
    ensures LaidOut(w + rest, d) == LaidOut(rest, d)
  {
    hide LaidOut;
    forall k | 0 <= k < |w| ensures Inert(w[k]) {
    }
    InertPassed(w, rest, d);
  }

  lemma {:induction false} PlainCharsPassed(w: string, rest: string)
    requires forall k :: 0 <= k < |w| ==> w[k] != '"' && w[k] != '\\'
    ensures PastString(w + rest) == PastString(rest)
  {
    if w == "" {
      assert w + rest == rest;
    } else {
      assert (w + rest)[1..] == w[1..] + rest;
      PlainCharsPassed(w[1..], rest);
    }
  }

  lemma EscapePassed(c: char, rest: string)
    ensures PastString(EscapeChar(Pretty, c) + rest) == PastString(rest)
  {
    var e := EscapeChar(Pretty, c);
    if e == [c] {
      PlainCharsPassed(e, rest);
    } else if |e| == 2 {
      assert (e + rest)[2..] == rest;
    } else {
      var digits := e[2..];
      HexPlain(c as int);
      assert (e + rest)[2..] == digits + rest;
      PlainCharsPassed(digits, rest);
    }
  }

  lemma HexPlain(code: nat)
    requires code < 0x10000
    ensures var u := UnicodeEscape(code); |u| == 6 && forall k :: 2 <= k < 6 ==> u[k] != '"' && u[k] != '\\'
  {
    HexDigitPlain(code / 4096);
    HexDigitPlain(code / 256 % 16);
    HexDigitPlain(code / 16 % 16);
    HexDigitPlain(code % 16);
  }

  lemma HexDigitPlain(k: nat)
    requires k < 16
    ensures HexDigit(k) != '"' && HexDigit(k) != '\\'
  {
    var digits := "0123456789abcdef";
    assert forall j :: 0 <= j < 16 ==> digits[j] != '"' && digits[j] != '\\';
  }

  lemma {:induction false} EscapesPassed(k: string, rest: string)
    ensures PastString(Escape(Pretty, k) + "\"" + rest) == rest
  {
    hide EscapeChar;
    if k == "" {
      assert ("\"" + rest)[1..] == rest;
      assert "" + "\"" + rest == "\"" + rest;
    } else {
      EscapesPassed(k[1..], rest);
      EscapePassed(k[0], Escape(Pretty, k[1..]) + "\"" + rest);
      assert Escape(Pretty, k) + "\"" + rest == EscapeChar(Pretty, k[0]) + (Escape(Pretty, k[1..]) + "\"" + rest);
    }
  }

  lemma QuotePassed(k: string, rest: string, d: nat)
    ensures LaidOut(Quote(Pretty, k) + rest, d) == LaidOut(rest, d)
  {
    hide Escape, PastString;
    EscapesPassed(k, rest);
    var s := Quote(Pretty, k) + rest;
    assert s[1..] == Escape(Pretty, k) + "\"" + rest;
  }

  lemma {:induction false} Indented(n: nat)
    ensures |Indent(n)| == 2 * n
  {
    if n > 0 { Indented(n - 1); }
  }

  /** A line break and its indent, before something on the line. */
  lemma GapOpens(n: nat, x: string)
    requires x != "" && x[0] !in " \n"
    ensures var s := Gap(Pretty, n) + x; LineOpens(s, 2 * n) && s[1 + 2 * n..] == x && s[1 + 2 * n] == x[0]
  {
    Indented(n);
    var g, s := Gap(Pretty, n), Gap(Pretty, n) + x;
    assert g == "\n" + Indent(n);
    forall k | 1 <= k <= 2 * n ensures s[k] == ' ' {
      assert s[k] == Indent(n)[k - 1];
      assert Indent(n)[k - 1] in Indent(n);
    }
  }

  // --- The writer's text is laid out ------------------------------------------------------------

  lemma TextOpens(v: Json, d: nat)
    ensures Text(Pretty, v, d) != "" && Text(Pretty, v, d)[0] !in " \n]}"
  {
    match v
    case JInt(n) => ItoaIsNumber(n);
    case JReal(f) => FloatIsNumber(f);
    case _ =>
  }

  lemma {:induction false} TextPassed(v: Json, d: nat, rest: string)
    ensures LaidOut(Text(Pretty, v, d) + rest, d) == LaidOut(rest, d)
    decreases v, 1
  {
    hide LaidOut, ItemsText, MembersText, Quote, Itoa, FormatFloatCanonical;
    match v
    case JNull => InertPassed("null", rest, d);
    case JBool(b) => InertPassed(if b then "true" else "false", rest, d);
    case JInt(n) =>
      ItoaIsNumber(n);
      NumberPassed(Itoa(n), rest, d);
    case JReal(f) =>
      FloatIsNumber(f);
      NumberPassed(FormatFloatCanonical(f), rest, d);
    case JStr(s) => QuotePassed(s, rest, d);
    case JArr(items) =>
      if items == [] {
        EmptyPassed('[', ']', rest, d);
      } else {
        ItemsPassed(items, d + 1, Gap(Pretty, d) + "]" + rest);
        BracketsPassed('[', ItemsText(Pretty, items, d + 1), ']', rest, d);
      }
    case JObj(members) =>
      if members == [] {
        EmptyPassed('{', '}', rest, d);
      } else {
        MembersPassed(members, d + 1, Gap(Pretty, d) + "}" + rest);
        BracketsPassed('{', MembersText(Pretty, members, d + 1), '}', rest, d);
      }
  }

  /** Brackets around lines that the scan passes at one level further in. */
  lemma BracketsPassed(open: char, body: string, close: char, rest: string, d: nat)
    requires open in "[{" && close in "]}"
    requires var s := body + (Gap(Pretty, d) + [close] + rest);
      LineOpens(s, 2 * (d + 1)) &&
      LaidOut(s[1 + 2 * (d + 1)..], d + 1) == LaidOut(Gap(Pretty, d) + [close] + rest, d + 1)
    ensures LaidOut([open] + body + Gap(Pretty, d) + [close] + rest, d) == LaidOut(rest, d)
  {
    hide LaidOut, LineOpens, Gap;
    OpenPassed(open, body + (Gap(Pretty, d) + [close] + rest), d);
    ClosePassed(close, rest, d);
    assert [open] + body + Gap(Pretty, d) + [close] + rest == [open] + (body + (Gap(Pretty, d) + [close] + rest));
  }

  lemma EmptyPassed(open: char, close: char, rest: string, d: nat)
    requires open in "[{" && close in "]}"
    ensures LaidOut([open, close] + rest, d) == LaidOut(rest, d)
  {
    assert ([open, close] + rest)[2..] == rest;
  }

  lemma OpenPassed(open: char, x: string, d: nat)
    requires open in "[{" && LineOpens(x, 2 * (d + 1))
    ensures LaidOut([open] + x, d) == LaidOut(x[1 + 2 * (d + 1)..], d + 1)
  {
    assert ([open] + x)[1..] == x;
  }

  lemma ClosePassed(close: char, rest: string, d: nat)
    requires close in "]}"
    ensures LaidOut(Gap(Pretty, d) + [close] + rest, d + 1) == LaidOut(rest, d)
  {
    var x := [close] + rest;
    GapOpens(d, x);
    var s := Gap(Pretty, d) + x;
    assert Gap(Pretty, d) + [close] + rest == s;
    assert s[2 + 2 * d..] == s[1 + 2 * d..][1..] == rest;
  }

  lemma CommaPassed(x: string, d: nat)
    requires LineOpens(x, 2 * d)
    ensures LaidOut("," + x, d) == LaidOut(x[1 + 2 * d..], d)
  {
    assert ("," + x)[1..] == x;
  }

  lemma {:induction false} ItemsPassed(items: seq<Json>, d: nat, rest: string)
    requires items != []
    ensures var s := ItemsText(Pretty, items, d) + rest;
      LineOpens(s, 2 * d) && LaidOut(s[1 + 2 * d..], d) == LaidOut(rest, d)
    decreases items, 0
  {
    hide LaidOut, Gap, LineOpens, Text;
    var first := Text(Pretty, items[0], d);
    var more := (if |items| == 1 then "" else "," + ItemsText(Pretty, items[1..], d)) + rest;
    assert ItemsText(Pretty, items, d) + rest == Gap(Pretty, d) + (first + more);
    TextOpens(items[0], d);
    GapOpens(d, first + more);
    TextPassed(items[0], d, more);
    if |items| == 1 {
      assert more == rest;
    } else {
      ItemsPassed(items[1..], d, rest);
      assert more == "," + (ItemsText(Pretty, items[1..], d) + rest);
      CommaPassed(ItemsText(Pretty, items[1..], d) + rest, d);
    }
  }

  lemma {:induction false} MembersPassed(members: seq<JMember>, d: nat, rest: string)
    requires members != []
    ensures var s := MembersText(Pretty, members, d) + rest;
      LineOpens(s, 2 * d) && LaidOut(s[1 + 2 * d..], d) == LaidOut(rest, d)
    decreases members, 0
  {
    hide LaidOut, Gap, LineOpens, Text, MemberText;
    var more := (if |members| == 1 then "" else "," + MembersText(Pretty, members[1..], d)) + rest;
    assert MembersText(Pretty, members, d) + rest == MemberText(Pretty, members[0], d) + more;
    MemberPassed(members[0], d, more);
    if |members| == 1 {
      assert more == rest;
    } else {
      MembersPassed(members[1..], d, rest);
      assert more == "," + (MembersText(Pretty, members[1..], d) + rest);
      CommaPassed(MembersText(Pretty, members[1..], d) + rest, d);
    }
  }

  lemma {:induction false} MemberPassed(m: JMember, d: nat, rest: string)
    ensures var s := MemberText(Pretty, m, d) + rest;
      LineOpens(s, 2 * d) && LaidOut(s[1 + 2 * d..], d) == LaidOut(rest, d)
    decreases m, 2
  {
    hide LaidOut, Gap, LineOpens, Text, Escape;
    var value := Text(Pretty, m.value, d) + rest;
    var x := Quote(Pretty, m.key) + (": " + value);
    assert MemberText(Pretty, m, d) + rest == Gap(Pretty, d) + x;
    GapOpens(d, x);
    QuotePassed(m.key, ": " + value, d);
    TextOpens(m.value, d);
    ColonPassed(value, d);
    TextPassed(m.value, d, rest);
  }

  lemma ColonPassed(x: string, d: nat)
    requires x != "" && x[0] !in " \n"
    ensures LaidOut(": " + x, d) == LaidOut(x, d)
  {
    var s := ": " + x;
    assert s[2..] == x && s[0] == ':' && s[1] == ' ' && s[2] == x[0];
  }

  /** The whole text of a document is laid out. */
  lemma TextLaidOut(v: Json)
    ensures LaidOut(Text(Pretty, v, 0), 0)
  {
    hide Text;
    TextPassed(v, 0, "");
    assert Text(Pretty, v, 0) + "" == Text(Pretty, v, 0);
  }

  // --- Escapes ------------------------------------------------------------------------------------

  /** Nothing is escaped but the quote, the backslash and the control characters; one that has a short
      escape uses it, and the rest are four hexadecimal digits, none of them a capital. */
  lemma EscapesOnly(c: char)
    ensures EscapeChar(Pretty, c) == [c] <==> c >= ' ' && c != '"' && c != '\\'
    ensures |EscapeChar(Pretty, c)| == 2 <==> exists letter :: letter != '/' && ShortEscape(letter) == Some(c)
    ensures |EscapeChar(Pretty, c)| in {1, 2, 6}
    ensures |EscapeChar(Pretty, c)| == 6 ==>
      forall k :: 2 <= k < 6 ==> EscapeChar(Pretty, c)[k] in "0123456789abcdef"
  {
    if |EscapeChar(Pretty, c)| == 2 { assert ShortEscape(EscapeChar(Pretty, c)[1]) == Some(c); }
  }
}
