/** Reading what the canonical writers write: the reader returns the same document, with
    the same member order at every depth. */
module JsonRoundTrip {
  import opened Names
  import opened JsonText
  import opened Numbers

  // --- Whitespace ----------------------------------------------------------------

  lemma {:induction false} SkipTo(s: string, i: nat, j: nat)
    requires i <= j <= |s| && forall k :: i <= k < j ==> IsJsonSpace(s[k])
    requires j == |s| || !IsJsonSpace(s[j])
    ensures SkipSpace(s, i) == j
    decreases j - i
  {
    if i < j { SkipTo(s, i + 1, j); }
  }

  lemma SkipGap(s: string, i: nat, l: Layout, depth: nat)
    requires At(s, i, Gap(l, depth))
    requires i + |Gap(l, depth)| == |s| || !IsJsonSpace(s[i + |Gap(l, depth)|])
    ensures SkipSpace(s, i) == i + |Gap(l, depth)|
  {
    var gap := Gap(l, depth);
    forall k | i <= k < i + |gap| ensures IsJsonSpace(s[k]) {
      assert s[k] == s[i..i + |gap|][k - i];
      assert gap[k - i] in gap;
    }
    SkipTo(s, i, i + |gap|);
  }

  // --- Strings -----------------------------------------------------------------------

  lemma HexBack(k: nat)
    requires k < 16
    ensures HexValue(HexDigit(k)) == Some(k)
  {
  }

  lemma HexDigitsValue(n: nat)
    requires n < 0x10000
    ensures n / 4096 < 16 && n == n / 4096 * 4096 + n / 256 % 16 * 256 + n / 16 % 16 * 16 + n % 16
  {
  }

  lemma ReadFour(s: string, i: nat, a: nat, b: nat, c: nat, d: nat)
    requires a < 16 && b < 16 && c < 16 && d < 16 && i + 4 <= |s|
    requires s[i] == HexDigit(a) && s[i + 1] == HexDigit(b) && s[i + 2] == HexDigit(c) && s[i + 3] == HexDigit(d)
    ensures ReadHex(s, i) == Got(a * 4096 + b * 256 + c * 16 + d, i + 4)
  {
    HexBack(a);
    HexBack(b);
    HexBack(c);
    HexBack(d);
  }

  lemma ReadUnicode(s: string, i: nat, code: nat)
    requires code < 0xD800 && At(s, i, UnicodeEscape(code))
    ensures i < |s| && s[i] == '\\' && ReadEscape(s, i + 1) == Got(code as char, i + 6)
  {
    hide At, HexDigit, HexValue, ReadHex;
    var e := UnicodeEscape(code);
    AtIndex(s, i, e);
    assert e[0] == '\\' && e[1] == 'u';
    HexDigitsValue(code);
    ReadFour(s, i + 2, code / 4096, code / 256 % 16, code / 16 % 16, code % 16);
  }

  /** One escaped character is read back as that character. */
  lemma ReadOneChar(l: Layout, c: char, s: string, i: nat)
    requires At(s, i, EscapeChar(l, c))
    ensures ReadChars(s, i) == Cons(c, ReadChars(s, i + |EscapeChar(l, c)|))
  {
    var e := EscapeChar(l, c);
    AtHead(s, i, e);
    if e == [c] {
    } else if |e| == 2 {
      assert s[i + 1] == s[i..i + 2][1];
      assert ShortEscape(e[1]) == Some(c);
    } else {
      ReadUnicode(s, i, c as int);
    }
  }

  lemma ReadClosing(s: string, i: nat)
    requires i < |s| && s[i] == '"'
    ensures ReadChars(s, i) == Got("", i + 1)
  {
  }

  lemma {:induction false} ReadEscaped(l: Layout, t: string, s: string, i: nat)
    requires At(s, i, Escape(l, t) + "\"")
    ensures ReadChars(s, i) == Got(t, i + |Escape(l, t)| + 1)
    decreases |t|
  {
    hide At, EscapeChar, ReadChars;
    if t == "" {
      assert Escape(l, t) + "\"" == "\"";
      AtHead(s, i, "\"");
      ReadClosing(s, i);
    } else {
      var head, rest := EscapeChar(l, t[0]), Escape(l, t[1..]);
      assert Escape(l, t) + "\"" == head + (rest + "\"");
      AtParts(s, i, head, rest + "\"");
      ReadOneChar(l, t[0], s, i);
      ReadEscaped(l, t[1..], s, i + |head|);
      assert t == [t[0]] + t[1..];
    }
  }

  /** A quoted string, read from its opening quote. */
  lemma ReadQuoted(l: Layout, t: string, s: string, i: nat)
    requires At(s, i, Quote(l, t))
    ensures i < |s| && s[i] == '"' && ReadChars(s, i + 1) == Got(t, i + |Quote(l, t)|)
  {
    hide At, Escape, ReadChars;
    assert Quote(l, t) == "\"" + (Escape(l, t) + "\"");
    AtParts(s, i, "\"", Escape(l, t) + "\"");
    AtHead(s, i, "\"");
    ReadEscaped(l, t, s, i + 1);
  }

  // --- Integers ------------------------------------------------------------------------

  /** Nothing at j would extend a number that ends there. */
  predicate NumberStops(s: string, j: nat) {
    j >= |s| || !(IsDigit(s[j]) || s[j] in {'.', 'e', 'E'})
  }

  lemma {:induction false} DigitsEndAt(s: string, i: nat, e: nat)
    requires i <= e <= |s| && forall k :: i <= k < e ==> IsDigit(s[k])
    requires e == |s| || !IsDigit(s[e])
    ensures DigitsEnd(s, i) == e
    decreases e - i
  {
    if i < e { DigitsEndAt(s, i + 1, e); }
  }

  lemma ReadDigits(s: string, i: nat, n: nat)
    requires At(s, i, Digits(n)) && NumberStops(s, i + |Digits(n)|)
    ensures var e := i + |Digits(n)|;
      DigitsEnd(s, i) == e && s[i..e] == Digits(n) && e > i && (s[i] == '0' ==> e == i + 1) && s[i] != '-'
  {
    hide DigitsValue, Digits, At, DigitsEnd;
    DigitsShape(n);
    DigitsAt(s, i, Digits(n));
  }

  lemma DigitsShape(n: nat)
    ensures Digits(n)[0] == '0' ==> |Digits(n)| == 1
    ensures forall k :: 0 <= k < |Digits(n)| ==> IsDigit(Digits(n)[k])
  {
    DigitsBack(n);
  }

  lemma DigitsAt(s: string, i: nat, r: string)
    requires At(s, i, r) && r != "" && (forall k :: 0 <= k < |r| ==> IsDigit(r[k])) && NumberStops(s, i + |r|)
    ensures DigitsEnd(s, i) == i + |r| <= |s| && s[i..i + |r|] == r && s[i] == r[0] && IsDigit(s[i])
  {
    AtIndex(s, i, r);
    forall k | i <= k < i + |r| ensures IsDigit(s[k]) {
      assert s[k] == r[k - i];
    }
    DigitsEndAt(s, i, i + |r|);
  }

  lemma ReadItoa(s: string, i: nat, n: int)
    requires At(s, i, Itoa(n)) && NumberStops(s, i + |Itoa(n)|)
    ensures ReadInt(s, i) == Got(JInt(n), i + |Itoa(n)|)
    ensures i < |s| && (s[i] == '-' || IsDigit(s[i]))
  {
    if n < 0 { ReadNegative(s, i, n); } else { ReadNatural(s, i, n); }
  }

  lemma ReadNegative(s: string, i: nat, n: int)
    requires n < 0 && At(s, i, Itoa(n)) && NumberStops(s, i + |Itoa(n)|)
    ensures ReadInt(s, i) == Got(JInt(n), i + |Itoa(n)|) && i < |s| && s[i] == '-'
  {
    hide DigitsEnd, Digits, At;
    AtParts(s, i, "-", Digits(-n));
    AtHead(s, i, "-");
    ReadDigits(s, i + 1, -n);
    DigitsBack(-n);
  }

  lemma ReadNatural(s: string, i: nat, n: nat)
    requires At(s, i, Itoa(n)) && NumberStops(s, i + |Itoa(n)|)
    ensures ReadInt(s, i) == Got(JInt(n), i + |Itoa(n)|) && i < |s| && IsDigit(s[i])
  {
    hide DigitsEnd, Digits, At;
    ReadDigits(s, i, n);
    DigitsBack(n);
  }

  // --- Floats --------------------------------------------------------------------------

  predicate DigitsStop(s: string, j: nat) {
    j >= |s| || !IsDigit(s[j])
  }

  lemma DigitRun(s: string, i: nat, r: string)
    requires At(s, i, r) && AllDigits(r) && DigitsStop(s, i + |r|)
    ensures DigitsEnd(s, i) == i + |r| <= |s| && s[i..i + |r|] == r
  {
    AtIndex(s, i, r);
    forall k | i <= k < i + |r| ensures IsDigit(s[k]) {
      assert s[k] == r[k - i];
    }
    DigitsEndAt(s, i, i + |r|);
  }

  /** The sign and the digits before a fraction or an exponent. */
  lemma ReadWhole(s: string, i: nat, negative: bool, w: string)
    requires At(s, i, Sign(negative) + w) && w != "" && AllDigits(w) && (w[0] == '0' ==> |w| == 1)
    requires DigitsStop(s, i + |Sign(negative)| + |w|)
    ensures var start := i + |Sign(negative)|;
      SignEnd(s, i) == start && WholeAt(s, start) && DigitsEnd(s, start) == start + |w| && s[start..start + |w|] == w
  {
    hide At, DigitsEnd;
    AtParts(s, i, Sign(negative), w);
    AtHead(s, i + |Sign(negative)|, w);
    if negative { AtHead(s, i, "-"); }
    DigitRun(s, i + |Sign(negative)|, w);
  }

  lemma ReadFractionAt(s: string, e: nat, f: string)
    requires At(s, e, Fraction(f)) && AllDigits(f) && DigitsStop(s, e + |Fraction(f)|)
    requires f == "" ==> e == |s| || s[e] != '.'
    ensures ReadFraction(s, e) == Got(f, e + |Fraction(f)|)
  {
    hide At, DigitsEnd;
    if f != "" {
      AtParts(s, e, ".", f);
      AtHead(s, e, ".");
      DigitRun(s, e + 1, f);
    }
  }

  lemma ReadExponentAt(s: string, e: nat, x: int)
    requires At(s, e, "e" + (ExponentSign(x) + Digits(Magnitude(x)))) && DigitsStop(s, e + 2 + |Digits(Magnitude(x))|)
    ensures ReadExponent(s, e) == Got(x, e + 2 + |Digits(Magnitude(x))|)
  {
    hide At, DigitsEnd, Digits;
    var r := Digits(Magnitude(x));
    AtParts(s, e, "e", ExponentSign(x) + r);
    AtParts(s, e + 1, ExponentSign(x), r);
    AtHead(s, e, "e");
    AtHead(s, e + 1, ExponentSign(x));
    DigitsBack(Magnitude(x));
    DigitRun(s, e + 2, r);
  }

  lemma WholePartOpens(v: Float)
    requires IsFixed(v)
    ensures WholePart(v) != "" && (WholePart(v)[0] == '0' ==> |WholePart(v)| == 1) && FractionPart(v) != ""
  {
  }

  /** A number read from its parts. */
  lemma ReadParts(s: string, i: nat, w: string, f: Read<string>, x: Read<int>)
    requires i <= |s| && WholeAt(s, SignEnd(s, i))
    requires var e := DigitsEnd(s, SignEnd(s, i)); s[SignEnd(s, i)..e] == w && e < |s| && s[e] in {'.', 'e', 'E'}
    requires f == ReadFraction(s, DigitsEnd(s, SignEnd(s, i))) && f.Got? && AllDigits(w) && AllDigits(f.value)
    requires x == ReadExponent(s, f.next) && x.Got? && x.next > DigitsEnd(s, SignEnd(s, i))
    ensures ReadNumber(s, i) == Got(JReal(Normal(SignEnd(s, i) > i, w, f.value, x.value)), x.next)
  {
    hide WholeAt, DigitsEnd, ReadFraction, ReadExponent, Normal, DigitsValue;
  }

  lemma ReadFixed(s: string, i: nat, v: Float)
    requires IsFixed(v) && At(s, i, Sign(v.negative) + WholePart(v) + "." + FractionPart(v))
    requires NumberStops(s, i + |Sign(v.negative)| + |WholePart(v)| + 1 + |FractionPart(v)|)
    ensures ReadNumber(s, i) == Got(JReal(v), i + |Sign(v.negative)| + |WholePart(v)| + 1 + |FractionPart(v)|)
  {
    FixedNames(v);
    WholePartOpens(v);
    hide At, NumberStops, WholePart, FractionPart, Normal, IsFixed;
    var sign, w, f := Sign(v.negative), WholePart(v), FractionPart(v);
    assert sign + w + "." + f == (sign + w) + Fraction(f);
    ReadPlain(s, i, v.negative, w, f);
  }

  /** A literal with a fraction and no exponent. */
  lemma ReadPlain(s: string, i: nat, negative: bool, w: string, f: string)
    requires At(s, i, (Sign(negative) + w) + Fraction(f))
    requires w != "" && AllDigits(w) && (w[0] == '0' ==> |w| == 1) && f != "" && AllDigits(f)
    requires NumberStops(s, i + |Sign(negative)| + |w| + 1 + |f|)
    ensures ReadNumber(s, i) == Got(JReal(Normal(negative, w, f, 0)), i + |Sign(negative)| + |w| + 1 + |f|)
  {
    hide At, NumberStops, DigitsEnd, Normal, WholeAt, SignEnd, ReadFraction, ReadExponent, ReadNumber;
    var sign := Sign(negative);
    var e := i + |sign| + |w|;
    AtParts(s, i, sign + w, Fraction(f));
    AtHead(s, e, Fraction(f));
    ReadWhole(s, i, negative, w);
    NoExponentAfter(s, e, f);
    ReadFractionAt(s, e, f);
    hide AllDigits, DigitsStop;
    ReadParts(s, i, w, Got(f, e + 1 + |f|), Got(0, e + 1 + |f|));
  }

  lemma NoExponentAfter(s: string, e: nat, f: string)
    requires At(s, e, Fraction(f)) && f != "" && NumberStops(s, e + 1 + |f|)
    ensures ReadExponent(s, e + 1 + |f|) == Got(0, e + 1 + |f|) && DigitsStop(s, e + |Fraction(f)|)
  {
  }

  lemma ReadScientific(s: string, i: nat, v: Float)
    requires !IsFixed(v)
    requires At(s, i, Mantissa(v) + "e" + ExponentSign(v.point - 1) + Digits(Magnitude(v.point - 1)))
    requires NumberStops(s, i + |Mantissa(v)| + 2 + |Digits(Magnitude(v.point - 1))|)
    ensures ReadNumber(s, i) == Got(JReal(v), i + |Mantissa(v)| + 2 + |Digits(Magnitude(v.point - 1))|)
  {
    ScientificNames(v);
    hide At, NumberStops, Normal, IsFixed, Digits;
    var x, w, f := v.point - 1, v.digits[..1], v.digits[1..];
    var tail := ExponentSign(x) + Digits(Magnitude(x));
    Associate(Mantissa(v) + "e", ExponentSign(x), Digits(Magnitude(x)));
    Associate(Mantissa(v), "e", tail);
    Associate(Sign(v.negative) + w, Fraction(f), "e" + tail);
    hide Fraction, ExponentSign;
    ReadMarked(s, i, v.negative, w, f, x);
  }

  lemma StopsDigits(s: string, j: nat)
    ensures NumberStops(s, j) || (j < |s| && s[j] in {'.', 'e', 'E'}) ==> DigitsStop(s, j)
  {
  }

  /** A literal with an exponent, whose fraction may be missing. */
  lemma ReadMarked(s: string, i: nat, negative: bool, w: string, f: string, x: int)
    requires At(s, i, (Sign(negative) + w) + (Fraction(f) + ("e" + (ExponentSign(x) + Digits(Magnitude(x))))))
    requires w != "" && AllDigits(w) && (w[0] == '0' ==> |w| == 1) && AllDigits(f)
    requires NumberStops(s, i + |Sign(negative)| + |w| + |Fraction(f)| + 2 + |Digits(Magnitude(x))|)
    ensures ReadNumber(s, i) ==
      Got(JReal(Normal(negative, w, f, x)), i + |Sign(negative)| + |w| + |Fraction(f)| + 2 + |Digits(Magnitude(x))|)
  {
    hide At, DigitsEnd, Normal, WholeAt, SignEnd, ReadFraction, ReadExponent, ReadNumber, Digits, ExponentSign;
    hide NumberStops, DigitsStop, AllDigits;
    var sign, tail := Sign(negative), ExponentSign(x) + Digits(Magnitude(x));
    var e := i + |sign| + |w|;
    var m := e + |Fraction(f)|;
    AtParts(s, i, sign + w, Fraction(f) + ("e" + tail));
    AtParts(s, e, Fraction(f), "e" + tail);
    AtHead(s, e, Fraction(f) + ("e" + tail));
    AtHead(s, m, "e" + tail);
    StopsDigits(s, e);
    StopsDigits(s, m);
    StopsDigits(s, m + 2 + |Digits(Magnitude(x))|);
    ReadWhole(s, i, negative, w);
    ReadFractionAt(s, e, f);
    ReadExponentAt(s, m, x);
    ReadParts(s, i, w, Got(f, m), Got(x, m + 2 + |Digits(Magnitude(x))|));
  }

  /** The canonical form of a float reads as that float. */
  lemma ReadFloat(s: string, i: nat, v: Float)
    requires At(s, i, FormatFloatCanonical(v)) && NumberStops(s, i + |FormatFloatCanonical(v)|)
    ensures ReadNumber(s, i) == Got(JReal(v), i + |FormatFloatCanonical(v)|)
  {
    hide At, NumberStops, FormatFloatCanonical, ReadNumber, Digits;
    if IsFixed(v) {
      FixedForm(v);
      ReadFixed(s, i, v);
    } else {
      ScientificForm(v);
      ReadScientific(s, i, v);
    }
  }

  /** It opens like a number. */
  lemma FloatOpens(v: Float)
    ensures var t := FormatFloatCanonical(v); t != "" && (t[0] == '-' || IsDigit(t[0]))
  {
    if IsFixed(v) {
      FixedForm(v);
      FixedNames(v);
      WholePartOpens(v);
    } else {
      ScientificForm(v);
    }
  }

  // --- Documents -----------------------------------------------------------------------

  /** A value's text never starts with whitespace or with a closing bracket. */
  predicate OpensValue(c: char) {
    c in {'n', 't', 'f', '"', '[', '{', '-'} || IsDigit(c)
  }

  lemma TextOpens(l: Layout, v: Json, depth: nat)
    ensures Text(l, v, depth) != "" && OpensValue(Text(l, v, depth)[0])
  {
    match v
    case JInt(n) => ItoaOpens(n);
    case JReal(f) => FloatOpens(f);
    case JArr(items) => hide ItemsText;
    case JObj(members) => hide MembersText;
    case _ =>
  }

  lemma ItoaOpens(n: int)
    ensures Itoa(n) != "" && (Itoa(n)[0] == '-' || IsDigit(Itoa(n)[0]))
  {
    var r := Digits(if n < 0 then -n else n);
    assert r[0] in r;
  }

  lemma OpensSolid(c: char)
    requires OpensValue(c)
    ensures !IsJsonSpace(c) && c != ']' && c != '}' && c != ',' && c != ':'
  {
  }

  /** Leading whitespace before a value changes nothing. */
  lemma ReadAfterGap(s: string, i: nat, l: Layout, depth: nat)
    requires At(s, i, Gap(l, depth))
    requires i + |Gap(l, depth)| < |s| && OpensValue(s[i + |Gap(l, depth)|])
    ensures SkipSpace(s, i) == i + |Gap(l, depth)|
    ensures ReadValue(s, i) == ReadValue(s, i + |Gap(l, depth)|)
  {
    var j := i + |Gap(l, depth)|;
    OpensSolid(s[j]);
    SkipGap(s, i, l, depth);
    SkipTo(s, j, j);
  }

  /** What closes an array or object: a gap, then the bracket. */
  lemma ClosesAt(s: string, i: nat, l: Layout, depth: nat, bracket: char)
    requires At(s, i, Gap(l, depth) + [bracket]) && !IsJsonSpace(bracket) && !IsDigit(bracket)
    requires bracket !in {'.', 'e', 'E'}
    ensures NumberStops(s, i)
    ensures SkipSpace(s, i) == i + |Gap(l, depth)| < |s| && s[i + |Gap(l, depth)|] == bracket
  {
    var gap := Gap(l, depth);
    AtParts(s, i, gap, [bracket]);
    AtHead(s, i + |gap|, [bracket]);
    AtHead(s, i, gap + [bracket]);
    SkipGap(s, i, l, depth);
    if gap != "" { assert gap[0] in gap; }
  }

  /** Reading a value's text, where nothing after it extends a number, gives the value. */
  lemma {:induction false} ReadBack(l: Layout, v: Json, depth: nat, s: string, i: nat)
    requires At(s, i, Text(l, v, depth)) && NumberStops(s, i + |Text(l, v, depth)|)
    ensures ReadValue(s, i) == Got(v, i + |Text(l, v, depth)|)
    decreases v, 1
  {
    TextOpens(l, v, depth);
    AtHead(s, i, Text(l, v, depth));
    OpensSolid(s[i]);
    SkipTo(s, i, i);
    hide At, ReadValue, NumberStops;
    match v
    case JNull => ReadBackWord(l, v, depth, s, i);
    case JBool(_) => ReadBackWord(l, v, depth, s, i);
    case JInt(_) => ReadBackNumber(l, v, depth, s, i);
    case JReal(_) => ReadBackNumber(l, v, depth, s, i);
    case JStr(t) => ReadBackString(l, t, depth, s, i);
    case JArr(items) => ReadBackArray(l, items, depth, s, i);
    case JObj(members) => ReadBackObject(l, members, depth, s, i);
  }

  lemma ReadBackWord(l: Layout, v: Json, depth: nat, s: string, i: nat)
    requires (v.JNull? || v.JBool?) && At(s, i, Text(l, v, depth)) && SkipSpace(s, i) == i
    ensures ReadValue(s, i) == Got(v, i + |Text(l, v, depth)|)
  {
    AtHead(s, i, Text(l, v, depth));
  }

  lemma ReadBackNumber(l: Layout, v: Json, depth: nat, s: string, i: nat)
    requires (v.JInt? || v.JReal?) && At(s, i, Text(l, v, depth)) && NumberStops(s, i + |Text(l, v, depth)|)
    requires SkipSpace(s, i) == i
    ensures ReadValue(s, i) == Got(v, i + |Text(l, v, depth)|)
  {
    hide At, NumberStops, Itoa, FormatFloatCanonical, SkipSpace, ReadValue, ReadNumber;
    match v {
      case JInt(n) =>
        ItoaOpens(n);
        AtHead(s, i, Itoa(n));
        IntNumber(s, i, n);
        NumberValue(s, i);
      case JReal(f) =>
        FloatOpens(f);
        AtHead(s, i, FormatFloatCanonical(f));
        ReadFloat(s, i, f);
        NumberValue(s, i);
    }
  }

  lemma IntNumber(s: string, i: nat, n: int)
    requires At(s, i, Itoa(n)) && NumberStops(s, i + |Itoa(n)|)
    ensures i < |s| && ReadNumber(s, i) == Got(JInt(n), i + |Itoa(n)|)
  {
    hide At, Itoa, ReadInt, ReadReal;
    ReadItoa(s, i, n);
  }

  lemma NumberValue(s: string, i: nat)
    requires i < |s| && SkipSpace(s, i) == i && (s[i] == '-' || IsDigit(s[i]))
    ensures ReadValue(s, i) == ReadNumber(s, i)
  {
    hide ReadChars, ReadItems, ReadMembers, ReadNumber, ReadWord, SkipSpace;
  }

  lemma ReadBackString(l: Layout, t: string, depth: nat, s: string, i: nat)
    requires At(s, i, Text(l, JStr(t), depth)) && SkipSpace(s, i) == i
    ensures ReadValue(s, i) == Got(JStr(t), i + |Text(l, JStr(t), depth)|)
  {
    hide At, Quote, ReadChars;
    ReadQuoted(l, t, s, i);
  }

  lemma {:induction false} ReadBackArray(l: Layout, items: seq<Json>, depth: nat, s: string, i: nat)
    requires At(s, i, Text(l, JArr(items), depth))
    ensures ReadValue(s, i) == Got(JArr(items), i + |Text(l, JArr(items), depth)|)
    decreases JArr(items), 0
  {
    hide At, ReadItems, ReadValue, Text, ItemsText, SkipSpace, Gap;
    if items == [] {
      EmptyArray(l, depth, s, i);
    } else {
      var body, close := ItemsText(l, items, depth + 1), Gap(l, depth) + "]";
      ArrayText(l, items, depth);
      AtParts(s, i, "[", body + close);
      AtHead(s, i, "[");
      SkipTo(s, i, i);
      ItemsOpen(l, items, depth + 1, s, i + 1, close);
      ReadBackItems(l, items, depth + 1, s, i + 1, depth);
      ArrayValue(s, i);
    }
  }

  lemma ArrayText(l: Layout, items: seq<Json>, depth: nat)
    requires items != []
    ensures Text(l, JArr(items), depth) == "[" + (ItemsText(l, items, depth + 1) + (Gap(l, depth) + "]"))
  {
  }

  lemma ArrayValue(s: string, i: nat)
    requires i < |s| && s[i] == '[' && SkipSpace(s, i) == i
    requires SkipSpace(s, i + 1) < |s| && s[SkipSpace(s, i + 1)] != ']' && ReadItems(s, i + 1).Got?
    ensures var r := ReadItems(s, i + 1); ReadValue(s, i) == Got(JArr(r.value), r.next)
  {
  }

  lemma EmptyAt(s: string, i: nat, open: char, close: char)
    requires At(s, i, [open, close]) && !IsJsonSpace(open) && !IsJsonSpace(close)
    ensures i + 1 < |s| && s[i] == open && s[i + 1] == close
    ensures SkipSpace(s, i) == i && SkipSpace(s, i + 1) == i + 1
  {
    assert s[i] == s[i..i + 2][0] && s[i + 1] == s[i..i + 2][1];
    SkipTo(s, i, i);
    SkipTo(s, i + 1, i + 1);
  }

  lemma EmptyArray(l: Layout, depth: nat, s: string, i: nat)
    requires At(s, i, Text(l, JArr([]), depth))
    ensures ReadValue(s, i) == Got(JArr([]), i + |Text(l, JArr([]), depth)|)
  {
    EmptyAt(s, i, '[', ']');
  }

  lemma EmptyObject(l: Layout, depth: nat, s: string, i: nat)
    requires At(s, i, Text(l, JObj([]), depth))
    ensures ReadValue(s, i) == Got(JObj([]), i + |Text(l, JObj([]), depth)|)
  {
    EmptyAt(s, i, '{', '}');
  }

  /** The first thing in a nonempty array is not its closing bracket. */
  lemma ItemsOpen(l: Layout, items: seq<Json>, depth: nat, s: string, i: nat, after: string)
    requires items != [] && At(s, i, ItemsText(l, items, depth) + after)
    ensures SkipSpace(s, i) < |s| && s[SkipSpace(s, i)] != ']'
  {
    hide At, Text, ReadValue;
    var gap, first := Gap(l, depth), Text(l, items[0], depth);
    var rest := ItemsText(l, items, depth)[|gap| + |first|..] + after;
    assert ItemsText(l, items, depth) + after == gap + (first + rest);
    AtParts(s, i, gap, first + rest);
    AtParts(s, i + |gap|, first, rest);
    TextOpens(l, items[0], depth);
    AtHead(s, i + |gap|, first);
    ReadAfterGap(s, i, l, depth);
    OpensSolid(first[0]);
  }

  lemma {:induction false} ReadLastItem(l: Layout, items: seq<Json>, depth: nat, s: string, i: nat, outer: nat)
    requires |items| == 1 && At(s, i, ItemsText(l, items, depth) + (Gap(l, outer) + "]"))
    ensures ReadItems(s, i) == Got(items, i + |ItemsText(l, items, depth)| + |Gap(l, outer)| + 1)
    decreases items, 0
  {
    hide At, Text, Gap, ReadValue, ItemsText, SkipSpace, ReadItems;
    var gap, first, close := Gap(l, depth), Text(l, items[0], depth), Gap(l, outer) + "]";
    ItemsTextOne(l, items, depth, close);
    AtParts(s, i, gap, first + close);
    AtParts(s, i + |gap|, first, close);
    ClosesAt(s, i + |gap| + |first|, l, outer, ']');
    ReadItem(l, items[0], depth, s, i);
    LastItem(s, i);
    assert items == [items[0]];
  }

  /** An item before others: a comma follows it, and then the others. */
  lemma ItemFollowed(l: Layout, items: seq<Json>, depth: nat, s: string, i: nat, outer: nat)
    requires |items| > 1 && At(s, i, ItemsText(l, items, depth) + (Gap(l, outer) + "]"))
    ensures var j := i + |Gap(l, depth)| + |Text(l, items[0], depth)|;
      && At(s, i, Gap(l, depth)) && At(s, i + |Gap(l, depth)|, Text(l, items[0], depth)) && NumberStops(s, j)
      && j < |s| && s[j] == ',' && SkipSpace(s, j) == j
      && At(s, j + 1, ItemsText(l, items[1..], depth) + (Gap(l, outer) + "]"))
      && i + |ItemsText(l, items, depth)| == j + 1 + |ItemsText(l, items[1..], depth)|
  {
    hide At, Text, Gap, ItemsText;
    var gap, first, close := Gap(l, depth), Text(l, items[0], depth), Gap(l, outer) + "]";
    var j, rest := i + |gap| + |first|, ItemsText(l, items[1..], depth) + close;
    ItemsTextMore(l, items, depth, close);
    AtParts(s, i, gap, first + ([','] + rest));
    AtParts(s, i + |gap|, first, [','] + rest);
    AtParts(s, j, [','], rest);
    AtHead(s, j, [',']);
    SkipTo(s, j, j);
  }

  lemma {:induction false} ReadBackItems(l: Layout, items: seq<Json>, depth: nat, s: string, i: nat, outer: nat)
    requires items != [] && At(s, i, ItemsText(l, items, depth) + (Gap(l, outer) + "]"))
    ensures ReadItems(s, i) == Got(items, i + |ItemsText(l, items, depth)| + |Gap(l, outer)| + 1)
    decreases items, 1
  {
    hide At, Text, Gap, ReadValue, ItemsText, SkipSpace, ReadItems, NumberStops;
    if |items| == 1 {
      ReadLastItem(l, items, depth, s, i, outer);
    } else {
      ItemFollowed(l, items, depth, s, i, outer);
      ReadItem(l, items[0], depth, s, i);
      ReadBackItems(l, items[1..], depth, s, i + |Gap(l, depth)| + |Text(l, items[0], depth)| + 1, outer);
      MoreItems(s, i);
      assert items == [items[0]] + items[1..];
    }
  }

  lemma LastItem(s: string, i: nat)
    requires i <= |s| && ReadValue(s, i).Got?
    requires var k := SkipSpace(s, ReadValue(s, i).next); k < |s| && s[k] == ']'
    ensures var v := ReadValue(s, i); ReadItems(s, i) == Got([v.value], SkipSpace(s, v.next) + 1)
  {
  }

  lemma MoreItems(s: string, i: nat)
    requires i <= |s| && ReadValue(s, i).Got?
    requires var k := SkipSpace(s, ReadValue(s, i).next); k < |s| && s[k] == ',' && ReadItems(s, k + 1).Got?
    ensures var v := ReadValue(s, i);
      var rest := ReadItems(s, SkipSpace(s, v.next) + 1);
      ReadItems(s, i) == Got([v.value] + rest.value, rest.next)
  {
  }

  lemma ItemsTextOne(l: Layout, items: seq<Json>, depth: nat, close: string)
    requires |items| == 1
    ensures ItemsText(l, items, depth) + close == Gap(l, depth) + (Text(l, items[0], depth) + close)
  {
    hide Text, Gap;
    assert ItemsText(l, items, depth) == Gap(l, depth) + Text(l, items[0], depth) + "";
  }

  lemma ItemsTextCons(l: Layout, items: seq<Json>, depth: nat)
    requires |items| > 1
    ensures ItemsText(l, items, depth) ==
      Gap(l, depth) + Text(l, items[0], depth) + ("," + ItemsText(l, items[1..], depth))
  {
    hide Text, Gap;
  }

  lemma Reassociate(a: string, b: string, c: string, d: string, e: string)
    ensures (a + b + (c + d)) + e == a + (b + (c + (d + e)))
  {
    assert (a + b + (c + d)) + e == (a + b) + (c + (d + e));
  }

  lemma ItemsTextMore(l: Layout, items: seq<Json>, depth: nat, close: string)
    requires |items| > 1
    ensures |ItemsText(l, items, depth)| ==
      |Gap(l, depth)| + |Text(l, items[0], depth)| + 1 + |ItemsText(l, items[1..], depth)|
    ensures ItemsText(l, items, depth) + close ==
      Gap(l, depth) + (Text(l, items[0], depth) + ([','] + (ItemsText(l, items[1..], depth) + close)))
  {
    hide Text, Gap, ItemsText;
    var gap, first, rest := Gap(l, depth), Text(l, items[0], depth), ItemsText(l, items[1..], depth);
    ItemsTextCons(l, items, depth);
    Reassociate(gap, first, ",", rest, close);
  }

  /** One item with the gap before it. */
  lemma {:induction false} ReadItem(l: Layout, v: Json, depth: nat, s: string, i: nat)
    requires At(s, i, Gap(l, depth)) && At(s, i + |Gap(l, depth)|, Text(l, v, depth))
    requires NumberStops(s, i + |Gap(l, depth)| + |Text(l, v, depth)|)
    ensures ReadValue(s, i) == Got(v, i + |Gap(l, depth)| + |Text(l, v, depth)|)
    decreases v, 2
  {
    hide At, Text, Gap, ReadValue, NumberStops;
    TextOpens(l, v, depth);
    AtHead(s, i + |Gap(l, depth)|, Text(l, v, depth));
    ReadAfterGap(s, i, l, depth);
    ReadBack(l, v, depth, s, i + |Gap(l, depth)|);
  }

  lemma {:induction false} ReadBackObject(l: Layout, members: seq<JMember>, depth: nat, s: string, i: nat)
    requires At(s, i, Text(l, JObj(members), depth))
    ensures ReadValue(s, i) == Got(JObj(members), i + |Text(l, JObj(members), depth)|)
    decreases JObj(members), 0
  {
    hide At, ReadMembers, ReadValue, Text, MembersText, SkipSpace, Gap;
    if members == [] {
      EmptyObject(l, depth, s, i);
    } else {
      var body, close := MembersText(l, members, depth + 1), Gap(l, depth) + "}";
      ObjectText(l, members, depth);
      AtParts(s, i, "{", body + close);
      AtHead(s, i, "{");
      SkipTo(s, i, i);
      MembersOpen(l, members, depth + 1, s, i + 1, close);
      ReadBackMembers(l, members, depth + 1, s, i + 1, depth);
      ObjectValue(s, i);
    }
  }

  lemma ObjectText(l: Layout, members: seq<JMember>, depth: nat)
    requires members != []
    ensures Text(l, JObj(members), depth) == "{" + (MembersText(l, members, depth + 1) + (Gap(l, depth) + "}"))
  {
  }

  lemma ObjectValue(s: string, i: nat)
    requires i < |s| && s[i] == '{' && SkipSpace(s, i) == i
    requires SkipSpace(s, i + 1) < |s| && s[SkipSpace(s, i + 1)] != '}' && ReadMembers(s, i + 1).Got?
    ensures var r := ReadMembers(s, i + 1); ReadValue(s, i) == Got(JObj(r.value), r.next)
  {
  }

  lemma QuoteOpens(l: Layout, t: string)
    ensures Quote(l, t) != "" && Quote(l, t)[0] == '"'
  {
  }

  /** A member's text is its gap, then a quote. */
  lemma MemberOpens(l: Layout, m: JMember, depth: nat, s: string, i: nat)
    requires At(s, i, MemberText(l, m, depth))
    ensures var q := i + |Gap(l, depth)|;
      SkipSpace(s, i) == q < |s| && s[q] == '"' && At(s, q, Quote(l, m.key) + Colon(l) + Text(l, m.value, depth))
  {
    hide At, Text, SkipSpace, Quote, Colon, Gap;
    var gap, rest := Gap(l, depth), Quote(l, m.key) + Colon(l) + Text(l, m.value, depth);
    assert MemberText(l, m, depth) == gap + rest;
    QuoteOpens(l, m.key);
    AtParts(s, i, gap, rest);
    AtHead(s, i + |gap|, rest);
    SkipGap(s, i, l, depth);
  }

  lemma MembersOpen(l: Layout, members: seq<JMember>, depth: nat, s: string, i: nat, after: string)
    requires members != [] && At(s, i, MembersText(l, members, depth) + after)
    ensures SkipSpace(s, i) < |s| && s[SkipSpace(s, i)] != '}'
  {
    hide At, MemberText;
    var first := MemberText(l, members[0], depth);
    var rest := MembersText(l, members, depth)[|first|..] + after;
    assert MembersText(l, members, depth) + after == first + rest;
    AtParts(s, i, first, rest);
    MemberOpens(l, members[0], depth, s, i);
  }

  /** The colon after a key, and the value after the colon's own space. */
  lemma ColonAt(l: Layout, s: string, c: nat, value: string)
    requires At(s, c, Colon(l) + value) && value != "" && OpensValue(value[0])
    ensures SkipSpace(s, c) == c < |s| && s[c] == ':'
    ensures c + |Colon(l)| <= |s| && ReadValue(s, c + 1) == ReadValue(s, c + |Colon(l)|)
    ensures At(s, c + |Colon(l)|, value)
  {
    hide At;
    AtParts(s, c, Colon(l), value);
    AtHead(s, c, Colon(l));
    AtHead(s, c + |Colon(l)|, value);
    OpensSolid(value[0]);
    SkipTo(s, c, c);
    var j := c + |Colon(l)|;
    if l == Pretty {
      AtParts(s, c, [':'], [' ']);
      AtHead(s, c + 1, [' ']);
    }
    SkipTo(s, c + 1, j);
    SkipTo(s, j, j);
  }

  lemma {:induction false} ReadBackMember(l: Layout, m: JMember, depth: nat, s: string, i: nat)
    requires At(s, i, MemberText(l, m, depth)) && NumberStops(s, i + |MemberText(l, m, depth)|)
    ensures ReadMember(s, i) == Got(m, i + |MemberText(l, m, depth)|)
    decreases m, 3
  {
    hide At, Text, Gap, ReadValue, NumberStops, Quote, ReadChars, Colon, SkipSpace;
    MemberOpens(l, m, depth, s, i);
    var q, key, value := i + |Gap(l, depth)|, Quote(l, m.key), Text(l, m.value, depth);
    assert key + Colon(l) + value == key + (Colon(l) + value);
    AtParts(s, q, key, Colon(l) + value);
    ReadQuoted(l, m.key, s, q);
    TextOpens(l, m.value, depth);
    ColonAt(l, s, q + |key|, value);
    ReadBack(l, m.value, depth, s, q + |key| + |Colon(l)|);
  }

  lemma LastMember(s: string, i: nat)
    requires i <= |s| && ReadMember(s, i).Got?
    requires var k := SkipSpace(s, ReadMember(s, i).next); k < |s| && s[k] == '}'
    ensures var m := ReadMember(s, i); ReadMembers(s, i) == Got([m.value], SkipSpace(s, m.next) + 1)
  {
    hide ReadMember, SkipSpace;
  }

  lemma MoreMembers(s: string, i: nat)
    requires i <= |s| && ReadMember(s, i).Got?
    requires var k := SkipSpace(s, ReadMember(s, i).next); k < |s| && s[k] == ',' && ReadMembers(s, k + 1).Got?
    ensures var m := ReadMember(s, i);
      var rest := ReadMembers(s, SkipSpace(s, m.next) + 1);
      ReadMembers(s, i) == Got([m.value] + rest.value, rest.next)
  {
    hide ReadMember, SkipSpace;
  }

  lemma {:induction false} ReadLastMember(l: Layout, members: seq<JMember>, depth: nat, s: string, i: nat, outer: nat)
    requires |members| == 1 && At(s, i, MembersText(l, members, depth) + (Gap(l, outer) + "}"))
    ensures ReadMembers(s, i) == Got(members, i + |MembersText(l, members, depth)| + |Gap(l, outer)| + 1)
    decreases members, 0
  {
    hide At, MemberText, Gap, ReadMember, ReadMembers, SkipSpace;
    var first, close := MemberText(l, members[0], depth), Gap(l, outer) + "}";
    assert MembersText(l, members, depth) == first by { assert first + "" == first; }
    AtParts(s, i, first, close);
    ClosesAt(s, i + |first|, l, outer, '}');
    ReadBackMember(l, members[0], depth, s, i);
    LastMember(s, i);
    assert members == [members[0]];
  }

  lemma CommaFollows(s: string, i: nat, first: string, more: string, close: string)
    requires At(s, i, first + ("," + more) + close)
    ensures At(s, i, first) && At(s, i + |first|, ",") && At(s, i + |first| + 1, more + close)
  {
    hide At;
    Associate(first, "," + more, close);
    Associate(",", more, close);
    AtParts(s, i, first, "," + (more + close));
    AtParts(s, i + |first|, ",", more + close);
  }

  lemma CommaStops(s: string, j: nat)
    requires At(s, j, ",")
    ensures j < |s| && s[j] == ',' && NumberStops(s, j) && SkipSpace(s, j) == j
  {
    AtHead(s, j, ",");
    SkipTo(s, j, j);
  }

  /** A member before others: a comma follows it, and then the others. */
  lemma MemberFollowed(l: Layout, members: seq<JMember>, depth: nat, s: string, i: nat, outer: nat)
    requires |members| > 1 && At(s, i, MembersText(l, members, depth) + (Gap(l, outer) + "}"))
    ensures var j := i + |MemberText(l, members[0], depth)|;
      && At(s, i, MemberText(l, members[0], depth)) &&
        NumberStops(s, j) && j < |s| && s[j] == ',' && SkipSpace(s, j) == j
      && At(s, j + 1, MembersText(l, members[1..], depth) + (Gap(l, outer) + "}"))
      && i + |MembersText(l, members, depth)| == j + 1 + |MembersText(l, members[1..], depth)|
  {
    var first, more, close :=
      MemberText(l, members[0], depth), MembersText(l, members[1..], depth), Gap(l, outer) + "}";
    assert MembersText(l, members, depth) == first + ("," + more);
    hide At, MemberText, MembersText, Gap;
    CommaFollows(s, i, first, more, close);
    CommaStops(s, i + |first|);
  }

  lemma {:induction false} ReadBackMembers(l: Layout, members: seq<JMember>, depth: nat, s: string, i: nat, outer: nat)
    requires members != [] && At(s, i, MembersText(l, members, depth) + (Gap(l, outer) + "}"))
    ensures ReadMembers(s, i) == Got(members, i + |MembersText(l, members, depth)| + |Gap(l, outer)| + 1)
    decreases members, 1
  {
    hide At, MemberText, MembersText, Gap, ReadMember, ReadMembers, SkipSpace, NumberStops;
    if |members| == 1 {
      ReadLastMember(l, members, depth, s, i, outer);
    } else {
      MemberFollowed(l, members, depth, s, i, outer);
      ReadBackMember(l, members[0], depth, s, i);
      ReadBackMembers(l, members[1..], depth, s, i + |MemberText(l, members[0], depth)| + 1, outer);
      MoreMembers(s, i);
      assert members == [members[0]] + members[1..];
    }
  }

  /** Reading a written document gives it back, whichever the layout. */
  lemma RoundTrip(l: Layout, v: Json)
    ensures ReadText(Text(l, v, 0)) == Some(v)
  {
    var s := Text(l, v, 0);
    assert At(s, 0, s);
    hide Text, ReadValue, At;
    ReadBack(l, v, 0, s, 0);
    SkipTo(s, |s|, |s|);
  }

  /** So a written text determines its document. */
  /** The canonical form of a float reads back as that float, never as an integer, so it
      determines it. */
  lemma FloatReads(v: Float)
    ensures ReadText(FormatFloatCanonical(v)) == Some(JReal(v))
  {
    RoundTrip(Compact, JReal(v));
  }

  lemma TextInjective(l: Layout, v: Json, w: Json)
    requires Text(l, v, 0) == Text(l, w, 0)
    ensures v == w
  {
    RoundTrip(l, v);
    RoundTrip(l, w);
  }
}
