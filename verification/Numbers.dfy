/** Numbers as text: decimal integers, and the canonical form of a float. */
module Numbers {
  import opened Names

  // --- Decimal integers --------------------------------------------------------------

  predicate IsDigit(c: char) {
    '0' <= c <= '9'
  }

  function DigitChar(d: nat): (c: char)
    requires d < 10
    ensures IsDigit(c) && c as int - '0' as int == d
  {
    "0123456789"[d]
  }

  function Digits(n: nat): (r: string)
    ensures r != "" && forall c :: c in r ==> '0' <= c <= '9'
    ensures n > 0 ==> r[0] != '0'
  {
    if n < 10 then [DigitChar(n)] else Digits(n / 10) + [DigitChar(n % 10)]
  }

  function Itoa(n: int): string {
    if n < 0 then "-" + Digits(-n) else Digits(n)
  }

  predicate AllDigits(s: string) {
    forall k :: 0 <= k < |s| ==> IsDigit(s[k])
  }

  function DigitsValue(s: string): nat
    requires AllDigits(s)
  {
    if s == "" then 0
    else
      assert IsDigit(s[|s| - 1]);
      DigitsValue(s[..|s| - 1]) * 10 + (s[|s| - 1] as int - '0' as int)
  }

  lemma {:induction false} DigitsBack(n: nat)
    ensures AllDigits(Digits(n)) && DigitsValue(Digits(n)) == n
  {
    var r := Digits(n);
    assert AllDigits(r) by {
      forall k | 0 <= k < |r| ensures IsDigit(r[k]) {
        assert r[k] in r;
      }
    }
    if n < 10 {
      assert r[..0] == "";
    } else {
      DigitsBack(n / 10);
      assert r[..|r| - 1] == Digits(n / 10);
    }
  }

  // --- Floats ---------------------------------------------------------------------------

  /** A sign and 0.digits times ten to the point. */
  datatype Decimal = Decimal(negative: bool, digits: string, point: int)

  /** The shortest digits that name the number: none at all for zero, and otherwise no zero at
      either end. */
  predicate Shortest(d: Decimal) {
    && AllDigits(d.digits)
    && (d.digits == "" ==> d.point == 0)
    && (d.digits != "" ==> d.digits[0] != '0' && d.digits[|d.digits| - 1] != '0')
  }

  /** A finite float, as the shortest decimal that reads back as it. */
  type Float = d: Decimal | Shortest(d) witness Decimal(false, "", 0)

  function Zeros(n: nat): (r: string)
    ensures |r| == n && forall k :: 0 <= k < n ==> r[k] == '0'
  {
    if n == 0 then "" else "0" + Zeros(n - 1)
  }

  function Sign(negative: bool): string {
    if negative then "-" else ""
  }

  /** The digits of a whole float, the zeros up to the point written out. */
  function WholeText(v: Float): (s: string)
    requires v.digits != "" && v.point >= |v.digits|
    ensures AllDigits(s) && |s| == v.point && s[0] != '0'
  {
    v.digits + Zeros(v.point - |v.digits|)
  }

  /** strconv's 'f' notation at the shortest precision. */
  function FormatF(v: Float): string
    requires v.digits != ""
  {
    Sign(v.negative) +
    if v.point <= 0 then "0." + Zeros(-v.point) + v.digits
    else if v.point >= |v.digits| then WholeText(v)
    else v.digits[..v.point] + "." + v.digits[v.point..]
  }

  /** strconv pads an exponent to two digits. */
  function Padded(n: nat): string {
    if n < 10 then "0" + Digits(n) else Digits(n)
  }

  function ExponentSign(x: int): string {
    if x < 0 then "-" else "+"
  }

  function Magnitude(x: int): nat {
    if x < 0 then -x else x
  }

  function Fraction(digits: string): string {
    if digits == "" then "" else "." + digits
  }

  function Mantissa(v: Float): string
    requires v.digits != ""
  {
    Sign(v.negative) + v.digits[..1] + Fraction(v.digits[1..])
  }

  /** strconv's 'e' notation at the shortest precision. */
  function FormatE(v: Float): string
    requires v.digits != ""
  {
    Mantissa(v) + "e" + (ExponentSign(v.point - 1) + Padded(Magnitude(v.point - 1)))
  }

  /** strings.IndexByte, where the byte occurs. */
  function IndexByte(s: string, c: char): (k: nat)
    requires c in s
    ensures k < |s| && s[k] == c && forall j :: 0 <= j < k ==> s[j] != c
  {
    if s[0] == c then 0 else 1 + IndexByte(s[1..], c)
  }

  /** strings.TrimLeft of zeros. */
  function TrimZeros(s: string): string {
    if s != "" && s[0] == '0' then TrimZeros(s[1..]) else s
  }

  /** formatFloatCanonical. The magnitude is at least 1e-6 when the point is -5 or more, and
      below 1e21 when it is 21 or less. */
  function FormatFloatCanonical(v: Float): string {
    if v.digits == "" then Sign(v.negative) + "0.0"
    else if -5 <= v.point <= 21 then
      var s := FormatF(v);
      if '.' in s then s else s + ".0"
    else
      var s := FormatE(v);
      assert 'e' in s by { ExponentMarked(v); }
      var k := IndexByte(s, 'e');
      var mantissa, exponent := s[..k], s[k + 1..];
      assert exponent != "" by { ExponentAt(v); }
      var digits := TrimZeros(exponent[1..]);
      mantissa + "e" + [exponent[0]] + if digits == "" then "0" else digits
  }

  lemma ExponentMarked(v: Float)
    requires v.digits != ""
    ensures 'e' in FormatE(v)
  {
    hide Mantissa, ExponentSign, Padded;
    assert FormatE(v)[|Mantissa(v)|] == 'e';
  }

  /** The exponent follows the mantissa, which has no 'e' of its own. */
  lemma ExponentAt(v: Float)
    requires v.digits != ""
    ensures 'e' in FormatE(v)
    ensures var s := FormatE(v); var k := IndexByte(s, 'e');
      s[..k] == Mantissa(v) && s[k + 1..] == ExponentSign(v.point - 1) + Padded(Magnitude(v.point - 1))
  {
    var m, tail := Mantissa(v), ExponentSign(v.point - 1) + Padded(Magnitude(v.point - 1));
    forall j | 0 <= j < |m| ensures m[j] != 'e' {
      MantissaChars(v, j);
    }
    assert FormatE(v) == m + "e" + tail;
    hide FormatE, Mantissa, ExponentSign, Padded;
    MarkSplits(m, 'e', tail);
  }

  lemma MarkSplits(before: string, mark: char, after: string)
    requires forall j :: 0 <= j < |before| ==> before[j] != mark
    ensures var s := before + [mark] + after;
      mark in s && s[..IndexByte(s, mark)] == before && s[IndexByte(s, mark) + 1..] == after
  {
    var s := before + [mark] + after;
    assert s[|before|] == mark;
    assert forall j :: 0 <= j < |before| ==> s[j] == before[j];
    assert IndexByte(s, mark) == |before|;
  }

  lemma MantissaChars(v: Float, j: nat)
    requires v.digits != "" && j < |Mantissa(v)|
    ensures Mantissa(v)[j] != 'e'
  {
    var a, b := Sign(v.negative) + v.digits[..1], Fraction(v.digits[1..]);
    if j < |a| {
      assert Mantissa(v)[j] == a[j];
    } else {
      assert Mantissa(v)[j] == b[j - |a|];
    }
  }

  // --- The parts of the canonical form ------------------------------------------------------

  /** The digits before the point and behind it, in fixed notation. */
  function WholePart(v: Float): string {
    if v.digits == "" || v.point <= 0 then "0"
    else if v.point >= |v.digits| then WholeText(v)
    else v.digits[..v.point]
  }

  function FractionPart(v: Float): string {
    if v.digits == "" then "0"
    else if v.point <= 0 then Zeros(-v.point) + v.digits
    else if v.point >= |v.digits| then "0"
    else v.digits[v.point..]
  }

  predicate IsFixed(v: Float) {
    v.digits == "" || -5 <= v.point <= 21
  }

  lemma FixedForm(v: Float)
    requires IsFixed(v)
    ensures FormatFloatCanonical(v) == Sign(v.negative) + WholePart(v) + "." + FractionPart(v)
  {
    if v.digits == "" {
      Associate(Sign(v.negative), "0", ".0");
      Associate(Sign(v.negative) + "0", ".", "0");
    } else if v.point <= 0 {
      SmallForm(v);
    } else if v.point >= |v.digits| {
      WholeForm(v);
    } else {
      MixedForm(v);
    }
  }

  lemma SmallForm(v: Float)
    requires v.digits != "" && -5 <= v.point <= 0
    ensures FormatFloatCanonical(v) == Sign(v.negative) + WholePart(v) + "." + FractionPart(v)
  {
    var sign, f := Sign(v.negative), Zeros(-v.point) + v.digits;
    assert FormatF(v) == sign + ("0." + f) by { Associate("0.", Zeros(-v.point), v.digits); }
    hide FormatF, Zeros;
    assert "0." + f == "0" + ("." + f);
    Associate(sign, "0", "." + f);
    Associate(sign + "0", ".", f);
    assert (sign + "0" + ("." + f))[|sign| + 1] == '.';
  }

  lemma WholeForm(v: Float)
    requires v.digits != "" && |v.digits| <= v.point <= 21
    ensures FormatFloatCanonical(v) == Sign(v.negative) + WholePart(v) + "." + FractionPart(v)
  {
    NoPoint(v);
    assert FormatF(v) == Sign(v.negative) + WholePart(v);
    hide FormatF, WholePart;
    assert ".0" == "." + "0";
    Associate(Sign(v.negative) + WholePart(v), ".", "0");
  }

  lemma MixedForm(v: Float)
    requires v.digits != "" && 0 < v.point < |v.digits| && v.point <= 21
    ensures FormatFloatCanonical(v) == Sign(v.negative) + WholePart(v) + "." + FractionPart(v)
  {
    var sign, w, f := Sign(v.negative), v.digits[..v.point], v.digits[v.point..];
    assert FormatF(v) == sign + (w + "." + f);
    hide FormatF;
    Associate(sign, w + ".", f);
    Associate(sign, w, ".");
    assert (sign + w + "." + f)[|sign| + |w|] == '.';
  }

  lemma NoPoint(v: Float)
    requires v.digits != "" && v.point >= |v.digits|
    ensures '.' !in Sign(v.negative) + WholePart(v)
  {
    var w := WholePart(v);
    forall k | 0 <= k < |w| ensures w[k] != '.' {
      if k < |v.digits| { assert w[k] == v.digits[k]; }
    }
  }

  lemma {:induction false} TrimNothing(s: string)
    requires s != "" && s[0] != '0'
    ensures TrimZeros(s) == s && TrimZeros("0" + s) == s
  {
    assert ("0" + s)[1..] == s;
  }

  lemma ScientificForm(v: Float)
    requires !IsFixed(v)
    ensures var x := v.point - 1;
      x != 0 && FormatFloatCanonical(v) == Mantissa(v) + "e" + ExponentSign(x) + Digits(Magnitude(x))
  {
    var x := v.point - 1;
    ExponentAt(v);
    TrimNothing(Digits(Magnitude(x)));
    var tail := ExponentSign(x) + Padded(Magnitude(x));
    assert tail[1..] == Padded(Magnitude(x)) && [tail[0]] == ExponentSign(x);
  }

  // --- The decimal a literal names --------------------------------------------------------------

  /** Zeros taken off the front, each one moving the point. */
  function StripFront(negative: bool, digits: string, point: int): Decimal {
    if digits != "" && digits[0] == '0' then StripFront(negative, digits[1..], point - 1)
    else Decimal(negative, digits, point)
  }

  function StripBack(d: Decimal): Decimal
    decreases |d.digits|
  {
    if d.digits != "" && d.digits[|d.digits| - 1] == '0' then StripBack(d.(digits := d.digits[..|d.digits| - 1]))
    else if d.digits == "" then d.(point := 0)
    else d
  }

  lemma {:induction false} StrippedFront(negative: bool, digits: string, point: int)
    requires AllDigits(digits)
    ensures var d := StripFront(negative, digits, point);
      AllDigits(d.digits) && d.negative == negative && (d.digits != "" ==> d.digits[0] != '0')
    decreases |digits|
  {
    if digits != "" && digits[0] == '0' { StrippedFront(negative, digits[1..], point - 1); }
  }

  lemma {:induction false} StrippedBack(d: Decimal)
    requires AllDigits(d.digits) && (d.digits != "" ==> d.digits[0] != '0')
    ensures Shortest(StripBack(d))
    decreases |d.digits|
  {
    if d.digits != "" && d.digits[|d.digits| - 1] == '0' { StrippedBack(d.(digits := d.digits[..|d.digits| - 1])); }
  }

  /** The number of a literal with these digits before and behind the point and this exponent. */
  function Normal(negative: bool, whole: string, fraction: string, exponent: int): (d: Float)
    requires AllDigits(whole) && AllDigits(fraction)
  {
    StrippedFront(negative, whole + fraction, |whole| + exponent);
    StrippedBack(StripFront(negative, whole + fraction, |whole| + exponent));
    StripBack(StripFront(negative, whole + fraction, |whole| + exponent))
  }

  lemma {:induction false} FrontZeros(negative: bool, n: nat, digits: string, point: int)
    requires digits == "" || digits[0] != '0'
    ensures StripFront(negative, Zeros(n) + digits, point) == Decimal(negative, digits, point - n)
  {
    if n == 0 {
      assert Zeros(0) + digits == digits;
    } else {
      assert (Zeros(n) + digits)[1..] == Zeros(n - 1) + digits;
      FrontZeros(negative, n - 1, digits, point - 1);
    }
  }

  lemma {:induction false} BackZeros(d: Decimal, n: nat)
    requires d.digits != "" && d.digits[|d.digits| - 1] != '0'
    ensures StripBack(d.(digits := d.digits + Zeros(n))) == d
  {
    var all := d.digits + Zeros(n);
    if n == 0 {
      assert all == d.digits;
    } else {
      assert all[..|all| - 1] == d.digits + Zeros(n - 1);
      BackZeros(d, n - 1);
    }
  }

  /** The parts of fixed notation name the float they came from. */
  lemma FixedNames(v: Float)
    requires IsFixed(v)
    ensures AllDigits(WholePart(v)) && AllDigits(FractionPart(v))
    ensures Normal(v.negative, WholePart(v), FractionPart(v), 0) == v
  {
    if v.digits == "" {
      ZeroNames(v);
    } else if v.point <= 0 {
      SmallNames(v);
    } else if v.point >= |v.digits| {
      WholeNames(v);
    } else {
      MixedNames(v);
    }
  }

  lemma ZeroNames(v: Float)
    requires v.digits == ""
    ensures Normal(v.negative, "0", "0", 0) == v && WholePart(v) == "0"
  {
    assert "0" + "0" == Zeros(2) + "";
    FrontZeros(v.negative, 2, "", 1);
  }

  lemma SmallNames(v: Float)
    requires v.digits != "" && v.point <= 0
    ensures AllDigits(Zeros(-v.point) + v.digits) && Normal(v.negative, "0", Zeros(-v.point) + v.digits, 0) == v
  {
    assert "0" + (Zeros(-v.point) + v.digits) == Zeros(1 - v.point) + v.digits;
    FrontZeros(v.negative, 1 - v.point, v.digits, 1);
  }

  lemma WholeNames(v: Float)
    requires v.digits != "" && v.point >= |v.digits|
    ensures Normal(v.negative, WholeText(v), "0", 0) == v
  {
    OneMoreZero(v.digits, v.point - |v.digits|);
    BackZeros(v, v.point - |v.digits| + 1);
    assert WholeText(v) + "0" == v.digits + Zeros(v.point - |v.digits| + 1);
    hide Zeros, StripBack, AllDigits, WholeText;
    NormalStays(v.negative, WholeText(v), "0");
  }

  lemma OneMoreZero(digits: string, n: nat)
    ensures digits + Zeros(n) + "0" == digits + Zeros(n + 1)
  {
    ZerosSnoc(n);
    hide Zeros;
    Associate(digits, Zeros(n), "0");
  }

  /** Digits that do not open with a zero lose none in front. */
  lemma NormalStays(negative: bool, whole: string, fraction: string)
    requires whole != "" && whole[0] != '0' && AllDigits(whole) && AllDigits(fraction)
    ensures Normal(negative, whole, fraction, 0) == StripBack(Decimal(negative, whole + fraction, |whole|))
  {
    hide StripBack;
  }

  lemma ZerosSnoc(n: nat)
    ensures Zeros(n) + "0" == Zeros(n + 1)
  {
  }

  lemma MixedNames(v: Float)
    requires 0 < v.point < |v.digits|
    ensures AllDigits(v.digits[..v.point]) && AllDigits(v.digits[v.point..])
    ensures Normal(v.negative, v.digits[..v.point], v.digits[v.point..], 0) == v
  {
    assert v.digits[..v.point] + v.digits[v.point..] == v.digits;
  }

  lemma ScientificNames(v: Float)
    requires v.digits != ""
    ensures AllDigits(v.digits[..1]) && AllDigits(v.digits[1..])
    ensures Normal(v.negative, v.digits[..1], v.digits[1..], v.point - 1) == v
  {
    assert v.digits[..1] + v.digits[1..] == v.digits;
  }

  // --- Whole floats --------------------------------------------------------------------------

  /** A whole number with a magnitude below 1e15. */
  predicate SmallWhole(v: Float) {
    v.digits == "" || |v.digits| <= v.point <= 15
  }

  /** int64 of a whole float. */
  function IntOf(v: Float): int
    requires SmallWhole(v)
  {
    if v.digits == "" then 0
    else
      var n: int := DigitsValue(WholeText(v));
      if v.negative then -n else n
  }

  lemma {:induction false} ValueDigits(s: string)
    requires AllDigits(s) && s != "" && s[0] != '0'
    ensures DigitsValue(s) > 0 && Digits(DigitsValue(s)) == s
    decreases |s|
  {
    var front, last := s[..|s| - 1], s[|s| - 1];
    assert IsDigit(last);
    if front == "" {
      assert s == [last];
      assert DigitsValue(front) == 0;
    } else {
      ValueDigits(front);
      assert s == front + [last];
      var n := DigitsValue(s);
      assert n / 10 == DigitsValue(front) && n % 10 == last as int - '0' as int;
    }
  }

  /** Small whole floats of one value are one float, or the two zeros. */
  lemma WholeInjective(f: Float, g: Float)
    requires SmallWhole(f) && SmallWhole(g)
    ensures IntOf(f) == IntOf(g) <==> f == g || (f.digits == "" && g.digits == "")
  {
    if f.digits != "" { WholeDigits(f); }
    if g.digits != "" { WholeDigits(g); }
    if f.digits != "" && g.digits != "" && IntOf(f) == IntOf(g) { SameWhole(f, g); }
  }

  lemma SameWhole(f: Float, g: Float)
    requires SmallWhole(f) && SmallWhole(g) && f.digits != "" && g.digits != "" && IntOf(f) == IntOf(g)
    ensures f == g
  {
    WholeDigits(f);
    WholeDigits(g);
    hide WholeText, Digits, DigitsValue, StripBack, AllDigits;
    assert f.negative == g.negative && DigitsValue(WholeText(f)) == DigitsValue(WholeText(g));
    assert WholeText(f) == WholeText(g);
  }

  /** The digits give the value, and the value the digits; without its zeros the text is the float. */
  lemma WholeDigits(f: Float)
    requires SmallWhole(f) && f.digits != ""
    ensures DigitsValue(WholeText(f)) > 0 && Digits(DigitsValue(WholeText(f))) == WholeText(f)
    ensures StripBack(Decimal(f.negative, WholeText(f), |WholeText(f)|)) == f
  {
    ValueDigits(WholeText(f));
    BackZeros(f, f.point - |f.digits|);
  }

  // --- The characters of a number -----------------------------------------------------------

  predicate NumberText(s: string) {
    forall k :: 0 <= k < |s| ==> IsDigit(s[k]) || s[k] == '-' || s[k] == '+' || s[k] == '.' || s[k] == 'e'
  }

  lemma NumberConcat(a: string, b: string)
    requires NumberText(a) && NumberText(b)
    ensures NumberText(a + b)
  {
  }

  lemma DigitsAreNumber(s: string)
    requires AllDigits(s)
    ensures NumberText(s)
  {
  }

  lemma SignIsNumber(negative: bool)
    ensures NumberText(Sign(negative)) && NumberText(".") && NumberText("e") && NumberText("+") && NumberText("-")
    ensures NumberText("")
  {
  }

  lemma ItoaIsNumber(n: int)
    ensures NumberText(Itoa(n)) && Itoa(n) != ""
  {
    DigitsBack(if n < 0 then -n else n);
  }

  lemma FloatIsNumber(f: Float)
    ensures NumberText(FormatFloatCanonical(f)) && FormatFloatCanonical(f) != ""
  {
    if IsFixed(f) {
      FixedForm(f);
      FixedNames(f);
      hide NumberText, AllDigits, FormatFloatCanonical, Normal;
      SignIsNumber(f.negative);
      DigitsAreNumber(WholePart(f));
      DigitsAreNumber(FractionPart(f));
      NumberConcat(Sign(f.negative), WholePart(f));
      NumberConcat(Sign(f.negative) + WholePart(f), ".");
      NumberConcat(Sign(f.negative) + WholePart(f) + ".", FractionPart(f));
    } else {
      ScientificForm(f);
      ScientificIsNumber(f);
    }
  }

  lemma ScientificIsNumber(f: Float)
    requires f.digits != ""
    ensures var x := f.point - 1; NumberText(Mantissa(f) + "e" + ExponentSign(x) + Digits(Magnitude(x)))
  {
    var x := f.point - 1;
    DigitsBack(Magnitude(x));
    ScientificNames(f);
    hide NumberText, AllDigits, Normal, Digits;
    SignIsNumber(f.negative);
    DigitsAreNumber(f.digits[..1]);
    DigitsAreNumber(f.digits[1..]);
    DigitsAreNumber(Digits(Magnitude(x)));
    NumberConcat(".", f.digits[1..]);
    NumberConcat(Sign(f.negative), f.digits[..1]);
    NumberConcat(Sign(f.negative) + f.digits[..1], Fraction(f.digits[1..]));
    NumberConcat(Mantissa(f), "e");
    NumberConcat(Mantissa(f) + "e", ExponentSign(x));
    NumberConcat(Mantissa(f) + "e" + ExponentSign(x), Digits(Magnitude(x)));
  }
}
