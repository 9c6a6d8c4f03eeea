/** The real number a float stands for, and where the two notations part. */
module NumberValues {
  import opened Numbers

  ghost function Pow10(n: int): (r: real)
    ensures r > 0.0
    decreases if n < 0 then -n else n
  {
    if n == 0 then 1.0 else if n > 0 then 10.0 * Pow10(n - 1) else Pow10(n + 1) / 10.0
  }

  ghost function Ten(n: nat): nat {
    if n == 0 then 1 else 10 * Ten(n - 1)
  }

  /** d times ten to the e. */
  ghost function Scientific(d: nat, e: int): real {
    d as real * Pow10(e)
  }

  /** How far from zero: 0.digits times ten to the point. */
  ghost function Absolute(v: Float): real {
    Scientific(DigitsValue(v.digits), v.point - |v.digits|)
  }

  lemma PowUp(n: int)
    ensures Pow10(n + 1) == 10.0 * Pow10(n)
  {
  }

  lemma {:induction false} PowGrows(m: int, n: int)
    requires m <= n
    ensures Pow10(m) <= Pow10(n)
    decreases n - m
  {
    if m < n {
      PowGrows(m, n - 1);
      PowUp(n - 1);
    }
  }

  lemma {:induction false} TenScales(k: nat, m: int)
    ensures Scientific(Ten(k), m - k) == Pow10(m)
  {
    if k > 0 {
      TenScales(k - 1, m);
      PowUp(m - k);
      Product(Ten(k - 1) as real, Pow10(m - k));
      assert Ten(k) as real == 10.0 * Ten(k - 1) as real;
    }
  }

  lemma Product(a: real, b: real)
    ensures 10.0 * a * b == a * (10.0 * b)
  {
  }

  lemma {:induction false} DigitsBounds(s: string)
    requires AllDigits(s)
    ensures DigitsValue(s) < Ten(|s|)
    ensures s != "" && s[0] != '0' ==> Ten(|s| - 1) <= DigitsValue(s)
    decreases |s|
  {
    if s != "" {
      var front := s[..|s| - 1];
      assert IsDigit(s[|s| - 1]);
      DigitsBounds(front);
      if |s| == 1 { assert front == "" && IsDigit(s[0]); }
    }
  }

  lemma Scaled(a: nat, b: nat, e: int)
    ensures a <= b ==> Scientific(a, e) <= Scientific(b, e)
    ensures a < b ==> Scientific(a, e) < Scientific(b, e)
  {
    if a <= b {
      var p := Pow10(e);
      var d := (b - a) as real;
      assert b as real * p == a as real * p + d * p;
    }
  }

  /** A float that is not zero lies between two powers of ten. */
  lemma Lies(v: Float)
    requires v.digits != ""
    ensures Pow10(v.point - 1) <= Absolute(v) < Pow10(v.point)
  {
    DigitsBounds(v.digits);
    hide DigitsValue, AllDigits, Pow10, Ten, Scientific;
    Between(DigitsValue(v.digits), |v.digits|, v.point);
  }

  lemma Between(d: nat, n: nat, point: int)
    requires n > 0 && Ten(n - 1) <= d < Ten(n)
    ensures Pow10(point - 1) <= Scientific(d, point - n) < Pow10(point)
  {
    hide Pow10, Ten, Scientific;
    TenScales(n, point);
    TenScales(n - 1, point - 1);
    assert point - 1 - (n - 1) == point - n;
    Scaled(Ten(n - 1), d, point - n);
    Scaled(d, Ten(n), point - n);
  }

  lemma Powers()
    ensures Pow10(-6) == 0.000001 && Pow10(15) == 1000000000000000.0 && Pow10(21) == 1000000000000000000000.0
  {
    assert Pow10(-3) == 0.001;
    assert Pow10(5) == 100000.0;
    assert Pow10(10) == 10000000000.0;
  }

  /** Fixed notation is for zero and for magnitudes from 1e-6 up to 1e21. */
  lemma FixedMeans(v: Float)
    ensures IsFixed(v) <==>
      Absolute(v) == 0.0 || 0.000001 <= Absolute(v) < 1000000000000000000000.0
  {
    Powers();
    if v.digits != "" {
      Lies(v);
      if v.point >= -5 { PowGrows(-6, v.point - 1); } else { PowGrows(v.point, -6); }
      if v.point <= 21 { PowGrows(v.point, 21); } else { PowGrows(21, v.point - 1); }
    }
  }

  lemma ZeroBehind(s: string)
    requires AllDigits(s)
    ensures AllDigits(s + "0") && DigitsValue(s + "0") == DigitsValue(s) * 10
  {
    var t := s + "0";
    assert t[..|t| - 1] == s && t[|t| - 1] == '0';
  }

  lemma {:induction false} ZerosScale(s: string, n: nat)
    requires AllDigits(s)
    ensures AllDigits(s + Zeros(n)) && DigitsValue(s + Zeros(n)) == DigitsValue(s) * Ten(n)
  {
    if n == 0 {
      assert s + Zeros(0) == s;
    } else {
      ZerosScale(s, n - 1);
      OneMoreZero(s, n - 1);
      ZeroBehind(s + Zeros(n - 1));
      TenMore(DigitsValue(s), n);
      hide AllDigits, DigitsValue, Zeros, Ten;
    }
  }

  predicate Whole(r: real) {
    r == r.Floor as real
  }

  lemma TenMore(d: nat, n: nat)
    requires n > 0
    ensures d * Ten(n - 1) * 10 == d * Ten(n)
  {
  }

  /** A float whose digits end behind the point is no whole number. */
  lemma NotWhole(v: Float)
    requires v.digits != "" && v.point < |v.digits|
    ensures !Whole(Absolute(v))
  {
    var k: nat, d := |v.digits| - v.point, DigitsValue(v.digits);
    assert d % 10 != 0 by { LastDigit(v.digits); }
    hide DigitsValue, AllDigits, Ten;
    TenScales(k, 0);
    Lies(v);
    if Whole(Absolute(v)) {
      var n: nat := Absolute(v).Floor;
      assert Pow10(0) == 1.0;
      Cancel(d, Ten(k), n, Pow10(0 - k));
      Divisible(n, k);
    }
  }

  lemma Cancel(d: nat, t: nat, n: nat, p: real)
    requires p > 0.0 && t as real * p == 1.0 && d as real * p == n as real
    ensures d == n * t
  {
    var x, y, z := d as real, t as real, n as real;
    assert y * p == 1.0 && x * (y * p) == x;
    assert x * (y * p) == (x * p) * y;
    assert (n * t) as real == z * y;
  }

  lemma Divisible(n: nat, k: nat)
    requires k > 0
    ensures n * Ten(k) % 10 == 0
  {
    var m := n * Ten(k - 1);
    assert n * Ten(k) == 10 * m;
  }

  lemma LastDigit(s: string)
    requires AllDigits(s) && s != "" && s[|s| - 1] != '0'
    ensures DigitsValue(s) % 10 != 0
  {
    assert IsDigit(s[|s| - 1]);
  }

  /** A float counts as a small whole number exactly when its value is one, below 1e15. */
  lemma SmallWholeMeans(v: Float)
    ensures SmallWhole(v) <==> Absolute(v) < 1000000000000000.0 && Whole(Absolute(v))
    ensures SmallWhole(v) ==>
      IntOf(v) as real == if v.negative then -Absolute(v) else Absolute(v)
  {
    Powers();
    if v.digits != "" {
      Lies(v);
      if v.point <= 15 { PowGrows(v.point, 15); } else { PowGrows(15, v.point - 1); }
      if v.point < |v.digits| {
        NotWhole(v);
      } else {
        WholeMeans(v);
      }
    } else {
      assert Absolute(v) == 0 as real;
    }
  }

  lemma WholeMeans(v: Float)
    requires v.digits != "" && v.point >= |v.digits|
    ensures Absolute(v) == DigitsValue(WholeText(v)) as real
  {
    var k: nat := v.point - |v.digits|;
    ZerosScale(v.digits, k);
    hide AllDigits, DigitsValue, Zeros, Ten, Scientific, Pow10;
    ScientificWhole(DigitsValue(v.digits), k);
  }

  lemma ScientificWhole(d: nat, k: nat)
    ensures Scientific(d, k) == (d * Ten(k)) as real
  {
    TenScales(k, k);
    assert Pow10(0) == 1.0;
    hide Pow10, Ten;
    RealProduct(d, Ten(k));
  }

  lemma RealProduct(a: nat, b: nat)
    ensures (a * b) as real == a as real * b as real
  {
  }

}
