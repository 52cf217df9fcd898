/** Day-folder names: calendar dates in the extended format of ISO 8601:2004,
    section 4.1.2.2 (`YYYY-MM-DD`, every field zero-padded). The retention
    code compares these names as plain strings; this module shows that for
    such names the string order is the chronological order. */
module IsoDate {
  import opened Strings
  import opened Ordering

  function Pow10(n: nat): (p: nat)
    ensures p >= 1
  {
    if n == 0 then 1 else 10 * Pow10(n - 1)
  }

  lemma ShiftDigit(d: int, p: int, m: int)
    ensures (d * p + m) * 10 == d * (10 * p) + m * 10
  {
  }

  lemma {:induction false} DigitsValueFront(s: string)
    requires AllDigits(s) && |s| > 0
    ensures DigitsValue(s) == DigitValue(s[0]) * Pow10(|s| - 1) + DigitsValue(s[1..])
    decreases |s|
  {
    var n := |s|;
    if n > 1 {
      var init := s[..n - 1];
      DigitsValueFront(init);
      assert init[0] == s[0];
      assert init[1..] == s[1..][..n - 2];
      assert s[1..][n - 2] == s[n - 1];
      var d0, p, m, last := DigitValue(s[0]), Pow10(n - 2), DigitsValue(init[1..]), DigitValue(s[n - 1]);
      assert DigitsValue(s) == DigitsValue(init) * 10 + last;
      assert DigitsValue(s[1..]) == m * 10 + last;
      assert Pow10(n - 1) == 10 * p;
      ShiftDigit(d0, p, m);
    } else {
      assert s[..0] == [];
    }
  }

  lemma {:induction false} DigitsValueBound(s: string)
    requires AllDigits(s)
    ensures DigitsValue(s) < Pow10(|s|)
    decreases |s|
  {
    if |s| > 0 {
      DigitsValueBound(s[..|s| - 1]);
    }
  }

  lemma MulMono(a: nat, b: nat, p: nat)
    requires a <= b
    ensures a * p <= b * p
  {
  }

  /** Comparing `a * p + r1` with `b * p + r2`, lower parts below `p`, is
      comparing `(a, r1)` with `(b, r2)` lexicographically. */
  lemma PositionalCompare(a: nat, b: nat, p: nat, r1: nat, r2: nat)
    requires r1 < p && r2 < p
    ensures a * p + r1 < b * p + r2 <==> a < b || (a == b && r1 < r2)
    ensures a * p + r1 == b * p + r2 <==> a == b && r1 == r2
  {
    if a < b {
      MulMono(a + 1, b, p);
      assert (a + 1) * p == a * p + p;
    } else if b < a {
      MulMono(b + 1, a, p);
      assert (b + 1) * p == b * p + p;
    }
  }

  lemma StrLtCons(x: string, y: string)
    requires |x| > 0 && |y| > 0
    ensures StrLt(x, y) <==> x[0] < y[0] || (x[0] == y[0] && StrLt(x[1..], y[1..]))
    ensures x == y <==> x[0] == y[0] && x[1..] == y[1..]
  {
    if x[0] == y[0] && x[1..] == y[1..] {
      assert x == [x[0]] + x[1..] && y == [y[0]] + y[1..];
    }
  }

  /** Equal-length digit strings compare as strings exactly as their values compare. */
  lemma {:induction false} DigitsOrder(x: string, y: string)
    requires AllDigits(x) && AllDigits(y) && |x| == |y|
    ensures StrLt(x, y) <==> DigitsValue(x) < DigitsValue(y)
    ensures x == y <==> DigitsValue(x) == DigitsValue(y)
    decreases |x|
  {
    if |x| > 0 {
      var p := Pow10(|x| - 1);
      var a, b := DigitValue(x[0]), DigitValue(y[0]);
      var r1, r2 := DigitsValue(x[1..]), DigitsValue(y[1..]);
      DigitsValueFront(x);
      DigitsValueFront(y);
      DigitsValueBound(x[1..]);
      DigitsValueBound(y[1..]);
      DigitsOrder(x[1..], y[1..]);
      PositionalCompare(a, b, p, r1, r2);
      StrLtCons(x, y);
      assert a < b <==> x[0] < y[0];
      assert a == b <==> x[0] == y[0];
    }
  }

  /** String order on concatenations whose first parts have equal length. */
  lemma {:induction false} StrLtConcat(p: string, q: string, p2: string, q2: string)
    requires |p| == |p2|
    ensures StrLt(p + q, p2 + q2) <==> StrLt(p, p2) || (p == p2 && StrLt(q, q2))
    decreases |p|
  {
    if |p| == 0 {
      assert p + q == q && p2 + q2 == q2;
    } else {
      assert (p + q)[1..] == p[1..] + q;
      assert (p2 + q2)[1..] == p2[1..] + q2;
      StrLtConcat(p[1..], q, p2[1..], q2);
      if p[0] == p2[0] && p[1..] == p2[1..] {
        assert p == p2;
      }
      if p == p2 {
        assert p[1..] == p2[1..];
        StrLtIrreflexive(p);
      }
    }
  }

  /** `YYYY-MM-DD`: four, two and two decimal digits joined by '-'. */
  predicate IsDateString(s: string) {
    && |s| == 10
    && AllDigits(s[0..4]) && s[4] == '-'
    && AllDigits(s[5..7]) && s[7] == '-'
    && AllDigits(s[8..10])
  }

  function Year(s: string): nat
    requires IsDateString(s)
  {
    DigitsValue(s[0..4])
  }

  function Month(s: string): nat
    requires IsDateString(s)
  {
    DigitsValue(s[5..7])
  }

  function Day(s: string): nat
    requires IsDateString(s)
  {
    DigitsValue(s[8..10])
  }

  /** `a` is an earlier calendar day than `b`. */
  predicate Before(a: string, b: string)
    requires IsDateString(a) && IsDateString(b)
  {
    || Year(a) < Year(b)
    || (Year(a) == Year(b) && Month(a) < Month(b))
    || (Year(a) == Year(b) && Month(a) == Month(b) && Day(a) < Day(b))
  }

  /** For zero-padded dates, string order is chronological order (and string
      equality is equality of the dates). */
  lemma StringOrderIsChronological(a: string, b: string)
    requires IsDateString(a) && IsDateString(b)
    ensures StrLt(a, b) <==> Before(a, b)
    ensures a == b <==> (Year(a) == Year(b) && Month(a) == Month(b) && Day(a) == Day(b))
  {
    DigitsOrder(a[0..4], b[0..4]);
    DigitsOrder(a[5..7], b[5..7]);
    DigitsOrder(a[8..10], b[8..10]);
    DashedOrder(a, b);
  }

  /** A dash and a field, then the rest: the field decides unless equal. */
  lemma DashField(u: string, v: string, n: nat)
    requires |u| == |v| && n + 1 <= |u| && u[0] == '-' && v[0] == '-'
    ensures StrLt(u, v) <==> StrLt(u[1..n + 1], v[1..n + 1]) || (u[1..n + 1] == v[1..n + 1] && StrLt(u[n + 1..], v[n + 1..]))
    ensures u == v <==> u[1..n + 1] == v[1..n + 1] && u[n + 1..] == v[n + 1..]
  {
    assert u == [u[0]] + (u[1..n + 1] + u[n + 1..]);
    assert v == [v[0]] + (v[1..n + 1] + v[n + 1..]);
    StrLtConcat([u[0]], u[1..n + 1] + u[n + 1..], [v[0]], v[1..n + 1] + v[n + 1..]);
    StrLtConcat(u[1..n + 1], u[n + 1..], v[1..n + 1], v[n + 1..]);
    StrLtIrreflexive([u[0]]);
  }

  /** Two texts with dashes at the same places compare field by field. */
  lemma DashedOrder(a: string, b: string)
    requires |a| == 10 && |b| == 10
    requires a[4] == '-' && b[4] == '-' && a[7] == '-' && b[7] == '-'
    ensures StrLt(a, b) <==>
              || StrLt(a[0..4], b[0..4])
              || (a[0..4] == b[0..4] && StrLt(a[5..7], b[5..7]))
              || (a[0..4] == b[0..4] && a[5..7] == b[5..7] && StrLt(a[8..10], b[8..10]))
    ensures a == b <==> a[0..4] == b[0..4] && a[5..7] == b[5..7] && a[8..10] == b[8..10]
  {
    var u, v := a[4..], b[4..];
    var u2, v2 := a[7..], b[7..];
    assert a == a[0..4] + u && b == b[0..4] + v;
    StrLtConcat(a[0..4], u, b[0..4], v);
    DashField(u, v, 2);
    assert u[1..3] == a[5..7] && v[1..3] == b[5..7];
    assert u[3..] == u2 && v[3..] == v2;
    DashField(u2, v2, 2);
    assert u2[1..3] == a[8..10] && v2[1..3] == b[8..10];
    assert u2[3..] == [] && v2[3..] == [];
  }
}
