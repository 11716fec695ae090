/** Binary floating point over the reals: rounding to p significant bits, to nearest with ties to even
    (IEEE 754-2008, section 4.3.1), with gradual underflow. Overflow to infinity is not modelled; the
    quantizer's results stay far from it. */
module Floats {

  /** m * 2^k */
  function Scale(m: real, k: int): (r: real)
    decreases if k < 0 then -k else k
  {
    if k == 0 then m else if k > 0 then Scale(m * 2.0, k - 1) else Scale(m / 2.0, k + 1)
  }

  function Pow2(k: int): real {
    Scale(1.0, k)
  }

  function Abs(x: real): real {
    if x < 0.0 then -x else x
  }

  // ---------- Scaling ----------

  lemma {:induction false} ScaleStep(m: real, k: int)
    ensures Scale(m * 2.0, k) == Scale(m, k + 1)
    ensures Scale(m / 2.0, k) == Scale(m, k - 1)
    decreases if k < 0 then -k else k
  {
    if k > 0 {
      ScaleStep(m * 2.0, k - 1);
    } else if k < 0 {
      ScaleStep(m / 2.0, k + 1);
    }
  }

  lemma {:induction false} ScaleTwice(m: real, a: int, b: int)
    ensures Scale(Scale(m, a), b) == Scale(m, a + b)
    decreases if a < 0 then -a else a
  {
    if a > 0 {
      ScaleTwice(m * 2.0, a - 1, b);
      ScaleStep(m, a + b - 1);
    } else if a < 0 {
      ScaleTwice(m / 2.0, a + 1, b);
      ScaleStep(m, a + b + 1);
    }
  }

  lemma {:induction false} ScaleSum(x: real, y: real, k: int)
    ensures Scale(x + y, k) == Scale(x, k) + Scale(y, k)
    decreases if k < 0 then -k else k
  {
    if k > 0 {
      ScaleSum(x * 2.0, y * 2.0, k - 1);
    } else if k < 0 {
      ScaleSum(x / 2.0, y / 2.0, k + 1);
    }
  }

  lemma {:induction false} ScalePositive(m: real, k: int)
    ensures Scale(m, k) > 0.0 <==> m > 0.0
    ensures Scale(m, k) == 0.0 <==> m == 0.0
    ensures Scale(-m, k) == -Scale(m, k)
    decreases if k < 0 then -k else k
  {
    if k > 0 {
      ScalePositive(m * 2.0, k - 1);
    } else if k < 0 {
      ScalePositive(m / 2.0, k + 1);
    }
  }

  lemma ScaleMonotone(x: real, y: real, k: int)
    ensures x < y <==> Scale(x, k) < Scale(y, k)
    ensures x == y <==> Scale(x, k) == Scale(y, k)
  {
    ScaleSum(x, y - x, k);
    ScalePositive(y - x, k);
  }

  lemma ScaleInts(c: int, r: int, k: int)
    ensures c < r <==> Scale(c as real, k) < Scale(r as real, k)
  {
    ScaleMonotone(c as real, r as real, k);
    IntsAsReals(c, r);
  }

  lemma IntsAsReals(c: int, r: int)
    ensures c < r <==> c as real < r as real
  {
  }

  lemma IntBelow(r: int, c: int)
    requires r as real < c as real + 1.0
    ensures r <= c
  {
  }

  lemma {:induction false} PowersGrow(a: int, b: int, m: real)
    requires a <= b && m > 0.0
    ensures Scale(m, a) <= Scale(m, b)
    ensures a < b ==> Scale(m, a) <= Scale(m, b) / 2.0
    decreases b - a
  {
    if a < b {
      PowersGrow(a, b - 1, m);
      ScalePositive(m, b - 1);
      ScaleTwice(m, b - 1, 1);
    }
  }

  lemma {:induction false} PowerIsLarge(k: nat)
    ensures Pow2(k) >= k as real + 1.0
  {
    if k > 0 {
      PowerIsLarge(k - 1);
      ScaleTwice(1.0, k - 1, 1);
    }
  }

  /** An integer multiple of 2^a is one of any finer power of two. */
  lemma {:induction false} Refine(m: int, a: int, e: int) returns (c: int)
    requires e <= a
    ensures Scale(m as real, a) == Scale(c as real, e)
    ensures c as real == Scale(m as real, a - e)
    decreases a - e
  {
    if e == a {
      c := m;
    } else {
      ScaleStep(m as real, a - 1);
      ScaleStep(m as real, a - 1 - e);
      assert (2 * m) as real == m as real * 2.0;
      c := Refine(2 * m, a - 1, e);
    }
  }

  // ---------- Exponents ----------

  function Log2Between(x: real, lo: int, hi: int): (k: int)
    requires lo < hi && Pow2(lo) <= x < Pow2(hi)
    ensures lo <= k < hi && Pow2(k) <= x < Pow2(k + 1)
    decreases hi - lo
  {
    if hi == lo + 1 || x < Pow2(lo + 1) then lo else Log2Between(x, lo + 1, hi)
  }

  lemma {:induction false} ManyPowers(n: nat, k: int)
    ensures Scale(n as real, k) == Pow2(k) * n as real
  {
    if n == 0 {
      ScalePositive(0.0, k);
    } else {
      ManyPowers(n - 1, k);
      ScaleSum((n - 1) as real, 1.0, k);
      OneMore(n as real, Pow2(k));
    }
  }

  lemma OneMore(n: real, p: real)
    ensures p * (n - 1.0) + p == p * n
  {
  }

  lemma Inverse(x: real)
    requires x > 0.0
    ensures 1.0 / x > 0.0 && (1.0 / x) * x == 1.0
  {
    var y := 1.0 / x;
    assert y * x == 1.0;
  }

  /** The least integer above y. */
  function Above(y: real): (n: int)
    requires y > 0.0
    ensures n > 0 && n as real > y
  {
    y.Floor + 1
  }

  lemma TimesMore(y: real, z: real, x: real)
    requires y < z && x > 0.0
    ensures y * x < z * x
  {
  }

  /** More than how often x fits into 1. */
  function Reciprocal(x: real): (n: int)
    requires x > 0.0
    ensures n > 0
  {
    Inverse(x);
    Above(1.0 / x)
  }

  lemma ReciprocalCovers(x: real, y: real, n: real, one: real)
    requires x > 0.0 && one == y * x && y < n
    ensures n * x > one
  {
    TimesMore(y, n, x);
  }

  lemma PowerBelow(x: real)
    requires x > 0.0
    ensures Pow2(-Reciprocal(x)) <= x
  {
    var n: int := Reciprocal(x);
    PowerIsLarge(n);
    ManyPowers(n, -n);
    ScaleTwice(1.0, n, -n);
    ScaleMonotone(n as real, Pow2(n), -n);
    Inverse(x);
    ReciprocalCovers(x, 1.0 / x, n as real, 1.0);
    var p := Pow2(-n);
    if p > x {
      Commute(n as real, x);
      NotLess(p, x, n as real, Scale(n as real, -n), n as real * x);
    }
  }

  lemma Commute(n: real, x: real)
    ensures n * x == x * n
  {
  }

  lemma NotLess(p: real, x: real, n: real, np: real, nx: real)
    requires n > 0.0 && np == p * n && nx == x * n && p > x
    ensures np > nx
  {
    TimesMore(x, p, n);
  }

  /** The exponent of x: its binary logarithm, rounded down. */
  function Log2(x: real): (k: int)
    requires x > 0.0
    ensures Pow2(k) <= x < Pow2(k + 1)
  {
    PowerBelow(x);
    PowerIsLarge(Above(x));
    Log2Between(x, -Reciprocal(x), Above(x))
  }

  lemma Log2Unique(x: real, k: int)
    requires x > 0.0 && Pow2(k) <= x < Pow2(k + 1)
    ensures Log2(x) == k
  {
    var e := Log2(x);
    if e < k {
      PowersGrow(e + 1, k, 1.0);
    } else if k < e {
      PowersGrow(k + 1, e, 1.0);
    }
  }

  // ---------- Rounding ----------

  /** The nearest integer, the even one of two equally near ones. */
  function NearestEven(r: real): (c: int)
    ensures -0.5 <= c as real - r <= 0.5
  {
    var f := r.Floor;
    var d := r - f as real;
    if d < 0.5 then f else if d > 0.5 then f + 1 else if f % 2 == 0 then f else f + 1
  }

  /** std::round: the nearest integer, the one away from zero of two equally near ones. */
  function RoundAway(r: real): (c: int)
    ensures -0.5 <= c as real - r <= 0.5
  {
    if r >= 0.0 then (r + 0.5).Floor else -(-r + 0.5).Floor
  }

  /** Precision and least exponent of a format. */
  datatype Format = Format(p: nat, emin: int)

  const BINARY32: Format := Format(24, -126)
  const BINARY64: Format := Format(53, -1022)

  /** The numbers of the format around x are spaced 2^k apart. */
  function Spacing(x: real, f: Format): (k: int)
    requires x != 0.0
  {
    var e := Log2(Abs(x));
    (if e < f.emin then f.emin else e) - (f.p - 1)
  }

  /** x rounded to the format: to a multiple of the spacing. */
  function Round(x: real, f: Format): real {
    if x == 0.0 then 0.0
    else
      var k := Spacing(x, f);
      Scale(NearestEven(Scale(x, -k)) as real, k)
  }

  /** x is a number of the format. */
  predicate Represents(f: Format, x: real) {
    Round(x, f) == x
  }

  lemma RoundIsMultiple(x: real, f: Format) returns (c: int)
    requires x != 0.0
    ensures Round(x, f) == Scale(c as real, Spacing(x, f))
    ensures Abs(Round(x, f) - x) <= Pow2(Spacing(x, f) - 1)
    ensures x > 0.0 ==> c >= 0
  {
    var k := Spacing(x, f);
    var r := Scale(x, -k);
    c := NearestEven(r);
    ScaleTwice(x, -k, k);
    ScaleSum(r, c as real - r, k);
    ScaleMonotone(c as real - r, 0.5, k);
    ScaleMonotone(-0.5, c as real - r, k);
    ScalePositive(0.5, k);
    ScaleStep(1.0, k);
    ScalePositive(x, -k);
  }

  lemma RoundNegated(x: real, f: Format)
    ensures Round(-x, f) == -Round(x, f)
  {
    if x != 0.0 {
      var k := Spacing(x, f);
      ScalePositive(x, -k);
      NearestEvenNegated(Scale(x, -k));
      ScalePositive(NearestEven(Scale(x, -k)) as real, k);
    }
  }

  lemma NearestEvenNegated(r: real)
    ensures NearestEven(-r) == -NearestEven(r)
  {
    var f := r.Floor;
    if r == f as real {
      assert (-r).Floor == -f;
    } else {
      assert (-r).Floor == -f - 1;
    }
  }

  /** Scaling by a power of two commutes with rounding, away from the underflow threshold. */
  lemma RoundScaled(x: real, s: int, f: Format)
    requires x > 0.0 && Log2(x) >= f.emin && Log2(x) + s >= f.emin
    ensures Scale(x, s) > 0.0 && Log2(Scale(x, s)) == Log2(x) + s
    ensures Round(Scale(x, s), f) == Scale(Round(x, f), s)
  {
    var e := Log2(x);
    ScalePositive(x, s);
    ScaleMonotone(Pow2(e), x, s);
    ScaleMonotone(x, Pow2(e + 1), s);
    ScaleTwice(1.0, e, s);
    ScaleTwice(1.0, e + 1, s);
    Log2Unique(Scale(x, s), e + s);
    var k := Spacing(x, f);
    ScaleTwice(x, s, -k - s);
    ScaleTwice(NearestEven(Scale(x, -k)) as real, k, s);
  }

  /** m * 2^a with p bits is a number of the format. Anything less than halfway from it to the next
      multiple of 2^a rounds to it or to something smaller. */
  lemma RoundAtMost(y: real, f: Format, m: int, a: int)
    requires y >= 0.0 && f.p >= 1 && a >= f.emin - (f.p - 1)
    requires Pow2(f.p - 1) <= m as real < Pow2(f.p)
    requires y < Scale(m as real + 0.5, a)
    ensures Round(y, f) <= Scale(m as real, a)
  {
    if y == 0.0 {
      ScalePositive(1.0, f.p - 1);
      ScalePositive(m as real, a);
    } else {
      SpacingAtMost(y, f, m, a);
      var k := Spacing(y, f);
      var r := RoundIsMultiple(y, f);
      if k == a {
        RoundBelow(y, k, m, r);
      } else {
        var c := BelowBinade(y, f, m, a);
        ScaleMonotone(c as real, c as real + 0.5, k);
        RoundBelow(y, k, c, r);
      }
    }
  }

  /** No multiple of 2^k is both past c * 2^k and within half a step of something less than halfway to the next. */
  lemma RoundBelow(y: real, k: int, c: int, r: int)
    requires y < Scale(c as real + 0.5, k) && Scale(r as real, k) - y <= Pow2(k - 1)
    ensures Scale(r as real, k) <= Scale(c as real, k)
  {
    ScaleSum(c as real, 0.5, k);
    ScaleStep(1.0, k);
    ScaleSum(c as real + 0.5, 0.5, k);
    ScaleMonotone(r as real, c as real + 1.0, k);
    IntBelow(r, c);
    ScaleInts(c, r, k);
  }

  lemma SpacingAtMost(y: real, f: Format, m: int, a: int)
    requires y > 0.0 && f.p >= 1 && a >= f.emin - (f.p - 1)
    requires m as real < Pow2(f.p)
    requires y < Scale(m as real + 0.5, a)
    ensures Spacing(y, f) <= a
  {
    var e := Log2(y);
    if e - (f.p - 1) > a {
      PowersGrow(a + f.p, e, 1.0);
      ScaleTwice(1.0, f.p, a);
      var c := Refine(1, f.p, 0);
      IntsAsReals(m, c);
      assert m + 1 <= c;
      ScaleMonotone(m as real + 0.5, Pow2(f.p), a);
    }
  }

  /** Where the spacing is finer than 2^a, the numbers are at most m * 2^a. */
  lemma BelowBinade(y: real, f: Format, m: int, a: int) returns (c: int)
    requires y > 0.0 && f.p >= 1 && Spacing(y, f) < a
    requires Pow2(f.p - 1) <= m as real
    ensures Scale(m as real, a) == Scale(c as real, Spacing(y, f))
    ensures y <= Scale(c as real, Spacing(y, f))
  {
    PowersGrow(Log2(y) + 1, a + f.p - 1, 1.0);
    ScaleTwice(1.0, f.p - 1, a);
    ScaleMonotone(m as real, Pow2(f.p - 1), a);
    c := Refine(m, a, Spacing(y, f));
  }

  /** A number of the format below 2^e is at least one spacing below it. */
  lemma LargestBelow(x: real, f: Format, e: int)
    requires Represents(f, x) && f.p >= 1 && e > f.emin && Abs(x) < Pow2(e)
    ensures Abs(x) <= Pow2(e) - Pow2(e - f.p)
  {
    PowersGrow(e - f.p, e - 1, 1.0);
    ScaleTwice(1.0, e - 1, 1);
    if Abs(x) >= Pow2(e - 1) {
      ScalePositive(1.0, e - 1);
      Log2Unique(Abs(x), e - 1);
      var c := RoundIsMultiple(x, f);
      var k := e - f.p;
      ScalePositive(c as real, k);
      var ac := if c < 0 then -c else c;
      var b := Refine(1, e, k);
      ScaleInts(ac, b, k);
      ScaleInts(b - 1, ac, k);
      ScaleSum((b - 1) as real, 1.0, k);
    }
  }

  /** Integers of at most p bits, times a power of two, are numbers of the format. */
  lemma ShortIsRepresented(m: int, a: int, f: Format)
    requires f.p >= 1 && 0 < m && m as real < Pow2(f.p) && a >= f.emin - (f.p - 1)
    ensures Represents(f, Scale(m as real, a))
  {
    var x := Scale(m as real, a);
    ScalePositive(m as real, a);
    ScaleMonotone(m as real, m as real + 0.5, a);
    SpacingAtMost(x, f, m, a);
    var k := Spacing(x, f);
    var c := Refine(m, a, k);
    ScaleTwice(m as real, a, -k);
  }
}
