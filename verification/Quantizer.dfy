/** The arithmetic of the exponent quantizer: why the switch's 32-bit additions never overflow. */
module Quantizer {
  import Basics
  import opened Floats
  import opened Slots
  import opened Aggregates

  const INT32_MAX := 0x7fff_ffff

  // ---------- The operations ----------

  /** The eight exponent bits of a non-negative binary32 number. */
  function ExponentField(v: real): int
    requires v >= 0.0
  {
    ScalePositive(1.0, -126);
    if v < Pow2(-126) then 0 else Log2(v) + 127
  }

  /** Conversion to int8_t. */
  function ToInt8(n: int): Exponent {
    (n + 128) % 256 - 128
  }

  /** The exponent sent for a packet whose largest magnitude is v. */
  function PacketExponent(v: real): Exponent
    requires v >= 0.0
  {
    ToInt8(ExponentField(v) - 126)
  }

  /** The scaling factor for n workers and the global exponent e: the divisor is a float, the quotient a
      double, and the factor is stored as a float. */
  function ScalingFactor(n: nat, e: int): real
    requires n > 0
  {
    Factor(INT32_MAX as real, Round(Scale(n as real, e), BINARY32))
  }

  function Factor(dividend: real, divisor: real): real {
    if divisor == 0.0 then 0.0 else Round(Round(dividend / divisor, BINARY64), BINARY32)
  }

  /** The product is rounded to a float, then to an integer. */
  function Quantize(x: real, factor: real): int {
    ToInteger(x * factor)
  }

  function ToInteger(product: real): int {
    RoundAway(Round(product, BINARY32))
  }

  // ---------- The exponent of a packet ----------

  /** The sent exponent e satisfies v < 2^e exactly for the values below 2^127; above, it wraps to -128.
      For normal numbers it is the least such exponent. */
  lemma PacketExponentCovers(v: real)
    requires 0.0 <= v < Pow2(128)
    ensures v < Pow2(PacketExponent(v)) <==> v < Pow2(127)
    ensures Pow2(-126) <= v < Pow2(127) ==> Pow2(PacketExponent(v) - 1) <= v
  {
    ScalePositive(1.0, -126);
    if v < Pow2(-126) {
      PowersGrow(-126, 127, 1.0);
    } else {
      var k := Log2(v);
      if k < -126 {
        PowersGrow(k + 1, -126, 1.0);
      } else if k > 127 {
        PowersGrow(128, k, 1.0);
      }
      SmallInt8(k + 1);
      if k < 127 {
        PowersGrow(k + 1, 127, 1.0);
      } else {
        PowersGrow(-128, 127, 1.0);
      }
    }
  }

  lemma SmallInt8(n: int)
    requires -128 <= n <= 128
    ensures ToInt8(n) == if n < 128 then n else -128
  {
  }

  // ---------- Products and quotients of scaled numbers ----------

  lemma {:induction false} ScaleProduct(x: real, s: real, e: int)
    ensures Scale(x, e) * Scale(s, -e) == x * s
    decreases if e < 0 then -e else e
  {
    if e > 0 {
      ScaleProduct(x * 2.0, s / 2.0, e - 1);
      Regroup(x, s);
    } else if e < 0 {
      ScaleProduct(x / 2.0, s * 2.0, e + 1);
      Regroup(s, x);
    }
  }

  lemma Regroup(x: real, s: real)
    ensures (x * 2.0) * (s / 2.0) == x * s
    ensures (s / 2.0) * (x * 2.0) == s * x
  {
  }

  lemma QuotientIs(m: real, d: real, q: real)
    requires d > 0.0 && q * d == m
    ensures m / d == q
  {
  }

  // ---------- The factor at exponent 0 ----------

  /** The quotient before rounding. */
  function Share(n: nat): real
    requires n > 0
  {
    INT32_MAX as real / n as real
  }

  function BaseFactor(n: nat): real
    requires n > 0
  {
    Round(Round(Share(n), BINARY64), BINARY32)
  }

  /** n lies between two powers of two. */
  function WorkersLog(n: nat): (j: nat)
    requires 1 <= n <= 32
    ensures j <= 5
  {
    if n < 2 then 0 else if n < 4 then 1 else if n < 8 then 2 else if n < 16 then 3 else if n < 32 then 4 else 5
  }

  lemma PowerValues()
    ensures Pow2(2) == 4.0 && Pow2(3) == 8.0 && Pow2(4) == 16.0 && Pow2(5) == 32.0
    ensures Pow2(6) == 64.0 && Pow2(7) == 128.0
    ensures Pow2(23) == 8388608.0 && Pow2(24) == 16777216.0
    ensures Pow2(25) == 33554432.0 && Pow2(26) == 67108864.0 && Pow2(27) == 134217728.0 && Pow2(28) == 268435456.0
    ensures Pow2(29) == 536870912.0 && Pow2(30) == 1073741824.0 && Pow2(31) == 2147483648.0
  {
    ScaleTwice(1.0, 8, 8);
    ScaleTwice(1.0, 16, 8);
    ScaleTwice(1.0, 24, 1);
    ScaleTwice(1.0, 25, 1);
    ScaleTwice(1.0, 26, 1);
    ScaleTwice(1.0, 27, 1);
    ScaleTwice(1.0, 28, 1);
    ScaleTwice(1.0, 29, 1);
    ScaleTwice(1.0, 30, 1);
    ScaleTwice(1.0, 22, 1);
    ScaleTwice(1.0, 23, 1);
    ScaleTwice(1.0, 16, 6);
  }

  lemma ShareTimes(n: nat, a: real)
    requires n > 0 && a == Share(n)
    ensures a * n as real == INT32_MAX as real
  {
  }

  lemma TimesLess(x: real, y: real, n: real, xn: real, yn: real)
    requires n > 0.0 && xn == x * n && yn == y * n
    ensures x < y <==> xn < yn
  {
    if x < y {
      assert (y - x) * n > 0.0;
    } else {
      assert (x - y) * n >= 0.0;
    }
  }

  lemma Between(a: real, lo: real, hi: real, n: real, m: real, lon: real, hin: real)
    requires n > 0.0 && m == a * n && lon == lo * n && hin == hi * n
    requires lon <= m < hin
    ensures lo <= a < hi
  {
    TimesLess(a, lo, n, m, lon);
    TimesLess(a, hi, n, m, hin);
  }

  /** The share of one worker is well inside a binade. */
  lemma ShareBounds(n: nat)
    requires 1 <= n <= 32
    ensures Pow2(30 - WorkersLog(n)) + 100.0 <= Share(n) < Pow2(31 - WorkersLog(n)) - 0.03
  {
    var lo, hi := Pow2(30 - WorkersLog(n)) + 100.0, Pow2(31 - WorkersLog(n)) - 0.03;
    ShareTimes(n, Share(n));
    BoundsTimes(n);
    Between(Share(n), lo, hi, n as real, INT32_MAX as real, lo * n as real, hi * n as real);
  }

  lemma BoundsTimes(n: nat)
    requires 1 <= n <= 32
    ensures (Pow2(30 - WorkersLog(n)) + 100.0) * n as real <= INT32_MAX as real
    ensures (Pow2(31 - WorkersLog(n)) - 0.03) * n as real > INT32_MAX as real
  {
    PowerValues();
    var m := n as real;
    match WorkersLog(n)
    case 0 => assert m == 1.0;
    case 1 => assert 2.0 <= m <= 3.0;
    case 2 => assert 4.0 <= m <= 7.0;
    case 3 => assert 8.0 <= m <= 15.0;
    case 4 => assert 16.0 <= m <= 31.0;
    case 5 => assert m == 32.0;
  }

  /** Rounded to a double, the share stays in its binade. */
  lemma ShareAsDouble(n: nat) returns (d: real)
    requires 1 <= n <= 32
    ensures d == Round(Share(n), BINARY64)
    ensures Share(n) - 0.01 <= d <= Share(n) + 0.01
    ensures d > 0.0 && Log2(d) == 30 - WorkersLog(n)
  {
    var j: int := WorkersLog(n);
    ShareBounds(n);
    PowerValues();
    Log2Unique(Share(n), 30 - j);
    var c := RoundIsMultiple(Share(n), BINARY64);
    d := Round(Share(n), BINARY64);
    SmallPower(-23 - j);
    Log2Unique(d, 30 - j);
  }

  lemma SmallPower(k: int)
    requires k <= -7
    ensures Pow2(k) <= 0.01
  {
    PowersGrow(k, -7, 1.0);
    PowerValues();
    ScaleTwice(1.0, 7, -7);
    ManyPowers(128, -7);
    assert Scale(128.0, -7) == 1.0;
  }

  /** The factor is c * 2^(7 - j); one unit of its last place below, it is less than a worker's share. */
  lemma BaseFactorForm(n: nat) returns (c: int)
    requires 1 <= n <= 32
    ensures BaseFactor(n) == Scale(c as real, 7 - WorkersLog(n)) > Pow2(30 - WorkersLog(n))
    ensures Pow2(23) <= (c - 1) as real < Pow2(24)
    ensures Scale((c - 1) as real, 7 - WorkersLog(n)) <= Share(n) - 1.0
  {
    var k := 7 - WorkersLog(n);
    var d := ShareAsDouble(n);
    ShareBounds(n);
    PowerValues();
    c := RoundIsMultiple(d, BINARY32);
    ScaleStep(1.0, k - 1);
    ScaleSum((c - 1) as real, 1.0, k);
    ScaleTwice(1.0, 23, k);
    ScaleInts(8388608, c, k);
    ScaleTwice(1.0, 24, k);
    ScaleInts(c - 1, 16777216, k);
  }

  // ---------- The factor at any exponent ----------

  /** The quotient is the share, scaled. */
  lemma QuotientIsScaled(n: nat, e: int)
    requires 1 <= n <= 32
    ensures Scale(n as real, e) > 0.0
    ensures INT32_MAX as real / Scale(n as real, e) == Scale(Share(n), -e)
  {
    ScalePositive(n as real, e);
    ShareTimes(n, Share(n));
    ScaleProduct(n as real, Share(n), e);
    QuotientOf(INT32_MAX as real, Scale(n as real, e), Scale(Share(n), -e), Share(n), n as real);
  }

  lemma QuotientOf(m: real, d: real, q: real, a: real, n: real)
    requires d > 0.0 && d * q == n * a && a * n == m
    ensures m / d == q
  {
    assert q * d == m;
    QuotientIs(m, d, q);
  }

  /** Scaling the divisor by 2^e scales the factor by 2^-e, as long as nothing underflows. */
  lemma FactorIsScaled(n: nat, e: int)
    requires 1 <= n <= 32 && -96 <= e <= 122
    ensures ScalingFactor(n, e) == Scale(BaseFactor(n), -e)
  {
    DivisorIsExact(n, e);
    QuotientIsScaled(n, e);
    ShareBounds(n);
    Log2Unique(Share(n), 30 - WorkersLog(n));
    ScalePositive(1.0, 30 - WorkersLog(n));
    RoundScaled(Share(n), -e, BINARY64);
    var d := ShareAsDouble(n);
    RoundScaled(d, -e, BINARY32);
  }

  lemma DivisorIsExact(n: nat, e: int)
    requires 1 <= n <= 32 && e >= -126
    ensures Round(Scale(n as real, e), BINARY32) == Scale(n as real, e)
  {
    PowerValues();
    ShortIsRepresented(n, e, BINARY32);
  }

  // ---------- One value ----------

  lemma ScaledFactors(x: real, y: real, f: real, s: real, e: int)
    requires x == Scale(y, e) && f == Scale(s, -e)
    ensures x * f == y * s
  {
    ScaleProduct(y, s, e);
  }

  /** A float below 2^e, scaled into [0, 1). */
  lemma Normalized(e: int, x: real) returns (y: real)
    requires e > -126
    requires x >= 0.0 && Represents(BINARY32, x) && x < Pow2(e)
    ensures 0.0 <= y <= 1.0 - Pow2(-24) && x == Scale(y, e)
  {
    y := Scale(x, -e);
    LargestBelow(x, BINARY32, e);
    NormalizedBelow(x, e, y);
    ScaleTwice(x, -e, e);
  }

  /** What the factor loses on a float below 2^e is more than half a unit in its last place. */
  lemma FactorGap(s: real, k: int)
    requires s > Pow2(k + 23)
    ensures s > 0.0 && Scale(s, -24) > Pow2(k - 1)
  {
    ScaleMonotone(Pow2(k + 23), s, -24);
    ScaleTwice(1.0, k + 23, -24);
    ScalePositive(1.0, k + 23);
  }

  lemma ProductBelow(y: real, s: real, c: int, k: int)
    requires 0.0 <= y <= 1.0 - Pow2(-24) && s == Scale(c as real, k) > Pow2(k + 23)
    ensures 0.0 <= y * s < Scale((c - 1) as real + 0.5, k)
  {
    FactorGap(s, k);
    TimesPower(s, -24);
    ProductGap(y, s, 1.0 - Pow2(-24), Pow2(-24), Scale(s, -24));
    ScaleSum((c - 1) as real + 0.5, 0.5, k);
    ScaleStep(1.0, k);
  }

  lemma TimesPower(s: real, k: int)
    ensures Pow2(k) * s == Scale(s, k)
  {
    ScaleProduct(1.0, Scale(s, k), k);
    ScaleTwice(s, k, -k);
  }

  lemma ProductGap(y: real, s: real, q: real, t: real, ts: real)
    requires 0.0 <= y <= q && q == 1.0 - t && s > 0.0 && ts == t * s
    ensures 0.0 <= y * s <= s - ts
  {
    NotMore(0.0, y, s);
    NotMore(y, q, s);
    Remainder(s, q, t);
  }

  lemma NotMore(y: real, q: real, s: real)
    requires y <= q && s > 0.0
    ensures y * s <= q * s
  {
  }

  lemma Remainder(s: real, q: real, t: real)
    requires q == 1.0 - t
    ensures q * s == s - t * s
  {
  }

  lemma NormalizedBelow(x: real, e: int, y: real)
    requires 0.0 <= x <= Pow2(e) - Pow2(e - 24) && y == Scale(x, -e)
    ensures 0.0 <= y <= 1.0 - Pow2(-24)
  {
    ScaleTwice(1.0, e, -e);
    ScaleTwice(1.0, e - 24, -e);
    ScaleSum(Pow2(e) - Pow2(e - 24), Pow2(e - 24), -e);
    ScaleMonotone(Pow2(e) - Pow2(e - 24), x, -e);
    ScalePositive(x, -e);
  }

  /** Rounded, the product is at most the last-place neighbour below the factor. */
  lemma ProductRounded(e: int, x: real, f: real, s: real, c: int, k: int, p: real) returns (b: int)
    requires 0 <= k && e > -126 && f == Scale(s, -e) && p == x * f
    requires x >= 0.0 && Represents(BINARY32, x) && x < Pow2(e)
    requires s == Scale(c as real, k) > Pow2(k + 23) && Pow2(23) <= (c - 1) as real < Pow2(24)
    ensures 0.0 <= Round(p, BINARY32) <= b as real == Scale((c - 1) as real, k)
  {
    var y := Normalized(e, x);
    ScaledFactors(x, y, f, s, e);
    ProductBelow(y, s, c, k);
    RoundAtMost(p, BINARY32, c - 1, k);
    RoundNotNegative(p, BINARY32);
    b := Refine(c - 1, k, 0);
  }

  lemma RoundNotNegative(x: real, f: Format)
    requires x >= 0.0
    ensures Round(x, f) >= 0.0
  {
    if x > 0.0 {
      var c := RoundIsMultiple(x, f);
      ScalePositive(c as real, Spacing(x, f));
    }
  }

  /** n values of size q stay within int32_t. */
  predicate Fits(n: nat, q: int) {
    -INT32_MAX < n * q < INT32_MAX
  }

  lemma QuantizedBelow(n: nat, e: int, x: real, f: real, p: real, q: int)
    requires 1 <= n <= 32 && -96 <= e <= 122
    requires x >= 0.0 && Represents(BINARY32, x) && x < Pow2(e) && f == Scale(BaseFactor(n), -e)
    requires p == x * f && q == ToInteger(p)
    ensures Fits(n, q)
  {
    var c := BaseFactorForm(n);
    var b := ProductRounded(e, x, f, BaseFactor(n), c, 7 - WorkersLog(n), p);
    RoundAwayAtMost(Round(p, BINARY32), b);
    SharesFit(q, b, n);
  }

  lemma RoundAwayAtMost(v: real, b: int)
    requires 0.0 <= v <= b as real
    ensures 0 <= RoundAway(v) <= b
  {
  }

  lemma SharesFit(q: int, b: int, n: nat)
    requires n > 0 && 0 <= q <= b && b as real <= Share(n) - 1.0
    ensures Fits(n, q)
  {
    ShareTimes(n, Share(n));
    TimesLess(b as real, Share(n), n as real, b as real * n as real, INT32_MAX as real);
    IntProduct(b, n);
    SmallerFits(q, b, n);
  }

  lemma IntProduct(b: int, n: int)
    ensures (b * n) as real == b as real * n as real
  {
  }

  lemma SmallerFits(q: int, b: int, n: nat)
    requires 0 <= q <= b && b * n < INT32_MAX
    ensures Fits(n, q)
  {
    assert 0 <= n * q <= n * b;
  }

  /** The magnitude of a quantized value does not depend on the sign. */
  lemma QuantizeNegated(x: real, factor: real)
    ensures Quantize(-x, factor) == -Quantize(x, factor)
  {
    NegatedProduct(x, factor);
    RoundNegated(x * factor, BINARY32);
  }

  lemma NegatedProduct(x: real, factor: real)
    ensures (-x) * factor == -(x * factor)
  {
  }

  /** The main bound: n values of the size of any quantized value add up to less than INT32_MAX. */
  lemma QuantizedBound(n: nat, e: int, x: real)
    requires 1 <= n <= 32 && -96 <= e <= 122
    requires Represents(BINARY32, x) && Abs(x) < Pow2(e)
    ensures Fits(n, Quantize(x, ScalingFactor(n, e)))
  {
    FactorIsScaled(n, e);
    if x >= 0.0 {
      FactorBound(n, e, x, ScalingFactor(n, e), Quantize(x, ScalingFactor(n, e)));
    } else {
      RoundNegated(x, BINARY32);
      QuantizeNegated(x, ScalingFactor(n, e));
      FactorBound(n, e, -x, ScalingFactor(n, e), -Quantize(x, ScalingFactor(n, e)));
      NegatedFits(n, Quantize(x, ScalingFactor(n, e)));
    }
  }

  lemma FactorBound(n: nat, e: int, x: real, f: real, q: int)
    requires 1 <= n <= 32 && -96 <= e <= 122
    requires x >= 0.0 && Represents(BINARY32, x) && x < Pow2(e) && f == Scale(BaseFactor(n), -e)
    requires q == Quantize(x, f)
    ensures Fits(n, q)
  {
    var p := Product(x, f);
    QuantizedBelow(n, e, x, f, p, q);
  }

  lemma Product(x: real, f: real) returns (p: real)
    ensures p == x * f && Quantize(x, f) == ToInteger(p)
  {
    p := x * f;
  }

  lemma NegatedFits(n: nat, q: int)
    requires Fits(n, -q)
    ensures Fits(n, q)
  {
    assert n * -q == -(n * q);
  }

  // ---------- Sums in the switch ----------

  /** An int32_t as the switch sees it, and back. */
  function Encode(v: int): Word {
    v % WORD_MODULUS
  }

  function Decode(w: Word): int {
    if w <= INT32_MAX then w else w - WORD_MODULUS
  }

  /** What the workers below k that are in s have sent, as signed integers. */
  ghost function SignedSum(q: seq<int>, s: set<nat>, k: nat): int
    requires k <= |q|
  {
    if k == 0 then 0 else SignedSum(q, s, k - 1) + if k - 1 in s then q[k - 1] else 0
  }

  lemma {:induction false} SumBound(q: seq<int>, s: set<nat>, k: nat)
    requires k <= |q| && forall w :: 0 <= w < |q| ==> Fits(|q|, q[w])
    ensures 0 - k * (INT32_MAX - 1) <= |q| * SignedSum(q, s, k) <= k * (INT32_MAX - 1)
  {
    if k > 0 {
      SumBound(q, s, k - 1);
      assert Fits(|q|, q[k - 1]);
      assert |q| * (SignedSum(q, s, k - 1) + q[k - 1]) == |q| * SignedSum(q, s, k - 1) + |q| * q[k - 1];
    }
  }

  lemma SumFits(q: seq<int>, s: set<nat>)
    requires |q| > 0 && forall w :: 0 <= w < |q| ==> Fits(|q|, q[w])
    ensures -INT32_MAX < SignedSum(q, s, |q|) < INT32_MAX
  {
    SumBound(q, s, |q|);
    Cancel(|q|, SignedSum(q, s, |q|), INT32_MAX - 1);
    Cancel(|q|, -(INT32_MAX - 1), SignedSum(q, s, |q|));
  }

  lemma Cancel(n: nat, x: int, y: int)
    requires n > 0 && n * x <= n * y
    ensures x <= y
  {
    if x > y {
      MoreTimes(n, y, x);
    }
  }

  lemma MoreTimes(n: nat, x: int, y: int)
    requires n > 0 && x < y
    ensures n * x < n * y
  {
    Basics.Steps(x, y, n);
    assert n * x == x * n && n * y == y * n;
  }

  /** The lane of round r of worker w carries the integer q[w]. */
  ghost predicate Carries(work: Work, r: nat, half: bool, i: nat, q: seq<int>)
    requires HasRound(work, r) && i < LANES && |q| == |work|
  {
    forall w :: 0 <= w < |q| ==> Lane(work[w][r], half, i) == Encode(q[w])
  }

  lemma {:induction false} LaneIsSignedSum(work: Work, r: nat, half: bool, i: nat, q: seq<int>, s: set<nat>, k: nat)
    requires HasRound(work, r) && i < LANES && |q| == |work| && Carries(work, r, half, i, q) && k <= |q|
    ensures (LaneSum(work, r, half, i, s, k) - SignedSum(q, s, k)) % WORD_MODULUS == 0
  {
    if k > 0 {
      LaneIsSignedSum(work, r, half, i, q, s, k - 1);
      SameRemainder(LaneSum(work, r, half, i, s, k - 1) - SignedSum(q, s, k - 1),
                    Lane(work[k - 1][r], half, i) - q[k - 1]);
    }
  }

  lemma SameRemainder(a: int, b: int)
    requires a % WORD_MODULUS == 0 && b % WORD_MODULUS == 0
    ensures (a + b) % WORD_MODULUS == 0
  {
  }

  lemma DecodeExact(sum: int, v: int)
    requires (sum - v) % WORD_MODULUS == 0 && -INT32_MAX <= v <= INT32_MAX
    ensures Decode(sum % WORD_MODULUS) == v
  {
    var t := (sum - v) / WORD_MODULUS;
    assert sum == v + t * WORD_MODULUS;
    if v >= 0 {
      RemainderIs(sum, t, v);
    } else {
      RemainderIs(sum, t - 1, v + WORD_MODULUS);
    }
  }

  lemma RemainderIs(sum: int, t: int, r: int)
    requires sum == r + t * WORD_MODULUS && 0 <= r < WORD_MODULUS
    ensures sum % WORD_MODULUS == r
  {
  }

  /** The values of a lane, quantized with the factor of the global exponent. */
  function Quantized(xs: seq<real>, e: int): (q: seq<int>)
    requires |xs| > 0
    ensures |q| == |xs|
  {
    seq(|xs|, w requires 0 <= w < |xs| => Quantize(xs[w], ScalingFactor(|xs|, e)))
  }

  /** The theorem: whichever workers have been added so far, and in whatever order, the switch's 32-bit
      register holds exactly the sum of their signed quantized values, short of INT32_MAX in magnitude. */
  lemma SwitchSumIsExact(work: Work, r: nat, half: bool, i: nat, xs: seq<real>, e: int, s: set<nat>)
    requires 1 <= |xs| == |work| <= MAX_WORKERS && -96 <= e <= 122
    requires forall w :: 0 <= w < |xs| ==> Represents(BINARY32, xs[w]) && Abs(xs[w]) < Pow2(e)
    requires HasRound(work, r) && i < LANES && Carries(work, r, half, i, Quantized(xs, e))
    ensures Decode(LaneSum(work, r, half, i, s, |work|) % WORD_MODULUS) == SignedSum(Quantized(xs, e), s, |xs|)
    ensures -INT32_MAX < SignedSum(Quantized(xs, e), s, |xs|) < INT32_MAX
  {
    forall w | 0 <= w < |xs|
      ensures Fits(|xs|, Quantized(xs, e)[w])
    {
      QuantizedBound(|xs|, e, xs[w]);
    }
    SumFits(Quantized(xs, e), s);
    LaneIsSignedSum(work, r, half, i, Quantized(xs, e), s, |xs|);
    DecodeExact(LaneSum(work, r, half, i, s, |work|), SignedSum(Quantized(xs, e), s, |xs|));
  }

  /** The global exponent covers every value of every worker's packet: it is at least the exponent each
      worker sent, which covers the packet's largest magnitude. */
  lemma GlobalExponentCovers(x: real, largest: real, e: int)
    requires Abs(x) <= largest < Pow2(127) && PacketExponent(largest) <= e
    ensures Abs(x) < Pow2(e)
  {
    PowersGrow(127, 128, 1.0);
    PacketExponentCovers(largest);
    PowersGrow(PacketExponent(largest), e, 1.0);
  }

  /** Rounding the product to a float is what makes the bound hold: with exact arithmetic, four workers'
      values can round up to 2^29 each and overflow. */
  lemma ExactArithmeticOverflows() returns (y: real)
    ensures 0.0 < y < 1.0 && 4 * RoundAway(y * Share(4)) > INT32_MAX
  {
    y := 536870911.6 / 536870911.75;
    assert Share(4) == 536870911.75;
    assert y * Share(4) == 536870911.6;
  }
}
