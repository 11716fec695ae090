/** How near the floats that come out of an all-reduce are to the true sums: every rounding on the way,
    in the factor, the products, the integers and the quotient, costs together less than 2^-21 of the
    range that the exponent stands for, per worker. */
module Accuracy {
  import Basics
  import opened Floats
  import opened Slots
  import opened Aggregates
  import opened Protocol
  import opened Runs
  import opened Quantizer
  import opened FloatJobs
  import opened AllReduceJobs

  /** The true sum of the first k workers' values. */
  function SumOf(xs: seq<real>, k: nat): real
    requires k <= |xs|
  {
    if k == 0 then 0.0 else SumOf(xs, k - 1) + xs[k - 1]
  }

  // ---------- Errors of single operations ----------

  /** Below 2^k, rounding moves a number by at most half a unit in the last of p places. */
  lemma RoundError(x: real, f: Format, k: int)
    requires f.p >= 1 && Abs(x) < Pow2(k) && k > f.emin
    ensures Abs(Round(x, f) - x) <= Pow2(k - f.p - 1)
  {
    ScalePositive(1.0, k - f.p - 1);
    if x != 0.0 {
      var e := Log2(Abs(x));
      if e >= k {
        PowersGrow(k, e, 1.0);
      }
      var c := RoundIsMultiple(x, f);
      PowersGrow(Spacing(x, f) - 1, k - f.p - 1, 1.0);
    }
  }

  /** The factor for exponent 0. */
  lemma BaseFactorSize(n: nat) returns (s: real)
    requires 1 <= n <= 32
    ensures s == BaseFactor(n) && Pow2(30 - WorkersLog(n)) < s <= Pow2(31 - WorkersLog(n))
  {
    var c := BaseFactorForm(n);
    s := BaseFactor(n);
    AtMostPower(c, 7 - WorkersLog(n), s);
  }

  lemma AtMostPower(c: int, k: int, s: real)
    requires (c - 1) as real < Pow2(24) && s == Scale(c as real, k)
    ensures s <= Pow2(24 + k)
  {
    PowerValues();
    ScaleTwice(1.0, 24, k);
    ScaleMonotone(c as real, Pow2(24), k);
  }

  lemma ProductSmaller(y: real, s: real, p: real)
    requires Abs(y) < 1.0 && s > 0.0 && p == y * s
    ensures Abs(p) < s
  {
    OneTimes(s);
    TimesLess(y, 1.0, s, p, s);
    TimesLess(-1.0, y, s, -s, p);
  }

  lemma OneTimes(s: real)
    ensures 1.0 * s == s && -1.0 * s == -s
  {
  }

  /** A value below 2^e is below 1 when scaled by 2^-e. */
  lemma ScaledBelowOne(x: real, e: int) returns (y: real)
    requires Abs(x) < Pow2(e)
    ensures Abs(y) < 1.0 && x == Scale(y, e)
  {
    y := Scale(x, -e);
    ScaleTwice(x, -e, e);
    ScaleTwice(1.0, e, -e);
    ScaleMonotone(x, Pow2(e), -e);
    ScaleMonotone(-Pow2(e), x, -e);
    ScalePositive(Pow2(e), -e);
  }

  /** q stands for x, with the factor f, up to an error. */
  predicate Near(q: int, x: real, f: real, error: real) {
    Abs(q as real - x * f) <= error
  }

  lemma ProductError(x: real, e: int, f: real, s: real, p: real, k: int)
    requires Abs(x) < Pow2(e) && f == Scale(s, -e) && 0.0 < s <= Pow2(k) && p == x * f && k > -126
    ensures Abs(ToInteger(p) as real - p) <= 0.5 + Pow2(k - 25)
  {
    var y := ScaledBelowOne(x, e);
    ScaledFactors(x, y, f, s, e);
    ProductSmaller(y, s, p);
    RoundError(p, BINARY32, k);
  }

  lemma QuantizeError(n: nat, e: int, x: real, f: real, q: int)
    requires 1 <= n <= 32 && -96 <= e <= 122 && Abs(x) < Pow2(e) && f == ScalingFactor(n, e) && q == Quantize(x, f)
    ensures Near(q, x, f, 0.5 + Pow2(6 - WorkersLog(n)))
  {
    FactorIsScaled(n, e);
    var s := BaseFactorSize(n);
    QuantizedNear(x, e, f, s, q, 30 - WorkersLog(n));
  }

  lemma QuantizedNear(x: real, e: int, f: real, s: real, q: int, k: int)
    requires Abs(x) < Pow2(e) && f == Scale(s, -e) && Pow2(k) < s <= Pow2(k + 1) && q == Quantize(x, f) && k >= 0
    ensures Near(q, x, f, 0.5 + Pow2(k - 24))
  {
    ScalePositive(1.0, k);
    var p := Product(x, f);
    ProductError(x, e, f, s, p, k + 1);
  }

  // ---------- The sum ----------

  lemma Distribute(a: real, x: real, f: real)
    ensures (a + x) * f == a * f + x * f
  {
  }

  lemma SumStep(a: int, q: int, t: real, x: real, f: real, bound: real, error: real)
    requires Near(a, t, f, bound) && Near(q, x, f, error)
    ensures Near(a + q, t + x, f, bound + error)
  {
    Distribute(t, x, f);
  }

  /** The error of k values. */
  function ErrorOf(error: real, k: nat): real {
    if k == 0 then 0.0 else ErrorOf(error, k - 1) + error
  }

  lemma {:induction false} ErrorIs(error: real, k: nat)
    ensures ErrorOf(error, k) == error * k as real
  {
    if k > 0 {
      ErrorIs(error, k - 1);
      OneMore(k as real, error);
    }
  }

  lemma NothingIsNear(f: real)
    ensures Near(0, 0.0, f, 0.0)
  {
  }

  lemma {:induction false} SumError(xs: seq<real>, q: seq<int>, f: real, error: real, k: nat)
    requires |q| == |xs| && k <= |q| && forall w :: 0 <= w < |q| ==> Near(q[w], xs[w], f, error)
    ensures Near(SignedSum(q, Basics.Below(|xs|), k), SumOf(xs, k), f, ErrorOf(error, k))
  {
    if k == 0 {
      NothingIsNear(f);
    } else {
      SumError(xs, q, f, error, k - 1);
      SumStep(SignedSum(q, Basics.Below(|xs|), k - 1), q[k - 1], SumOf(xs, k - 1), xs[k - 1], f,
              ErrorOf(error, k - 1), error);
    }
  }

  /** All workers' errors together, in units of the sum. */
  lemma ErrorTotal(n: nat)
    requires 1 <= n <= 32
    ensures ErrorOf(0.5 + Pow2(6 - WorkersLog(n)), n) <= 144.0
  {
    PowerValues();
    ErrorIs(0.5 + Pow2(6 - WorkersLog(n)), n);
    var m := n as real;
    match WorkersLog(n)
    case 0 => assert m == 1.0;
    case 1 => assert 2.0 <= m <= 3.0;
    case 2 => assert 4.0 <= m <= 7.0;
    case 3 => assert 8.0 <= m <= 15.0;
    case 4 => assert 16.0 <= m <= 31.0;
    case 5 => assert m == 32.0 && Pow2(1) == 2.0;
  }

  // ---------- The way back ----------

  lemma DivBound(d: real, f: real, u: real, m: real, one: real)
    requires f > 0.0 && d * f < m && m > 0.0 && one == u * f && one > 1.0
    ensures d < m * u
  {
    Associate(m, u, f, one);
    Ordered(1.0, one, m);
    if d >= m * u {
      Ordered(m * u, d, f);
    }
  }

  lemma Associate(m: real, u: real, f: real, one: real)
    requires one == u * f
    ensures (m * u) * f == one * m
  {
  }

  lemma Ordered(a: real, b: real, f: real)
    requires a <= b && f > 0.0
    ensures a * f <= b * f
  {
  }

  /** The factor times this power of two is more than 1. */
  lemma FactorTimes(n: nat, e: int, f: real) returns (u: real)
    requires 1 <= n <= 32 && -96 <= e <= 122 && f == ScalingFactor(n, e)
    ensures u == Pow2(WorkersLog(n) + e - 30) && u > 0.0 && f > 0.0 && u * f > 1.0
  {
    FactorIsScaled(n, e);
    var s := BaseFactorSize(n);
    u := PowerTimesMore(30 - WorkersLog(n), e, s, f);
  }

  lemma PowerTimesMore(k: int, e: int, s: real, f: real) returns (u: real)
    requires s > Pow2(k) && f == Scale(s, -e)
    ensures u == Pow2(e - k) && u > 0.0 && f > 0.0 && u * f > 1.0
  {
    u := Pow2(e - k);
    ScaleTwice(1.0, k, -e);
    ScaleMonotone(Pow2(k), s, -e);
    ScalePositive(1.0, k - e);
    ScalePositive(1.0, e - k);
    ScaleProduct(1.0, 1.0, e - k);
    var w := Pow2(k - e);
    Commute(u, w);
    TimesMore(w, f, u);
    Commute(f, u);
    MoreThanOne(w * u, f * u);
  }

  lemma MoreThanOne(one: real, p: real)
    requires one == 1.0 && one < p
    ensures p > 1.0
  {
  }

  lemma Quotient(v: real, t: real, f: real) returns (q: real)
    requires f > 0.0
    ensures q == v / f && q * f == v && (q - t) * f == v - t * f
  {
    q := v / f;
    QuotientTimes(v, f, q);
    Distribute(q, -t, f);
  }

  lemma QuotientTimes(v: real, f: real, q: real)
    requires f > 0.0 && q == v / f
    ensures q * f == v
  {
  }

  /** The quotient, before it is rounded. */
  lemma QuotientError(k: int, f: real, u: real, v: real, t: real) returns (q: real)
    requires u == Pow2(k) && f > 0.0 && u * f > 1.0 && Abs(v) < Pow2(32) && Abs(v - t * f) < 256.0
    ensures q == v / f
    ensures Abs(q) < Pow2(k + 32) && Abs(q - t) < Pow2(k + 8)
  {
    q := Quotient(v, t, f);
    PowerTimes(32, k);
    PowerTimes(8, k);
    EightBits();
    var d, w, one := q - t, v - t * f, u * f;
    AbsBound(q, v, f, u, Pow2(32), one);
    AbsBound(d, w, f, u, 256.0, one);
  }

  lemma AbsBound(d: real, v: real, f: real, u: real, m: real, one: real)
    requires f > 0.0 && d * f == v && Abs(v) < m && one == u * f && one > 1.0
    ensures Abs(d) < m * u
  {
    DivBound(d, f, u, m, one);
    assert -d * f == -v;
    DivBound(-d, f, u, m, one);
  }

  lemma PowerTimes(a: int, k: int)
    ensures Pow2(a) * Pow2(k) == Pow2(a + k)
  {
    TimesPower(Pow2(k), a);
    ScaleTwice(1.0, k, a);
  }

  lemma EightBits()
    ensures Pow2(8) == 256.0
  {
    PowerValues();
    ScaleTwice(1.0, 7, 1);
  }

  /** The register as a float. */
  lemma SumAsFloat(sum: int, t: real, f: real) returns (v: real)
    requires -INT32_MAX < sum < INT32_MAX && Near(sum, t, f, 144.0)
    ensures v == Round(sum as real, BINARY32) && Abs(v) < Pow2(32) && Abs(v - t * f) < 256.0
  {
    PowerValues();
    ScaleTwice(1.0, 31, 1);
    ScaleTwice(1.0, 5, 1);
    RoundError(sum as real, BINARY32, 31);
    v := Round(sum as real, BINARY32);
  }

  /** The quotient as a float. */
  lemma QuotientAsFloat(k: int, q: real, t: real) returns (r: real)
    requires k >= -150 && Abs(q) < Pow2(k + 32) && Abs(q - t) < Pow2(k + 8)
    ensures r == Round(q, BINARY32) && Abs(r - t) < Pow2(k + 9)
  {
    RoundError(q, BINARY32, k + 32);
    r := Round(q, BINARY32);
    ScalePositive(1.0, k + 7);
    PowersGrow(k + 7, k + 8, 1.0);
    PowersGrow(k + 8, k + 9, 1.0);
  }

  /** A sum that is t, up to 144 units, is turned back into a float near t. */
  lemma DequantizeError(n: nat, e: int, sum: int, t: real, f: real)
    requires 1 <= n <= 32 && -96 <= e <= 122 && f == ScalingFactor(n, e)
    requires -INT32_MAX < sum < INT32_MAX && Near(sum, t, f, 144.0)
    ensures Abs(Dequantize(sum, f) - t) < Scale(n as real, e - 21)
  {
    var k := WorkersLog(n) + e - 30;
    var u := FactorTimes(n, e, f);
    var v := SumAsFloat(sum, t, f);
    var q := QuotientError(k, f, u, v, t);
    var r := QuotientAsFloat(k, q, t);
    WorkersPower(n, e);
  }

  lemma WorkersPower(n: nat, e: int)
    requires 1 <= n <= 32
    ensures Pow2(WorkersLog(n) + e - 21) <= Scale(n as real, e - 21)
  {
    PowerOfWorkers(n);
    ScaleTwice(1.0, WorkersLog(n), e - 21);
    ScaleMonotone(Pow2(WorkersLog(n)), n as real, e - 21);
  }

  lemma PowerOfWorkers(n: nat)
    requires 1 <= n <= 32
    ensures Pow2(WorkersLog(n)) <= n as real
  {
    PowerValues();
    assert Pow2(0) == 1.0 && Pow2(1) == 2.0;
  }

  // ---------- From the tensors and back ----------

  /** The result, turned back into a float, is the true sum of the workers' values, with an error of less
      than 2^(e-21) for each of them. */
  ghost predicate Accurate(result: int, xs: seq<real>, e: int)
    requires |xs| > 0
  {
    Abs(Dequantize(result, ScalingFactor(|xs|, e)) - SumOf(xs, |xs|)) < Scale(|xs| as real, e - 21)
  }

  lemma NearEnough(sum: int, t: real, f: real, bound: real)
    requires Near(sum, t, f, bound) && bound <= 144.0
    ensures Near(sum, t, f, 144.0)
  {
  }

  lemma SumIsAccurate(xs: seq<real>, e: int, q: seq<int>, f: real, sum: int)
    requires 1 <= |xs| <= MAX_WORKERS && -96 <= e <= 122 && f == ScalingFactor(|xs|, e)
    requires |q| == |xs| && forall w :: 0 <= w < |xs| ==> Abs(xs[w]) < Pow2(e) && q[w] == Quantize(xs[w], f)
    requires sum == SignedSum(q, Basics.Below(|xs|), |xs|) && -INT32_MAX < sum < INT32_MAX
    ensures Accurate(sum, xs, e)
  {
    var n := |xs|;
    var error := 0.5 + Pow2(6 - WorkersLog(n));
    forall w | 0 <= w < n
      ensures Near(q[w], xs[w], f, error)
    {
      QuantizeError(n, e, xs[w], f, q[w]);
    }
    SumError(xs, q, f, error, n);
    ErrorTotal(n);
    NearEnough(sum, SumOf(xs, n), f, ErrorOf(error, n));
    DequantizeError(n, e, sum, SumOf(xs, n), f);
  }

  /** What the register holds when all workers have been added. */
  lemma SwitchSumIsAccurate(work: Work, r: nat, half: bool, i: nat, xs: seq<real>, e: int, register: Word)
    requires 1 <= |xs| == |work| <= MAX_WORKERS && -96 <= e <= 122
    requires forall w :: 0 <= w < |xs| ==> Represents(BINARY32, xs[w]) && Abs(xs[w]) < Pow2(e)
    requires HasRound(work, r) && i < LANES && Carries(work, r, half, i, Quantized(xs, e))
    requires register == LaneSum(work, r, half, i, Basics.Below(|work|), |work|) % WORD_MODULUS
    ensures Accurate(Decode(register), xs, e)
  {
    SwitchSumIsExact(work, r, half, i, xs, e, Basics.Below(|work|));
    SumIsAccurate(xs, e, Quantized(xs, e), ScalingFactor(|xs|, e), Decode(register));
  }

  /** The all-reduce of floats. In every run of the protocol, if the lane of a round carries the workers'
      values xs, quantized for an exponent e that covers them, then every result that any worker accepts
      for it is accurate. */
  lemma AcceptedIsAccurate(cfg: Config, acts: seq<Action>, s: System, m: nat, w: nat, r: nat,
                           half: bool, i: nat, xs: seq<real>, e: int)
    requires cfg.Valid() && ReachedBy(cfg, acts, s, m) && w < cfg.n
    requires w < |s.workers| && r < |s.workers[w].accepted| && r < cfg.Rounds() && i < LANES
    requires |xs| == cfg.n && -96 <= e <= 122
    requires forall v :: 0 <= v < |xs| ==> Represents(BINARY32, xs[v]) && Abs(xs[v]) < Pow2(e)
    requires Carries(cfg.work, r, half, i, Quantized(xs, e))
    ensures Accurate(Decode(Lane(s.workers[w].accepted[r], half, i)), xs, e)
  {
    ExactlyOnceAggregation(cfg, acts, s, m, w, r);
    SwitchSumIsAccurate(cfg.work, r, half, i, xs, e, Lane(s.workers[w].accepted[r], half, i));
  }

  /** If the exponent is the one sent for a normal number v, the error is below n * v / 2^20. */
  lemma ErrorBelowLargest(n: nat, v: real, e: int)
    requires v >= 0.0 && Pow2(-126) <= v < Pow2(127) && e == PacketExponent(v)
    ensures Scale(n as real, e - 21) <= Scale(v * n as real, -20)
  {
    PowersGrow(127, 128, 1.0);
    PacketExponentCovers(v);
    ScaledTimes(n, v, e);
  }

  lemma ScaledTimes(n: nat, v: real, e: int)
    requires Pow2(e - 1) <= v
    ensures Scale(n as real, e - 21) <= Scale(v * n as real, -20)
  {
    ScaleTwice(n as real, e - 1, -20);
    ManyPowers(n, e - 1);
    NotLessTimes(Pow2(e - 1), v, n as real);
    ScaleMonotone(v * n as real, Scale(n as real, e - 1), -20);
    assert e - 1 + -20 == e - 21;
  }

  lemma NotLessTimes(a: real, b: real, n: real)
    requires a <= b && n >= 0.0
    ensures a * n <= b * n
  {
    if n > 0.0 {
      Ordered(a, b, n);
    }
  }

  lemma TimesNear(n: nat, q: int, x: real, f: real, error: real)
    requires Near(q, x, f, error) && n > 0
    ensures Near(n * q, x * n as real, f, error * n as real)
  {
    var d, m := q as real - x * f, n as real;
    IntProduct(n, q);
    Commute(m, q as real);
    SwapFactors(x, m, f);
    Distribute(q as real, -(x * f), m);
    NegatedProduct(x * f, m);
    assert (n * q) as real - (x * m) * f == d * m;
    NotLessTimes(d, error, m);
    NotLessTimes(-d, error, m);
    NegatedProduct(d, m);
  }

  lemma SwapFactors(x: real, m: real, f: real)
    ensures (x * m) * f == (x * f) * m
  {
  }

  lemma MultipleNear(n: nat, e: int, q: int, x: real, f: real)
    requires 1 <= n <= MAX_WORKERS && Near(q, x, f, 0.5 + Pow2(6 - WorkersLog(n)))
    ensures Near(n * q, x * n as real, f, 144.0)
  {
    var error := 0.5 + Pow2(6 - WorkersLog(n));
    TimesNear(n, q, x, f, error);
    ErrorIs(error, n);
    ErrorTotal(n);
    NearEnough(n * q, x * n as real, f, error * n as real);
  }

  lemma MultipleBack(n: nat, e: int, x: real, f: real, q: int)
    requires 1 <= n <= MAX_WORKERS && -96 <= e <= 122 && Abs(x) < Pow2(e) && Fits(n, q)
    requires f == ScalingFactor(n, e) && q == Quantize(x, f)
    ensures Abs(Dequantize(n * q, f) - x * n as real) < Scale(n as real, e - 21)
  {
    QuantizeError(n, e, x, f, q);
    MultipleNear(n, e, q, x, f);
    DequantizeError(n, e, n * q, x * n as real, f);
  }

  /** The dummy backend multiplies instead of adding: what the worker loop returns for x is near n * x. */
  lemma MultipleIsAccurate(job: Job<real, real>, input: seq<real>, b: nat, j: nat, x: real, e: int, n: nat,
                           result: real)
    requires 1 <= n == job.numWorkers <= MAX_WORKERS && job.codec == FloatCodec(n)
    requires |input| == job.numel && j < job.Length(b) && Ordinary(job, input, b) && job.At(b, j) < job.numel
    requires x == input[job.At(b, j)] && e == PacketExponent(Largest(job.Block(input, b)))
    requires result == job.Reduced(input, b, j)
    ensures Abs(result - x * n as real) < Scale(n as real, e - 21)
  {
    OrdinaryElement(job, input, b, j, x, e);
    FloatResult(job, input, b, j, x, e, Quantize(x, ScalingFactor(n, e)));
    MultipleBack(n, e, x, ScalingFactor(n, e), Quantize(x, ScalingFactor(n, e)));
  }
}
