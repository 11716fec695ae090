/** Floating-point jobs: the codec that the prepostprocessor gives to the worker loop, and what the loop
    returns for them. */
module FloatJobs {
  import opened Slots
  import opened Floats
  import opened Quantizer
  import opened AllReduceJobs

  /** The largest magnitude of a packet's elements; 0 if there are none. */
  function Largest(xs: seq<real>): (m: real)
    ensures m >= 0.0
    ensures forall i :: 0 <= i < |xs| ==> Abs(xs[i]) <= m
  {
    if xs == [] then 0.0
    else
      var rest, last := Largest(xs[..|xs| - 1]), Abs(xs[|xs| - 1]);
      assert forall i :: 0 <= i < |xs| - 1 ==> xs[i] == xs[..|xs| - 1][i];
      if last > rest then last else rest
  }

  /** The loop of PreprocessSingle that finds it. */
  method FindLargest(input: array<real>, start: nat, count: nat) returns (m: real)
    requires start + count <= input.Length
    ensures m == Largest(input[start..start + count])
  {
    m := 0.0;
    for i := 0 to count
      invariant m == Largest(input[start..start + i])
    {
      var v := Abs(input[start + i]);
      assert input[start..start + (i + 1)][..i] == input[start..start + i];
      if v > m {
        m := v;
      }
    }
  }

  /** The integer is converted to a float and divided by the factor. */
  function Dequantize(v: int, factor: real): real {
    if factor == 0.0 then 0.0 else Round(Round(v as real, BINARY32) / factor, BINARY32)
  }

  function FloatCodec(n: nat): Codec<real, real>
    requires n > 0
  {
    Float32(xs => PacketExponent(Largest(xs)),
            e => ScalingFactor(n, e),
            (x, factor) => Encode(Quantize(x, factor)),
            (w, factor) => Dequantize(Decode(w), factor))
  }

  /** A multiple that fits is computed exactly on 32 bits. */
  lemma MultipleIsExact(n: nat, q: int)
    requires Fits(n, q)
    ensures Decode(Encode(q) * n % WORD_MODULUS) == n * q
  {
    var t := q / WORD_MODULUS;
    assert q == t * WORD_MODULUS + Encode(q);
    TimesRest(n, t, q, Encode(q));
    DecodeExact(Encode(q) * n, n * q);
  }

  lemma TimesRest(n: nat, t: int, q: int, w: Word)
    requires q == t * WORD_MODULUS + w
    ensures (w * n - n * q) % WORD_MODULUS == 0
  {
    assert w * n - n * q == -(t * n) * WORD_MODULUS;
    MultipleOf(-(t * n));
  }

  lemma MultipleOf(k: int)
    ensures k * WORD_MODULUS % WORD_MODULUS == 0
  {
  }

  /** A job whose floats are finite and of a size the quantizer is made for. */
  ghost predicate Ordinary(job: Job<real, real>, input: seq<real>, b: nat)
    requires |input| == job.numel
  {
    var xs := job.Block(input, b);
    && (forall i :: 0 <= i < |xs| ==> Represents(BINARY32, xs[i]))
    && Largest(xs) < Pow2(127) && -96 <= PacketExponent(Largest(xs)) <= 122
  }

  lemma ReducedIs(job: Job<real, real>, input: seq<real>, b: nat, j: nat, factor: real, q: int)
    requires 1 <= job.numWorkers && job.codec == FloatCodec(job.numWorkers)
    requires |input| == job.numel && j < job.Length(b) && job.At(b, j) < job.numel
    requires factor == ScalingFactor(job.numWorkers, PacketExponent(Largest(job.Block(input, b))))
    requires q == Quantize(input[job.At(b, j)], factor)
    ensures job.Reduced(input, b, j) == Dequantize(Decode(Encode(q) * job.numWorkers % WORD_MODULUS), factor)
  {
  }

  lemma OrdinaryElement(job: Job<real, real>, input: seq<real>, b: nat, j: nat, x: real, e: int)
    requires |input| == job.numel && j < job.Length(b) && Ordinary(job, input, b) && job.At(b, j) < job.numel
    requires x == input[job.At(b, j)] && e == PacketExponent(Largest(job.Block(input, b)))
    ensures Represents(BINARY32, x) && Abs(x) < Pow2(e) && -96 <= e <= 122
  {
    var xs := job.Block(input, b);
    assert xs[j] == x;
    GlobalExponentCovers(x, Largest(xs), e);
  }

  lemma FitsAsQuantized(n: nat, e: int, x: real, q: int)
    requires 1 <= n <= MAX_WORKERS && -96 <= e <= 122 && Represents(BINARY32, x) && Abs(x) < Pow2(e)
    requires q == Quantize(x, ScalingFactor(n, e))
    ensures Fits(n, q)
  {
    QuantizedBound(n, e, x);
  }

  /** What the loop returns for an element x of a block: the sent exponent e covers x, the quantized value q
      is multiplied by the number of workers without overflow, and dequantized with the same factor. */
  lemma FloatResult(job: Job<real, real>, input: seq<real>, b: nat, j: nat, x: real, e: int, q: int)
    requires 1 <= job.numWorkers <= MAX_WORKERS && job.codec == FloatCodec(job.numWorkers)
    requires |input| == job.numel && j < job.Length(b) && Ordinary(job, input, b) && job.At(b, j) < job.numel
    requires x == input[job.At(b, j)] && e == PacketExponent(Largest(job.Block(input, b)))
    requires q == Quantize(x, ScalingFactor(job.numWorkers, e))
    ensures Abs(x) < Pow2(e) && Fits(job.numWorkers, q)
    ensures job.Reduced(input, b, j) == Dequantize(job.numWorkers * q, ScalingFactor(job.numWorkers, e))
  {
    OrdinaryElement(job, input, b, j, x, e);
    FitsAsQuantized(job.numWorkers, e, x, q);
    MultipleIsExact(job.numWorkers, q);
    ReducedIs(job, input, b, j, ScalingFactor(job.numWorkers, e), q);
  }
}
