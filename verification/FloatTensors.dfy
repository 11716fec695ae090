/** The all-reduce of floating-point tensors over the protocol. Message r of a queue pair carries block r - 1,
    quantized with the exponent that came back with message r - 1, and the exponent of block r. So what a
    worker sends depends on what it has accepted; that it is what the protocol takes it to be, and that the
    exponents in use cover the values, is proved here, and that the tensors come out summed. */
module FloatTensors {
  import opened Basics
  import opened Slots
  import opened Aggregates
  import opened Protocol
  import opened Runs
  import Liveness
  import opened Quantizer
  import opened FloatJobs
  import opened Accuracy
  import F = Floats

  /** Entries of a packet: 32 in each half. */
  const ENTRIES := 2 * LANES

  /** The blocks of one worker's tensor that a queue pair carries. */
  type Blocks = seq<seq<real>>

  /** Entry i of one half of a packet, counted through. */
  function EntryNumber(half: bool, i: nat): nat {
    if half then LANES + i else i
  }

  // ---------- What PreprocessSingle and PostprocessSingle compute ----------

  /** An entry of message r, if e is the exponent that came back with message r - 1. Entries past the end of
      the block, and those of message 0, are whatever is in the buffer. */
  function SentEntry(n: nat, blocks: Blocks, r: nat, e: Exponent, buffer: Payload, half: bool, i: nat): Word
    requires n > 0 && r <= |blocks| && i < LANES
  {
    var k := EntryNumber(half, i);
    if r > 0 && k < |blocks[r - 1]| then Encode(Quantize(blocks[r - 1][k], ScalingFactor(n, e)))
    else Lane(buffer, half, i)
  }

  function SentHalf(n: nat, blocks: Blocks, r: nat, e: Exponent, buffer: Payload, half: bool): Vector
    requires n > 0 && r <= |blocks|
  {
    seq(LANES, i requires 0 <= i < LANES => SentEntry(n, blocks, r, e, buffer, half, i))
  }

  function SentExponent(blocks: Blocks, r: nat, buffer: Payload): Exponent {
    if r < |blocks| then PacketExponent(Largest(blocks[r])) else buffer.e0
  }

  function Carried(n: nat, blocks: Blocks, r: nat, e: Exponent, buffer: Payload): Payload
    requires n > 0 && r <= |blocks|
  {
    Payload(SentHalf(n, blocks, r, e, buffer, false), SentHalf(n, blocks, r, e, buffer, true),
            SentExponent(blocks, r, buffer), buffer.e1)
  }

  /** The exponent that came back last; there is none before message 0. */
  function LastExponent(accepted: seq<Payload>): Exponent {
    if accepted == [] then 0 else accepted[|accepted| - 1].e0
  }

  /** The next message of a worker that has accepted these results. */
  function NextPayload(n: nat, blocks: Blocks, accepted: seq<Payload>, buffer: Payload): Payload
    requires n > 0 && |accepted| <= |blocks|
  {
    Carried(n, blocks, |accepted|, LastExponent(accepted), buffer)
  }

  /** What the worker writes to the output for an element of block b. */
  function Output(n: nat, accepted: seq<Payload>, b: nat, half: bool, i: nat): real
    requires n > 0 && b + 1 < |accepted| && i < LANES
  {
    Dequantize(Decode(Lane(accepted[b + 1], half, i)), ScalingFactor(n, accepted[b].e0))
  }

  // ---------- The tensors of all workers ----------

  predicate HasBlock(xs: seq<Blocks>, b: nat) {
    forall w :: 0 <= w < |xs| ==> b < |xs[w]|
  }

  /** The exponents that the workers send for block b. */
  function SentExponents(xs: seq<Blocks>, b: nat): (es: seq<Exponent>)
    requires HasBlock(xs, b)
    ensures |es| == |xs| && forall w :: 0 <= w < |xs| ==> es[w] == PacketExponent(Largest(xs[w][b]))
  {
    seq(|xs|, w requires 0 <= w < |xs| => PacketExponent(Largest(xs[w][b])))
  }

  /** The largest of the first k exponents. */
  function LargestExponent(es: seq<Exponent>, k: nat): Exponent
    requires k <= |es|
  {
    if k == 0 then -128 else Max(LargestExponent(es, k - 1), es[k - 1])
  }

  /** The exponent that all workers' blocks b are quantized for. */
  function BlockExponent(xs: seq<Blocks>, b: nat): Exponent
    requires HasBlock(xs, b)
  {
    LargestExponent(SentExponents(xs, b), |xs|)
  }

  /** The exponent for which message r is quantized. */
  function ExponentBefore(xs: seq<Blocks>, r: nat): Exponent
    requires r > 0 ==> HasBlock(xs, r - 1)
  {
    if r == 0 then 0 else BlockExponent(xs, r - 1)
  }

  ghost predicate SameShape(xs: seq<Blocks>, blocks: nat) {
    forall w :: 0 <= w < |xs| ==> |xs[w]| == blocks
  }

  /** A job slice on these tensors: one round more than blocks. `buffers` is what is left in the buffers. */
  ghost predicate FloatSlice(cfg: Config, xs: seq<Blocks>, buffers: Work)
  {
    && cfg.Valid() && |xs| == |buffers| == cfg.n
    && SameShape(xs, cfg.Rounds() - 1)
    && (forall w :: 0 <= w < cfg.n ==> |buffers[w]| == cfg.Rounds())
    && (forall w, r :: 0 <= w < cfg.n && 0 <= r < cfg.Rounds() ==> WorkIs(cfg, xs, buffers, w, r))
  }

  ghost predicate WorkIs(cfg: Config, xs: seq<Blocks>, buffers: Work, w: nat, r: nat)
    requires cfg.Valid() && |xs| == |buffers| == cfg.n && SameShape(xs, cfg.Rounds() - 1)
    requires w < cfg.n && r < cfg.Rounds() && |buffers[w]| == cfg.Rounds()
  {
    cfg.work[w][r] == Carried(cfg.n, xs[w], r, ExponentBefore(xs, r), buffers[w][r])
  }

  /** All blocks number b have the same length, and their values are finite and of a size the quantizer is
      made for. */
  ghost predicate OrdinaryBlock(xs: seq<Blocks>, b: nat, length: nat)
    requires HasBlock(xs, b)
  {
    && length <= ENTRIES && -96 <= BlockExponent(xs, b) <= 122
    && forall w :: 0 <= w < |xs| ==> |xs[w][b]| == length && OrdinaryValues(xs[w][b])
  }

  ghost predicate OrdinaryValues(block: seq<real>) {
    Largest(block) < F.Pow2(127) && forall k :: 0 <= k < |block| ==> F.Represents(F.BINARY32, block[k])
  }

  /** The values of all workers that are summed: element k of block b. */
  function Column(xs: seq<Blocks>, b: nat, k: nat): (c: seq<real>)
    requires forall w :: 0 <= w < |xs| ==> b < |xs[w]| && k < |xs[w][b]|
    ensures |c| == |xs| && forall w :: 0 <= w < |xs| ==> c[w] == xs[w][b][k]
  {
    seq(|xs|, w requires 0 <= w < |xs| => xs[w][b][k])
  }

  // ---------- The extra batch ----------

  /** The extra batch of a float job adds one round to every queue pair. */
  lemma ExtraRound(main: Config, cfg: Config)
    requires main.qpn < main.batch <= main.total && cfg == main.(total := main.total + main.batch)
    ensures cfg.Rounds() == main.Rounds() + 1
  {
    var d := main.total - main.qpn - 1;
    var q := d / main.batch;
    assert d == q * main.batch + d % main.batch;
    assert (q + 1) * main.batch == q * main.batch + main.batch;
    DivMod(d + main.batch, q + 1, main.batch, d % main.batch);
  }

  // ---------- Exponents ----------

  lemma {:induction false} LargestOfAll(work: Work, r: nat, s: set<nat>, es: seq<Exponent>, k: nat)
    requires HasRound(work, r) && k <= |work| == |es|
    requires forall w: nat :: w < |work| ==> w in s && work[w][r].e0 == es[w]
    ensures MaxExponent(work, r, false, s, k) == LargestExponent(es, k)
  {
    if k > 0 {
      LargestOfAll(work, r, s, es, k - 1);
    }
  }

  lemma ExponentsCarried(cfg: Config, xs: seq<Blocks>, buffers: Work, r: nat)
    requires FloatSlice(cfg, xs, buffers) && r + 1 < cfg.Rounds()
    ensures MaxExponent(cfg.work, r, false, cfg.Everyone(), cfg.n) == BlockExponent(xs, r)
  {
    var es := SentExponents(xs, r);
    forall w: nat | w < cfg.n
      ensures cfg.work[w][r].e0 == es[w]
    {
      assert WorkIs(cfg, xs, buffers, w, r);
    }
    LargestOfAll(cfg.work, r, cfg.Everyone(), es, cfg.n);
  }

  /** The exponent that comes back with message r is the largest one of all workers' blocks r. */
  lemma AcceptedExponent(cfg: Config, xs: seq<Blocks>, buffers: Work, acts: seq<Action>, s: System, m: nat,
                         w: nat, r: nat)
    requires FloatSlice(cfg, xs, buffers) && ReachedBy(cfg, acts, s, m) && w < cfg.n
    requires w < |s.workers| && r < |s.workers[w].accepted| && r + 1 < cfg.Rounds()
    ensures s.workers[w].accepted[r].e0 == BlockExponent(xs, r)
  {
    ReachedKeepsInv(cfg, acts, s, m);
    assert WorkerInv(cfg, s.slot, m, w, s.workers[w]);
    ExponentsCarried(cfg, xs, buffers, r);
  }

  lemma NextIsWork(cfg: Config, xs: seq<Blocks>, buffers: Work, w: nat, accepted: seq<Payload>)
    requires FloatSlice(cfg, xs, buffers) && w < cfg.n && |accepted| < cfg.Rounds()
    requires LastExponent(accepted) == ExponentBefore(xs, |accepted|)
    ensures cfg.work[w][|accepted|] == NextPayload(cfg.n, xs[w], accepted, buffers[w][|accepted|])
  {
    assert WorkIs(cfg, xs, buffers, w, |accepted|);
  }

  /** In every run, what a worker computes from its tensor and the results it has accepted is what the
      protocol takes for its next contribution. */
  lemma SendsWhatItComputes(cfg: Config, xs: seq<Blocks>, buffers: Work, acts: seq<Action>, s: System, m: nat, w: nat)
    requires FloatSlice(cfg, xs, buffers) && ReachedBy(cfg, acts, s, m) && w < cfg.n
    requires w < |s.workers| && Unfinished(cfg, s.workers[w])
    ensures |s.workers[w].accepted| < cfg.Rounds()
    ensures Send(cfg, w, s.workers[w]).data
         == NextPayload(cfg.n, xs[w], s.workers[w].accepted, buffers[w][|s.workers[w].accepted|])
  {
    UnfinishedHere(cfg, acts, s, m, w);
    if |s.workers[w].accepted| > 0 {
      AcceptedExponent(cfg, xs, buffers, acts, s, m, w, |s.workers[w].accepted| - 1);
    }
    NextIsWork(cfg, xs, buffers, w, s.workers[w].accepted);
  }

  lemma UnfinishedHere(cfg: Config, acts: seq<Action>, s: System, m: nat, w: nat)
    requires cfg.Valid() && ReachedBy(cfg, acts, s, m) && w < cfg.n && w < |s.workers| && Unfinished(cfg, s.workers[w])
    ensures |s.workers[w].accepted| < cfg.Rounds()
  {
    ReachedKeepsInv(cfg, acts, s, m);
    Liveness.UnfinishedAwaits(cfg, s, m, w);
  }

  lemma {:induction false} ExponentIsLarge(es: seq<Exponent>, k: nat, w: nat)
    requires k <= |es| && w < k
    ensures es[w] <= LargestExponent(es, k)
  {
    if w < k - 1 {
      ExponentIsLarge(es, k - 1, w);
    }
  }

  lemma {:induction false} ExponentIsOne(es: seq<Exponent>, k: nat) returns (w: nat)
    requires 0 < k <= |es|
    ensures w < k && es[w] == LargestExponent(es, k)
  {
    w := k - 1;
    if k > 1 && LargestExponent(es, k - 1) > es[k - 1] {
      w := ExponentIsOne(es, k - 1);
    }
  }

  /** The exponent of a block is one that some worker sends, and covers all workers' values in the block. */
  lemma ExponentIsSent(xs: seq<Blocks>, b: nat) returns (w: nat)
    requires |xs| > 0 && HasBlock(xs, b)
    ensures w < |xs| && PacketExponent(Largest(xs[w][b])) == BlockExponent(xs, b)
  {
    w := ExponentIsOne(SentExponents(xs, b), |xs|);
  }

  lemma ExponentCovers(xs: seq<Blocks>, b: nat, length: nat, w: nat, k: nat)
    requires HasBlock(xs, b) && OrdinaryBlock(xs, b, length) && w < |xs| && k < length
    ensures F.Abs(xs[w][b][k]) < F.Pow2(BlockExponent(xs, b)) && F.Represents(F.BINARY32, xs[w][b][k])
  {
    assert OrdinaryValues(xs[w][b]);
    ExponentIsLarge(SentExponents(xs, b), |xs|, w);
    GlobalExponentCovers(xs[w][b][k], Largest(xs[w][b]), BlockExponent(xs, b));
  }

  // ---------- Values ----------

  /** Message b + 1 carries block b, quantized for the block's exponent. */
  lemma BlockCarried(cfg: Config, xs: seq<Blocks>, buffers: Work, b: nat, length: nat, half: bool, i: nat)
    requires FloatSlice(cfg, xs, buffers) && b + 1 < cfg.Rounds() && OrdinaryBlock(xs, b, length)
    requires i < LANES && EntryNumber(half, i) < length
    ensures Carries(cfg.work, b + 1, half, i, Quantized(Column(xs, b, EntryNumber(half, i)), BlockExponent(xs, b)))
  {
    forall w | 0 <= w < cfg.n
      ensures Lane(cfg.work[w][b + 1], half, i)
           == Encode(Quantized(Column(xs, b, EntryNumber(half, i)), BlockExponent(xs, b))[w])
    {
      assert WorkIs(cfg, xs, buffers, w, b + 1);
    }
  }

  /** The output for element k of block b is the sum of the workers' elements, up to less than 2^(e-21) for
      each worker, where e is the largest of the exponents sent for their blocks. */
  ghost predicate Summed(xs: seq<Blocks>, accepted: seq<Payload>, b: nat, length: nat, half: bool, i: nat)
    requires |xs| > 0 && HasBlock(xs, b) && OrdinaryBlock(xs, b, length)
    requires b + 1 < |accepted| && i < LANES && EntryNumber(half, i) < length
  {
    F.Abs(Output(|xs|, accepted, b, half, i) - SumOf(Column(xs, b, EntryNumber(half, i)), |xs|))
    < F.Scale(|xs| as real, BlockExponent(xs, b) - 21)
  }

  lemma AccurateOutput(xs: seq<Blocks>, accepted: seq<Payload>, b: nat, length: nat, half: bool, i: nat, c: seq<real>)
    requires |xs| > 0 && HasBlock(xs, b) && OrdinaryBlock(xs, b, length)
    requires b + 1 < |accepted| && i < LANES && EntryNumber(half, i) < length
    requires accepted[b].e0 == BlockExponent(xs, b) && c == Column(xs, b, EntryNumber(half, i))
    requires Accurate(Decode(Lane(accepted[b + 1], half, i)), c, BlockExponent(xs, b))
    ensures Summed(xs, accepted, b, length, half, i)
  {
  }

  lemma CoveredColumn(xs: seq<Blocks>, b: nat, length: nat, k: nat, c: seq<real>)
    requires HasBlock(xs, b) && OrdinaryBlock(xs, b, length) && k < length && c == Column(xs, b, k)
    ensures forall v :: 0 <= v < |c| ==> F.Represents(F.BINARY32, c[v]) && F.Abs(c[v]) < F.Pow2(BlockExponent(xs, b))
  {
    forall v | 0 <= v < |xs|
      ensures F.Represents(F.BINARY32, c[v]) && F.Abs(c[v]) < F.Pow2(BlockExponent(xs, b))
    {
      ExponentCovers(xs, b, length, v, k);
    }
  }

  /** The all-reduce of the tensors: in every run, once a worker has accepted message b + 1, each element of
      block b that it writes is the sum of all workers' elements. */
  lemma TensorsSummed(cfg: Config, xs: seq<Blocks>, buffers: Work, acts: seq<Action>, s: System, m: nat, w: nat,
                      b: nat, length: nat, half: bool, i: nat)
    requires FloatSlice(cfg, xs, buffers) && ReachedBy(cfg, acts, s, m) && w < cfg.n
    requires w < |s.workers| && b + 1 < |s.workers[w].accepted| && b + 1 < cfg.Rounds()
    requires OrdinaryBlock(xs, b, length) && i < LANES && EntryNumber(half, i) < length
    ensures Summed(xs, s.workers[w].accepted, b, length, half, i)
  {
    var c := Column(xs, b, EntryNumber(half, i));
    CoveredColumn(xs, b, length, EntryNumber(half, i), c);
    BlockCarried(cfg, xs, buffers, b, length, half, i);
    AcceptedExponent(cfg, xs, buffers, acts, s, m, w, b);
    AcceptedIsAccurate(cfg, acts, s, m, w, b + 1, half, i, c, BlockExponent(xs, b));
    AccurateOutput(xs, s.workers[w].accepted, b, length, half, i, c);
  }

  // ---------- To the end ----------

  lemma {:induction false} RunsCompose(cfg: Config, s: System, a: seq<Action>, b: seq<Action>)
    requires cfg.Valid() && Runnable(cfg, s, a) && Runnable(cfg, Run(cfg, s, a), b)
    ensures Runnable(cfg, s, a + b) && Run(cfg, s, a + b) == Run(cfg, Run(cfg, s, a), b)
    decreases |a|
  {
    if a == [] {
      assert a + b == b;
    } else {
      RunsCompose(cfg, Next(cfg, s, a[0]), a[1..], b);
      RunThrough(cfg, s, a[0], a[1..] + b);
      FirstThenRest(a, b);
    }
  }

  lemma RunThrough(cfg: Config, s: System, a: Action, acts: seq<Action>)
    requires cfg.Valid() && CanStep(cfg, s, a) && Runnable(cfg, Next(cfg, s, a), acts)
    ensures Runnable(cfg, s, [a] + acts) && Run(cfg, s, [a] + acts) == Run(cfg, Next(cfg, s, a), acts)
  {
    assert ([a] + acts)[0] == a && ([a] + acts)[1..] == acts;
  }

  ghost predicate OrdinaryTensors(xs: seq<Blocks>, lengths: seq<nat>) {
    && |xs| > 0 && SameShape(xs, |lengths|)
    && forall b: nat :: b < |lengths| ==> HasBlock(xs, b) && OrdinaryBlock(xs, b, lengths[b])
  }

  /** A worker has written every element of its tensor, and all of them are summed. */
  ghost predicate WorkerSummed(xs: seq<Blocks>, lengths: seq<nat>, accepted: seq<Payload>)
    requires OrdinaryTensors(xs, lengths)
  {
    && |accepted| == |lengths| + 1
    && forall b: nat, half, i: nat :: b < |lengths| && i < LANES && EntryNumber(half, i) < lengths[b] ==>
         Summed(xs, accepted, b, lengths[b], half, i)
  }

  ghost predicate AllSummed(xs: seq<Blocks>, lengths: seq<nat>, workers: seq<Worker>)
    requires OrdinaryTensors(xs, lengths)
  {
    |workers| == |xs| && forall w :: 0 <= w < |workers| ==> WorkerSummed(xs, lengths, workers[w].accepted)
  }

  lemma FinishedIsSummed(cfg: Config, xs: seq<Blocks>, buffers: Work, lengths: seq<nat>, acts: seq<Action>, s: System)
    requires FloatSlice(cfg, xs, buffers) && OrdinaryTensors(xs, lengths) && |lengths| + 1 == cfg.Rounds()
    requires Runnable(cfg, Init(cfg), acts) && s == Run(cfg, Init(cfg), acts) && Liveness.HasAllResults(cfg, s)
    ensures AllSummed(xs, lengths, s.workers)
  {
    var m := RoundsAfterRun(cfg, Init(cfg), 0, acts);
    forall w: nat | w < cfg.n
      ensures WorkerSummed(xs, lengths, s.workers[w].accepted)
    {
      forall b: nat, half, i: nat | b < |lengths| && i < LANES && EntryNumber(half, i) < lengths[b]
        ensures Summed(xs, s.workers[w].accepted, b, lengths[b], half, i)
      {
        TensorsSummed(cfg, xs, buffers, acts, s, m, w, b, lengths[b], half, i);
      }
    }
  }

  /** From every state that any run reaches, a loss-free continuation leaves every worker with the whole
      tensor summed. */
  lemma TensorsGetSummed(cfg: Config, xs: seq<Blocks>, buffers: Work, lengths: seq<nat>, past: seq<Action>,
                         s: System, m: nat)
    requires FloatSlice(cfg, xs, buffers) && OrdinaryTensors(xs, lengths) && |lengths| + 1 == cfg.Rounds()
    requires ReachedBy(cfg, past, s, m)
    ensures exists acts ::
              Liveness.LossFree(acts) && Runnable(cfg, s, acts) && AllSummed(xs, lengths, Run(cfg, s, acts).workers)
  {
    Liveness.NoStuckState(cfg, past, s, m);
    var acts :| Liveness.LossFree(acts) && Runnable(cfg, s, acts) && Liveness.HasAllResults(cfg, Run(cfg, s, acts));
    RunsCompose(cfg, Init(cfg), past, acts);
    FinishedIsSummed(cfg, xs, buffers, lengths, past + acts, Run(cfg, s, acts));
  }
}
