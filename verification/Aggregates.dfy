/** What the switch is meant to compute: the lane-wise sum over a set of workers of what they
    contribute to a round, modulo 2^32, and the maximum of their exponents. */
module Aggregates {
  import opened Basics
  import opened Slots

  /** work[w][r] is what worker w contributes to round r. */
  type Work = seq<seq<Payload>>

  ghost predicate HasRound(work: Work, r: nat) {
    forall w :: 0 <= w < |work| ==> r < |work[w]|
  }

  function Lane(p: Payload, half: bool, i: nat): Word
    requires i < LANES
  {
    if half then p.d1[i] else p.d0[i]
  }

  /** Sum of one lane over the workers below k that are in s; not reduced. */
  ghost function LaneSum(work: Work, r: nat, half: bool, i: nat, s: set<nat>, k: nat): int
    requires k <= |work| && HasRound(work, r) && i < LANES
  {
    if k == 0 then 0
    else LaneSum(work, r, half, i, s, k - 1) + if k - 1 in s then Lane(work[k - 1][r], half, i) else 0
  }

  function Exp(p: Payload, second: bool): Exponent {
    if second then p.e1 else p.e0
  }

  /** Largest exponent over the workers below k that are in s; -128 when there is none. */
  ghost function MaxExponent(work: Work, r: nat, second: bool, s: set<nat>, k: nat): Exponent
    requires k <= |work| && HasRound(work, r)
  {
    if k == 0 then -128
    else
      var rest := MaxExponent(work, r, second, s, k - 1);
      if k - 1 in s then Max(rest, Exp(work[k - 1][r], second)) else rest
  }

  ghost function LaneSums(work: Work, r: nat, half: bool, s: set<nat>): Vector
    requires HasRound(work, r)
  {
    seq(LANES, i requires 0 <= i < LANES => LaneSum(work, r, half, i, s, |work|) % WORD_MODULUS)
  }

  /** The aggregate of round r over the workers in s. */
  ghost function Aggregate(work: Work, r: nat, s: set<nat>): Payload
    requires HasRound(work, r)
  {
    Payload(LaneSums(work, r, false, s), LaneSums(work, r, true, s),
            MaxExponent(work, r, false, s, |work|), MaxExponent(work, r, true, s, |work|))
  }

  /** The all-reduce result of round r. */
  ghost function Total(work: Work, r: nat): Payload
    requires HasRound(work, r)
  {
    Aggregate(work, r, Below(|work|))
  }

  lemma {:induction false} LaneSumInsert(work: Work, r: nat, half: bool, i: nat, s: set<nat>, w: nat, k: nat)
    requires k <= |work| && HasRound(work, r) && i < LANES && w !in s && w < |work|
    ensures LaneSum(work, r, half, i, s + {w}, k)
         == LaneSum(work, r, half, i, s, k) + if w < k then Lane(work[w][r], half, i) else 0
  {
    if k > 0 {
      LaneSumInsert(work, r, half, i, s, w, k - 1);
    }
  }

  lemma {:induction false} MaxExponentInsert(work: Work, r: nat, second: bool, s: set<nat>, w: nat, k: nat)
    requires k <= |work| && HasRound(work, r) && w !in s && w < |work|
    ensures MaxExponent(work, r, second, s + {w}, k)
         == if w < k then Max(MaxExponent(work, r, second, s, k), Exp(work[w][r], second))
            else MaxExponent(work, r, second, s, k)
  {
    if k > 0 {
      MaxExponentInsert(work, r, second, s, w, k - 1);
    }
  }

  lemma {:induction false} LaneSumEmpty(work: Work, r: nat, half: bool, i: nat, k: nat)
    requires k <= |work| && HasRound(work, r) && i < LANES
    ensures LaneSum(work, r, half, i, {}, k) == 0
  {
    if k > 0 {
      LaneSumEmpty(work, r, half, i, k - 1);
    }
  }

  lemma {:induction false} MaxExponentEmpty(work: Work, r: nat, second: bool, k: nat)
    requires k <= |work| && HasRound(work, r)
    ensures MaxExponent(work, r, second, {}, k) == -128
  {
    if k > 0 {
      MaxExponentEmpty(work, r, second, k - 1);
    }
  }

  lemma LaneSumsInsert(work: Work, r: nat, half: bool, s: set<nat>, w: nat)
    requires HasRound(work, r) && w !in s && w < |work|
    ensures var v := if half then work[w][r].d1 else work[w][r].d0;
            LaneSums(work, r, half, s + {w}) == AddVectors(LaneSums(work, r, half, s), v)
  {
    forall i | 0 <= i < LANES
      ensures LaneSums(work, r, half, s + {w})[i]
           == (LaneSums(work, r, half, s)[i] + Lane(work[w][r], half, i)) % WORD_MODULUS
    {
      LaneSumInsert(work, r, half, i, s, w, |work|);
      AddReduced(LaneSum(work, r, half, i, s, |work|), Lane(work[w][r], half, i));
    }
  }

  lemma AddReduced(sum: int, lane: int)
    ensures (sum + lane) % WORD_MODULUS == (sum % WORD_MODULUS + lane) % WORD_MODULUS
  {
  }

  /** A contribution that is not in the aggregate yet is added exactly once, in whatever order it arrives. */
  lemma AggregateInsert(work: Work, r: nat, s: set<nat>, w: nat)
    requires HasRound(work, r) && w !in s && w < |work|
    ensures Aggregate(work, r, s + {w}) == Combine(Aggregate(work, r, s), work[w][r])
  {
    LaneSumsInsert(work, r, false, s, w);
    LaneSumsInsert(work, r, true, s, w);
    MaxExponentInsert(work, r, false, s, w, |work|);
    MaxExponentInsert(work, r, true, s, w, |work|);
  }

  lemma LaneSumsSingle(work: Work, r: nat, half: bool, w: nat)
    requires HasRound(work, r) && w < |work|
    ensures LaneSums(work, r, half, {w}) == if half then work[w][r].d1 else work[w][r].d0
  {
    forall i | 0 <= i < LANES
      ensures LaneSums(work, r, half, {w})[i] == Lane(work[w][r], half, i)
    {
      LaneSumEmpty(work, r, half, i, |work|);
      LaneSumInsert(work, r, half, i, {}, w, |work|);
      assert {} + {w} == {w};
    }
  }

  /** Overwriting the accumulators is the right way to start a round. */
  lemma AggregateSingle(work: Work, r: nat, w: nat)
    requires HasRound(work, r) && w < |work|
    ensures Aggregate(work, r, {w}) == work[w][r]
  {
    LaneSumsSingle(work, r, false, w);
    LaneSumsSingle(work, r, true, w);
    MaxExponentEmpty(work, r, false, |work|);
    MaxExponentEmpty(work, r, true, |work|);
    MaxExponentInsert(work, r, false, {}, w, |work|);
    MaxExponentInsert(work, r, true, {}, w, |work|);
    assert {} + {w} == {w};
  }
}
