/** Facts about numbers and finite sets that several modules need. */
module Basics {

  function Pow2(k: nat): (p: nat)
    ensures p > 0
  {
    if k == 0 then 1 else 2 * Pow2(k - 1)
  }

  ghost predicate IsPowerOfTwo(p: nat) {
    exists k: nat :: p == Pow2(k)
  }

  lemma HalfPower(p: nat)
    requires p > 0 && p % 2 == 0
    ensures IsPowerOfTwo(p) <==> IsPowerOfTwo(p / 2)
  {
    if IsPowerOfTwo(p) {
      var k: nat :| p == Pow2(k);
      assert p / 2 == Pow2(k - 1);
    }
    if IsPowerOfTwo(p / 2) {
      var k: nat :| p / 2 == Pow2(k);
      assert p == Pow2(k + 1);
    }
  }

  lemma PowerIsEven(p: nat)
    requires IsPowerOfTwo(p) && p != 1
    ensures p % 2 == 0 && p > 1 && IsPowerOfTwo(p / 2)
  {
    var k: nat :| p == Pow2(k);
    assert p == 2 * Pow2(k - 1);
    HalfPower(p);
  }

  lemma {:induction false} ProductIsNat(t: nat, d: nat)
    ensures t * d >= 0
  {
    if t > 0 {
      ProductIsNat(t - 1, d);
      assert t * d == (t - 1) * d + d;
    }
  }

  /** Multiples of d are at least d apart. */
  lemma Steps(p: int, q: int, d: nat)
    requires p < q
    ensures p * d + d <= q * d
  {
    var t := q - p - 1;
    ProductIsNat(t, d);
    assert q * d == (p + 1 + t) * d == p * d + d + t * d;
  }

  /** Quotient and remainder are unique. */
  lemma DivMod(x: int, q: int, d: nat, r: nat)
    requires r < d && x == q * d + r
    ensures x / d == q && x % d == r
  {
    var p := x / d;
    assert x == p * d + x % d;
    if p < q {
      Steps(p, q, d);
    } else if q < p {
      Steps(q, p, d);
    }
  }

  lemma FirstThenRest<T>(a: seq<T>, b: seq<T>)
    requires a != []
    ensures [a[0]] + (a[1..] + b) == a + b
  {
  }

  lemma SubsetSize<T>(a: set<T>, b: set<T>)
    requires a <= b
    ensures |a| <= |b|
    ensures |a| == |b| ==> a == b
  {
    assert b == a + (b - a);
  }

  /** The numbers below n. */
  ghost function Below(n: nat): (s: set<nat>)
    ensures |s| == n && forall w: nat :: w in s <==> w < n
  {
    if n == 0 then {} else Below(n - 1) + {n - 1}
  }
}
