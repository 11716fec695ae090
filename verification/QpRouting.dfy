/** Routing of results to queue pairs: for each queue pair of a worker, the controller installs a ternary
    entry on the pool index. */
module QpRouting {
  import opened Basics

  /** Pool indices have 15 bits, the lowest of them for the set. */
  const POOL_INDEX_BITS: nat := 15
  const SLOT_BITS: nat := 0x7ffe

  // ---------- Bits of natural numbers ----------

  function And(a: nat, b: nat): nat
    decreases a
  {
    if a == 0 then 0 else (if a % 2 == 1 && b % 2 == 1 then 1 else 0) + 2 * And(a / 2, b / 2)
  }

  /** a & ~b */
  function AndNot(a: nat, b: nat): nat
    decreases a
  {
    if a == 0 then 0 else (if a % 2 == 1 && b % 2 == 0 then 1 else 0) + 2 * AndNot(a / 2, b / 2)
  }

  /** The controller's test, p & (p - 1), accepts exactly the powers of two among the positive numbers. */
  lemma {:induction false} PowerOfTwoTest(p: nat)
    requires p > 0
    ensures And(p, p - 1) == 0 <==> IsPowerOfTwo(p)
  {
    if p == 1 {
      assert p == Pow2(0);
    } else if p % 2 == 1 {
      AndSelf(p / 2);
      forall k: nat
        ensures p != Pow2(k)
      {
      }
    } else {
      PowerOfTwoTest(p / 2);
      assert (p - 1) / 2 == p / 2 - 1;
      HalfPower(p);
    }
  }

  lemma {:induction false} AndSelf(a: nat)
    ensures And(a, a) == a
    decreases a
  {
    if a > 0 {
      AndSelf(a / 2);
    }
  }

  lemma {:induction false} AndNotNothing(a: nat)
    ensures AndNot(a, 0) == a
    decreases a
  {
    if a > 0 {
      AndNotNothing(a / 2);
    }
  }

  lemma {:induction false} ClearLow(n: nat, k: nat)
    requires k <= n
    ensures Pow2(k) <= Pow2(n) && AndNot(Pow2(n) - 1, Pow2(k) - 1) == Pow2(n) - Pow2(k)
  {
    if k == 0 {
      AndNotNothing(Pow2(n) - 1);
    } else {
      ClearLow(n - 1, k - 1);
      assert (Pow2(n) - 1) / 2 == Pow2(n - 1) - 1 && (Pow2(k) - 1) / 2 == Pow2(k - 1) - 1;
    }
  }

  lemma {:induction false} AndOnes(a: nat, n: nat)
    requires a < Pow2(n)
    ensures And(a, Pow2(n) - 1) == a
    decreases a
  {
    if a > 0 {
      assert n > 0;
      assert (Pow2(n) - 1) / 2 == Pow2(n - 1) - 1;
      AndOnes(a / 2, n - 1);
    }
  }

  lemma RemainderStep(a: nat, m: nat)
    requires m > 0
    ensures a % (2 * m) == 2 * (a / 2 % m) + a % 2
  {
    var q, r := a / 2 / m, a / 2 % m;
    assert a / 2 == q * m + r;
    assert a == q * (2 * m) + (2 * r + a % 2);
    DivMod(a, q, 2 * m, 2 * r + a % 2);
  }

  lemma AndEven(a: nat, b: nat)
    ensures And(a, 2 * b) == 2 * And(a / 2, b)
  {
    assert 2 * b / 2 == b;
  }

  lemma HighBitsStep(a: nat, m: nat, h: nat)
    requires m > 0 && And(a / 2, h) == a / 2 - a / 2 % m
    ensures And(a, 2 * h) == a - a % (2 * m)
  {
    AndEven(a, h);
    RemainderStep(a, m);
  }

  /** The bits from k on. */
  lemma {:induction false} HighBits(a: nat, k: nat, n: nat)
    requires k <= n && a < Pow2(n)
    ensures Pow2(k) <= Pow2(n) && And(a, Pow2(n) - Pow2(k)) == a - a % Pow2(k)
    decreases k
  {
    if k == 0 {
      AndOnes(a, n);
    } else {
      var m, h := Pow2(k - 1), Pow2(n - 1);
      assert Pow2(k) == 2 * m && Pow2(n) == 2 * h;
      HighBits(a / 2, k - 1, n - 1);
      HighBitsStep(a, m, h - m);
    }
  }

  // ---------- The entries ----------

  datatype Entry = Entry(value: nat, mask: nat)

  predicate Matches(e: Entry, poolIndex: nat) {
    And(poolIndex, e.mask) == And(e.value, e.mask)
  }

  /** i * packets */
  function Start(i: nat, packets: nat): nat {
    if i == 0 then 0 else Start(i - 1, packets) + packets
  }

  lemma {:induction false} StartClosed(i: nat, packets: nat)
    ensures Start(i, packets) == i * packets
  {
    if i > 0 {
      StartClosed(i - 1, packets);
      assert (i - 1) * packets + packets == i * packets;
    }
  }

  lemma {:induction false} StartsApart(i: nat, j: nat, packets: nat)
    requires i < j
    ensures Start(i, packets) + packets <= Start(j, packets)
  {
    if i < j - 1 {
      StartsApart(i, j - 1, packets);
    }
  }

  /** The entry of queue pair number i, for some packets per message. */
  function EntryOf(i: nat, packets: nat): Entry
    requires packets > 0
  {
    Entry(2 * Start(i, packets), Mask(packets))
  }

  /** 0x7ffe & ~((packets - 1) << 1) */
  function Mask(packets: nat): nat
    requires packets > 0
  {
    AndNot(SLOT_BITS, (packets - 1) * 2)
  }

  /** The pool index of packet j of a message of queue pair i, in set b. */
  function PoolIndex(i: nat, packets: nat, j: nat, b: nat): nat {
    2 * (Start(i, packets) + j) + b
  }

  lemma MaskFrom(all: nat, n: nat, packets: nat, k: nat)
    requires packets == Pow2(k) && k <= n && all == 2 * (Pow2(n) - 1)
    ensures AndNot(all, (packets - 1) * 2) == 2 * (Pow2(n) - packets)
  {
    ClearLow(n, k);
    assert all / 2 == Pow2(n) - 1 && (packets - 1) * 2 / 2 == packets - 1;
  }

  lemma SlotBits()
    ensures POOL_INDEX_BITS > 0 && SLOT_BITS == 2 * (Pow2(POOL_INDEX_BITS - 1) - 1)
  {
    assert Pow2(14) == 0x4000;
  }

  lemma {:induction false} PowersGrow(k: nat, n: nat)
    requires k <= n
    ensures Pow2(k) <= Pow2(n)
    decreases n
  {
    if k < n {
      PowersGrow(k, n - 1);
    }
  }

  lemma {:induction false} RemainderOfStart(i: nat, packets: nat, x: nat)
    requires x < 2 * packets
    ensures (2 * Start(i, packets) + x) % (2 * packets) == x
  {
    if i == 0 {
      DivMod(x, 0, 2 * packets, x);
    } else {
      RemainderOfStart(i - 1, packets, x);
      AddOnce(2 * Start(i - 1, packets) + x, 2 * packets);
    }
  }

  lemma AddOnce(y: nat, d: nat)
    requires d > 0
    ensures (y + d) % d == y % d
  {
    assert y == y / d * d + y % d;
    assert (y / d + 1) * d == y / d * d + d;
    DivMod(y + d, y / d + 1, d, y % d);
  }

  /** A masked pool index is the value of its queue pair's entry. */
  lemma MaskedIndex(i: nat, packets: nat, k: nat, n: nat, x: nat, mask: nat)
    requires packets == Pow2(k) && k < n && x < 2 * packets && 2 * Start(i, packets) + x < Pow2(n)
    requires mask == Pow2(n) - Pow2(k + 1)
    ensures And(2 * Start(i, packets) + x, mask) == 2 * Start(i, packets)
  {
    HighBits(2 * Start(i, packets) + x, k + 1, n);
    RemainderOfStart(i, packets, x);
  }

  lemma MatchesOnly(packets: nat, k: nat, n: nat, i: nat, x: nat, other: nat, mask: nat)
    requires packets == Pow2(k) && k < n && x < 2 * packets
    requires 2 * Start(i, packets) + x < Pow2(n) && 2 * Start(other, packets) < Pow2(n)
    requires mask == Pow2(n) - Pow2(k + 1)
    ensures Matches(Entry(2 * Start(other, packets), mask), 2 * Start(i, packets) + x) <==> other == i
  {
    MaskedIndex(i, packets, k, n, x, mask);
    MaskedIndex(other, packets, k, n, 0, mask);
    if other < i {
      StartsApart(other, i, packets);
    } else if i < other {
      StartsApart(i, other, packets);
    }
  }

  lemma MaskIs(packets: nat, k: nat)
    requires packets == Pow2(k) && k < POOL_INDEX_BITS
    ensures Mask(packets) == Pow2(POOL_INDEX_BITS) - Pow2(k + 1)
  {
    SlotBits();
    MaskFrom(SLOT_BITS, POOL_INDEX_BITS - 1, packets, k);
  }

  /** The entry that a pool index of queue pair i matches is that of queue pair i, and no other. */
  lemma RoutedInRange(packets: nat, k: nat, n: nat, qps: nat, i: nat, x: nat, other: nat, e: Entry, index: nat)
    requires packets == Pow2(k) && 2 * Start(qps, packets) <= Pow2(n)
    requires i < qps && other < qps && x < 2 * packets
    requires e.value == 2 * Start(other, packets) && (k < n ==> e.mask == Pow2(n) - Pow2(k + 1))
    requires index == 2 * Start(i, packets) + x
    ensures index < Pow2(n)
    ensures Matches(e, index) <==> other == i
  {
    StartsApart(i, qps, packets);
    StartsApart(other, qps, packets);
    if k >= n {
      PowersGrow(n, k);
    }
    MatchesOnly(packets, k, n, i, x, other, e.mask);
    assert e == Entry(e.value, e.mask);
  }

  /** Every pool index of queue pair i matches the entry of queue pair i and no other, whenever the registers
      suffice for all queue pairs. */
  lemma RoutedToItsQueuePair(packets: nat, qps: nat, i: nat, j: nat, b: nat, index: nat, other: nat, e: Entry)
    requires IsPowerOfTwo(packets) && packets > 0 && 2 * Start(qps, packets) <= Pow2(POOL_INDEX_BITS)
    requires i < qps && other < qps && j < packets && b < 2
    requires index == PoolIndex(i, packets, j, b) && e == EntryOf(other, packets)
    ensures index < Pow2(POOL_INDEX_BITS)
    ensures Matches(e, index) <==> other == i
  {
    var k: nat :| packets == Pow2(k);
    if k < POOL_INDEX_BITS {
      MaskIs(packets, k);
    }
    RoutedInRange(packets, k, POOL_INDEX_BITS, qps, i, 2 * j + b, other, e, index);
  }

  /** Different packets and sets use different registers. */
  lemma DistinctRegisters(packets: nat, i: nat, j: nat, b: nat, i': nat, j': nat, b': nat)
    requires j < packets && j' < packets && b < 2 && b' < 2
    requires PoolIndex(i, packets, j, b) == PoolIndex(i', packets, j', b')
    ensures i == i' && j == j' && b == b'
  {
    if i < i' {
      StartsApart(i, i', packets);
    } else if i' < i {
      StartsApart(i', i, packets);
    }
  }

  method InstallEntries(packets: nat, qps: nat) returns (entries: seq<Entry>)
    requires packets > 0
    ensures |entries| == qps && forall i :: 0 <= i < qps ==> entries[i] == EntryOf(i, packets)
  {
    entries := [];
    for index := 0 to qps
      invariant |entries| == index && forall i :: 0 <= i < index ==> entries[i] == EntryOf(i, packets)
    {
      StartClosed(index, packets);
      var shiftedIndex := index * packets * 2;
      var mask := Mask(packets);
      entries := entries + [Entry(shiftedIndex, mask)];
    }
  }

  /** The entries that add_rdma_worker installs, or none if the number of packets per message is not a
      power of two. */
  method AddRdmaWorker(messageSize: nat, packetSize: nat, qps: nat)
    returns (packets: nat, ok: bool, entries: seq<Entry>)
    requires packetSize > 0
    ensures packets == messageSize / packetSize
    ensures ok <==> packets > 0 && IsPowerOfTwo(packets)
    ensures ok ==> |entries| == qps && forall i :: 0 <= i < qps ==> entries[i] == EntryOf(i, packets)
    ensures !ok ==> entries == []
  {
    packets := messageSize / packetSize;
    ok, entries := false, [];
    if packets == 0 {
      return;
    }
    PowerOfTwoTest(packets);
    if And(packets, packets - 1) != 0 {
      return;
    }
    ok := true;
    entries := InstallEntries(packets, qps);
  }
}
