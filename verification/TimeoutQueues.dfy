/** The RDMA worker's timeout queue: a doubly linked list embedded in an array, newest entry first, with
    a backoff that doubles the timeout once it has fired too often. */
module TimeoutQueues {
  import opened Basics

  /** Nanoseconds, the tick of the worker's clock, per millisecond. */
  const TICKS_PER_MILLISECOND := 1_000_000

  datatype Entry = Entry(valid: bool, next: int, previous: int, timestamp: int)

  /** duration_cast from ticks to milliseconds: truncates toward zero. */
  function Milliseconds(ticks: int): int {
    if ticks >= 0 then ticks / TICKS_PER_MILLISECOND else -(-ticks / TICKS_PER_MILLISECOND)
  }

  /** Whether an entry pushed at time `pushed` has timed out at time `now`. */
  predicate Expired(pushed: int, now: int, timeout: nat) {
    Milliseconds(now - pushed) > timeout
  }

  // ---------- The list ----------

  /** What a link to position k of the order contains. */
  function LinkTo(order: seq<int>, k: int): int {
    if 0 <= k < |order| then order[k] else -1
  }

  predicate Apart(order: seq<int>, j: int, k: int)
    requires 0 <= j < |order| && 0 <= k < |order|
  {
    order[j] != order[k]
  }

  /** The order lists distinct entries. */
  ghost predicate Distinct(es: seq<Entry>, order: seq<int>) {
    && (forall k :: 0 <= k < |order| ==> 0 <= order[k] < |es|)
    && (forall j, k :: 0 <= j < k < |order| ==> Apart(order, j, k))
  }

  predicate NoOlder(es: seq<Entry>, order: seq<int>, j: int, k: int)
    requires 0 <= j < |order| && 0 <= k < |order| && 0 <= order[j] < |es| && 0 <= order[k] < |es|
  {
    es[order[j]].timestamp >= es[order[k]].timestamp
  }

  ghost predicate NewestFirst(es: seq<Entry>, order: seq<int>)
    requires Distinct(es, order)
  {
    forall j, k :: 0 <= j < k < |order| ==> NoOlder(es, order, j, k)
  }

  ghost predicate NodeAt(es: seq<Entry>, order: seq<int>, k: int)
    requires Distinct(es, order) && 0 <= k < |order|
  {
    && es[order[k]].valid
    && es[order[k]].next == LinkTo(order, k + 1)
    && es[order[k]].previous == LinkTo(order, k - 1)
  }

  ghost predicate Unused(e: Entry) {
    !e.valid && e.next == e.previous == -1
  }

  /** The entries, head and tail are the linked form of `order`. */
  ghost predicate Linked(es: seq<Entry>, head: int, tail: int, order: seq<int>) {
    && Distinct(es, order)
    && head == LinkTo(order, 0)
    && tail == LinkTo(order, |order| - 1)
    && (forall k :: 0 <= k < |order| ==> NodeAt(es, order, k))
    && (forall i :: 0 <= i < |es| && i !in order ==> Unused(es[i]))
  }

  /** The order without an index. */
  function Without(order: seq<int>, index: int): seq<int> {
    if order == [] then []
    else if order[0] == index then Without(order[1..], index)
    else [order[0]] + Without(order[1..], index)
  }

  lemma {:induction false} WithoutAbsent(order: seq<int>, index: int)
    requires index !in order
    ensures Without(order, index) == order
  {
    if order != [] {
      WithoutAbsent(order[1..], index);
    }
  }

  lemma {:induction false} WithoutAt(order: seq<int>, p: nat)
    requires p < |order| && order[p] !in order[..p] && order[p] !in order[p + 1..]
    ensures Without(order, order[p]) == order[..p] + order[p + 1..]
  {
    if p == 0 {
      WithoutAbsent(order[1..], order[0]);
    } else {
      assert order[0] in order[..p];
      assert order[1..][..p - 1] == order[1..p] && order[1..][p..] == order[p + 1..];
      WithoutAt(order[1..], p - 1);
      assert order[..p] == [order[0]] + order[1..][..p - 1];
    }
  }

  lemma {:induction false} WithoutMembers(order: seq<int>, index: int)
    ensures forall i :: i in Without(order, index) <==> i in order && i != index
  {
    if order != [] {
      WithoutMembers(order[1..], index);
    }
  }

  /** es[i] after the entry at position p has been taken off the list. */
  function Unlink(es: seq<Entry>, order: seq<int>, p: nat, i: nat): Entry
    requires p < |order| && i < |es|
  {
    if i == order[p] then Entry(false, -1, -1, es[i].timestamp)
    else if i == LinkTo(order, p - 1) then es[i].(next := LinkTo(order, p + 1))
    else if i == LinkTo(order, p + 1) then es[i].(previous := LinkTo(order, p - 1))
    else es[i]
  }

  /** The same, by the links. */
  lemma Unlinked(es: seq<Entry>, es': seq<Entry>, order: seq<int>, p: nat)
    requires p < |order| && 0 <= order[p] < |es| == |es'|
    requires es[order[p]].next == LinkTo(order, p + 1) && es[order[p]].previous == LinkTo(order, p - 1)
    requires forall i :: 0 <= i < |es| ==>
               es'[i] == if i == order[p] then Entry(false, -1, -1, es[i].timestamp)
                         else if i == es[order[p]].previous then es[i].(next := es[order[p]].next)
                         else if i == es[order[p]].next then es[i].(previous := es[order[p]].previous)
                         else es[i]
    ensures forall i :: 0 <= i < |es| ==> es'[i] == Unlink(es, order, p, i)
  {
  }

  /** The list without position p. */
  function Skip(order: seq<int>, p: nat): seq<int>
    requires p < |order|
  {
    order[..p] + order[p + 1..]
  }

  /** Where position k of the shorter list was before. */
  function Before(p: nat, k: nat): nat {
    if k < p then k else k + 1
  }

  lemma SkipFacts(es: seq<Entry>, order: seq<int>, p: nat)
    requires Distinct(es, order) && p < |order|
    ensures forall i :: i in Skip(order, p) <==> i in order && i != order[p]
    ensures Skip(order, p) == Without(order, order[p])
  {
    var order' := Skip(order, p);
    forall k | 0 <= k < |order|
      ensures k != p ==> order[k] in order' && order[k] != order[p]
    {
      if k < p {
        assert order'[k] == order[k] && Apart(order, k, p);
      } else if k > p {
        assert order'[k - 1] == order[k] && Apart(order, p, k);
      }
    }
    assert forall k :: 0 <= k < |order'| ==> order'[k] == order[Before(p, k)];
    WithoutAt(order, p);
  }

  lemma SkipKeepsOrder(es: seq<Entry>, es': seq<Entry>, order: seq<int>, p: nat)
    requires Distinct(es, order) && NewestFirst(es, order) && p < |order| && |es'| == |es|
    requires forall i :: 0 <= i < |es| ==> es'[i].timestamp == es[i].timestamp
    ensures Distinct(es', Skip(order, p)) && NewestFirst(es', Skip(order, p))
  {
    var order' := Skip(order, p);
    assert forall k :: 0 <= k < |order'| ==> order'[k] == order[Before(p, k)];
    forall j, k | 0 <= j < k < |order'|
      ensures Apart(order', j, k) && NoOlder(es', order', j, k)
    {
      assert Apart(order, Before(p, j), Before(p, k)) && NoOlder(es, order, Before(p, j), Before(p, k));
    }
  }

  lemma UnlinkKeepsList(es: seq<Entry>, es': seq<Entry>, head: int, tail: int, order: seq<int>, p: nat)
    requires Linked(es, head, tail, order) && NewestFirst(es, order) && p < |order| && |es'| == |es|
    requires forall i :: 0 <= i < |es| ==> es'[i] == Unlink(es, order, p, i)
    ensures Linked(es', if p == 0 then LinkTo(order, 1) else head,
                   if p == |order| - 1 then LinkTo(order, p - 1) else tail, Skip(order, p))
    ensures NewestFirst(es', Skip(order, p))
  {
    SkipFacts(es, order, p);
    SkipKeepsOrder(es, es', order, p);
    forall k | 0 <= k < |Skip(order, p)|
      ensures NodeAt(es', Skip(order, p), k)
    {
      UnlinkedNode(es, es', order, p, k);
    }
  }

  lemma UnlinkedNode(es: seq<Entry>, es': seq<Entry>, order: seq<int>, p: nat, k: nat)
    requires Distinct(es, order) && p < |order| && |es'| == |es| && k + 1 < |order|
    requires Distinct(es', Skip(order, p)) && NodeAt(es, order, Before(p, k))
    requires forall i :: 0 <= i < |es| ==> es'[i] == Unlink(es, order, p, i)
    ensures NodeAt(es', Skip(order, p), k)
  {
    var k0 := Before(p, k);
    var order' := Skip(order, p);
    assert order'[k] == order[k0];
    assert if k0 < p then Apart(order, k0, p) else Apart(order, p, k0);
    assert LinkTo(order', k + 1) == if k + 1 == p then LinkTo(order, p + 1) else LinkTo(order, k0 + 1);
    assert LinkTo(order', k - 1) == if k == p then LinkTo(order, p - 1) else LinkTo(order, k0 - 1);
    NeighboursDiffer(es, order, p);
    if k0 + 1 < p {
      assert Apart(order, k0, p - 1) && (p + 1 < |order| ==> Apart(order, k0, p + 1));
    } else if p + 1 < k0 {
      assert Apart(order, p + 1, k0) && (p > 0 ==> Apart(order, p - 1, k0));
    }
  }

  lemma NeighboursDiffer(es: seq<Entry>, order: seq<int>, p: nat)
    requires Distinct(es, order) && p < |order|
    ensures LinkTo(order, p - 1) != order[p] && LinkTo(order, p + 1) != order[p]
    ensures LinkTo(order, p - 1) == LinkTo(order, p + 1) ==> |order| == 1
  {
    assert p > 0 ==> Apart(order, p - 1, p);
    assert p + 1 < |order| ==> Apart(order, p, p + 1);
    assert 0 < p < |order| - 1 ==> Apart(order, p - 1, p + 1);
  }

  lemma LinkKeepsList(es: seq<Entry>, es': seq<Entry>, head: int, tail: int, order: seq<int>, index: nat,
                      timestamp: int)
    requires Linked(es, head, tail, order) && NewestFirst(es, order)
    requires index < |es| && index !in order && |es'| == |es| && (head != -1 ==> es[head].timestamp <= timestamp)
    requires forall i :: 0 <= i < |es| ==>
               es'[i] == if i == index then Entry(true, head, -1, timestamp)
                         else if i == head then es[i].(previous := index) else es[i]
    ensures Linked(es', index, if tail == -1 then index else tail, [index] + order)
    ensures NewestFirst(es', [index] + order)
  {
    var order' := [index] + order;
    forall j, k | 0 <= j < k < |order'|
      ensures Apart(order', j, k) && NoOlder(es', order', j, k)
    {
      assert order'[k] == order[k - 1];
      assert j > 0 ==> Apart(order, j - 1, k - 1) && NoOlder(es, order, j - 1, k - 1);
      assert k > 1 ==> NoOlder(es, order, 0, k - 1);
    }
    forall k | 0 <= k < |order'|
      ensures NodeAt(es', order', k)
    {
      if k > 0 {
        assert order'[k] == order[k - 1] && NodeAt(es, order, k - 1);
        assert k > 1 ==> Apart(order, 0, k - 1);
        assert LinkTo(order', k + 1) == LinkTo(order, k);
      }
    }
    assert order != [] ==> order[0] in order;
    assert forall i :: i in order' <==> i == index || i in order;
  }

  /** The indices met when following next-links, or previous-links, for at most `fuel` steps. */
  function Walk(es: seq<Entry>, from: int, forward: bool, fuel: nat): seq<int>
    decreases fuel
  {
    if fuel == 0 || !(0 <= from < |es|) then []
    else [from] + Walk(es, if forward then es[from].next else es[from].previous, forward, fuel - 1)
  }

  function Reversed(order: seq<int>): seq<int> {
    if order == [] then [] else Reversed(order[1..]) + [order[0]]
  }

  lemma {:induction false} WalkForward(es: seq<Entry>, head: int, tail: int, order: seq<int>, k: nat, fuel: nat)
    requires Linked(es, head, tail, order) && k <= |order| && fuel > |order| - k
    ensures Walk(es, LinkTo(order, k), true, fuel) == order[k..]
    decreases |order| - k
  {
    if k < |order| {
      assert NodeAt(es, order, k);
      WalkForward(es, head, tail, order, k + 1, fuel - 1);
    }
  }

  lemma {:induction false} WalkBackward(es: seq<Entry>, head: int, tail: int, order: seq<int>, k: nat, fuel: nat)
    requires Linked(es, head, tail, order) && k <= |order| && fuel > k
    ensures Walk(es, LinkTo(order, k - 1), false, fuel) == Reversed(order[..k])
    decreases k
  {
    if k > 0 {
      assert NodeAt(es, order, k - 1);
      WalkBackward(es, head, tail, order, k - 1, fuel - 1);
      ReversedAppend(order[..k - 1], order[k - 1]);
      assert order[..k] == order[..k - 1] + [order[k - 1]];
    }
  }

  lemma {:induction false} ReversedAppend(order: seq<int>, x: int)
    ensures Reversed(order + [x]) == [x] + Reversed(order)
  {
    if order != [] {
      ReversedAppend(order[1..], x);
      assert (order + [x])[1..] == order[1..] + [x];
    }
  }

  /** Next-links from the head and previous-links from the tail spell one list and its reverse, both
      ending after as many steps as the list is long. */
  lemma LinksSpellOneList(es: seq<Entry>, head: int, tail: int, order: seq<int>, fuel: nat)
    requires Linked(es, head, tail, order) && fuel > |order|
    ensures Walk(es, head, true, fuel) == order
    ensures Walk(es, tail, false, fuel) == Reversed(order)
  {
    WalkForward(es, head, tail, order, 0, fuel);
    WalkBackward(es, head, tail, order, |order|, fuel);
    assert order[..|order|] == order;
  }

  lemma ValidIffListed(es: seq<Entry>, head: int, tail: int, order: seq<int>, i: int)
    requires Linked(es, head, tail, order) && 0 <= i < |es|
    ensures es[i].valid <==> i in order
  {
    if i in order {
      var k :| 0 <= k < |order| && order[k] == i;
      assert NodeAt(es, order, k);
    }
  }

  /** The list is determined by the links. */
  lemma LinksDetermineOrder(es: seq<Entry>, head: int, tail: int, order: seq<int>, order': seq<int>)
    requires Linked(es, head, tail, order) && Linked(es, head, tail, order')
    ensures order == order'
  {
    var fuel := |order| + |order'| + 1;
    WalkForward(es, head, tail, order, 0, fuel);
    WalkForward(es, head, tail, order', 0, fuel);
  }

  /** Milliseconds, and so expiry, is monotone in the age. */
  lemma OlderExpiresFirst(older: int, newer: int, now: int, timeout: nat)
    requires older <= newer && Expired(newer, now, timeout)
    ensures Expired(older, now, timeout)
  {
    assert now - newer > 0;
  }

  /** If any entry has expired then so has the last one. */
  lemma ExpiryShowsAtTheTail(es: seq<Entry>, order: seq<int>, now: int, timeout: nat)
    requires Distinct(es, order) && NewestFirst(es, order)
    ensures (exists k :: 0 <= k < |order| && Expired(es[order[k]].timestamp, now, timeout))
            <==> order != [] && Expired(es[order[|order| - 1]].timestamp, now, timeout)
  {
    forall k | 0 <= k < |order| && Expired(es[order[k]].timestamp, now, timeout)
      ensures Expired(es[order[|order| - 1]].timestamp, now, timeout)
    {
      HeadIsNewest(es, order);
      OlderExpiresFirst(es[order[|order| - 1]].timestamp, es[order[k]].timestamp, now, timeout);
    }
  }

  /** A valid entry is somewhere on the list, between the neighbours its links name. */
  lemma PositionOf(es: seq<Entry>, head: int, tail: int, order: seq<int>, i: int) returns (p: nat)
    requires Linked(es, head, tail, order) && 0 <= i < |es| && es[i].valid
    ensures p < |order| && order[p] == i
    ensures es[i].next == LinkTo(order, p + 1) && es[i].previous == LinkTo(order, p - 1)
    ensures es[i].next != i && es[i].previous != i && (es[i].next != es[i].previous || es[i].next == -1)
    ensures -1 <= es[i].next < |es| && -1 <= es[i].previous < |es|
    ensures head == i <==> p == 0
    ensures tail == i <==> p == |order| - 1
  {
    p :| p < |order| && order[p] == i;
    assert NodeAt(es, order, p);
    NeighboursDiffer(es, order, p);
    assert p > 0 ==> Apart(order, 0, p);
    assert p < |order| - 1 ==> Apart(order, p, |order| - 1);
  }

  /** The head is the newest entry and the tail the oldest. */
  lemma HeadIsNewest(es: seq<Entry>, order: seq<int>)
    requires Distinct(es, order) && NewestFirst(es, order)
    ensures forall i :: i in order ==>
              es[order[|order| - 1]].timestamp <= es[i].timestamp <= es[order[0]].timestamp
  {
    forall k | 0 <= k < |order|
      ensures es[order[|order| - 1]].timestamp <= es[order[k]].timestamp <= es[order[0]].timestamp
    {
      assert k > 0 ==> NoOlder(es, order, 0, k);
      assert k < |order| - 1 ==> NoOlder(es, order, k, |order| - 1);
    }
  }

  // ---------- The backoff ----------

  datatype Backoff = Backoff(timeout: nat, counter: nat, threshold: nat)

  /** What one reported timeout does. */
  function AfterReport(b: Backoff, increment: nat): Backoff {
    if b.counter + 1 > b.threshold
    then Backoff(b.timeout * 2, 0, b.threshold + increment)
    else b.(counter := b.counter + 1)
  }

  function AfterReports(b: Backoff, increment: nat, n: nat): Backoff {
    if n == 0 then b else AfterReport(AfterReports(b, increment, n - 1), increment)
  }

  /** The reports that k doublings take. */
  function Spent(threshold: nat, increment: nat, k: nat): nat {
    k * (threshold + 1) + increment * Triangle(k)
  }

  /** 0 + 1 + ... + (k - 1) */
  function Triangle(k: nat): nat {
    if k == 0 then 0 else Triangle(k - 1) + (k - 1)
  }

  lemma {:induction false} TriangleClosed(k: nat)
    ensures Triangle(k) == k * (k - 1) / 2
  {
    if k > 0 {
      TriangleClosed(k - 1);
      assert k * (k - 1) == (k - 1) * (k - 2) + 2 * (k - 1);
    }
  }

  /** The state right after the k-th doubling, and the reports spent until then, step by step. */
  function AfterDoublings(b: Backoff, increment: nat, k: nat): Backoff {
    if k == 0 then b
    else var d := AfterDoublings(b, increment, k - 1); Backoff(d.timeout * 2, 0, d.threshold + increment)
  }

  function SpentSoFar(b: Backoff, increment: nat, k: nat): nat {
    if k == 0 then 0
    else SpentSoFar(b, increment, k - 1) + AfterDoublings(b, increment, k - 1).threshold + 1
  }

  lemma {:induction false} ReportsAreDoublings(b: Backoff, increment: nat, n: nat) returns (k: nat)
    requires b.counter == 0
    ensures SpentSoFar(b, increment, k) <= n < SpentSoFar(b, increment, k + 1)
    ensures AfterReports(b, increment, n)
         == AfterDoublings(b, increment, k).(counter := n - SpentSoFar(b, increment, k))
  {
    if n == 0 {
      k := 0;
    } else {
      k := ReportsAreDoublings(b, increment, n - 1);
      NextReport(b, increment, n, k);
      if n == SpentSoFar(b, increment, k + 1) {
        k := k + 1;
      }
    }
  }

  /** One more report is counted, or doubles the timeout once more. */
  lemma NextReport(b: Backoff, increment: nat, n: nat, k: nat)
    requires n > 0 && b.counter == 0 && SpentSoFar(b, increment, k) < n <= SpentSoFar(b, increment, k + 1)
    requires AfterReports(b, increment, n - 1)
          == AfterDoublings(b, increment, k).(counter := n - 1 - SpentSoFar(b, increment, k))
    ensures AfterReports(b, increment, n)
         == if n < SpentSoFar(b, increment, k + 1)
            then AfterDoublings(b, increment, k).(counter := n - SpentSoFar(b, increment, k))
            else AfterDoublings(b, increment, k + 1)
    ensures AfterDoublings(b, increment, k + 1).counter == 0
    ensures SpentSoFar(b, increment, k + 1) < SpentSoFar(b, increment, k + 2)
  {
    var d := AfterDoublings(b, increment, k);
    assert SpentSoFar(b, increment, k + 1) == SpentSoFar(b, increment, k) + d.threshold + 1;
    assert AfterReports(b, increment, n) == AfterReport(AfterReports(b, increment, n - 1), increment);
  }

  lemma {:induction false} DoublingsClosed(b: Backoff, increment: nat, k: nat)
    requires b.counter == 0
    ensures AfterDoublings(b, increment, k) == Backoff(b.timeout * Pow2(k), 0, b.threshold + k * increment)
  {
    if k > 0 {
      DoublingsClosed(b, increment, k - 1);
      OneMore(k, increment);
      Twice(b.timeout, Pow2(k - 1));
    }
  }

  lemma OneMore(k: nat, increment: nat)
    requires k > 0
    ensures (k - 1) * increment + increment == k * increment
  {
  }

  lemma Twice(timeout: nat, power: nat)
    ensures timeout * power * 2 == timeout * (2 * power)
  {
  }

  lemma {:induction false} SpentClosed(b: Backoff, increment: nat, k: nat)
    requires b.counter == 0
    ensures SpentSoFar(b, increment, k) == Spent(b.threshold, increment, k)
  {
    if k > 0 {
      SpentClosed(b, increment, k - 1);
      DoublingsClosed(b, increment, k - 1);
      SpentStep(b.threshold + 1, increment, k - 1, Triangle(k - 1));
    }
  }

  lemma SpentStep(cost: nat, increment: nat, k: nat, t: nat)
    ensures (k + 1) * cost + increment * (t + k) == k * cost + increment * t + (cost + k * increment)
  {
  }

  /** The ledger: after n reports there have been k doublings, where k is the largest number of doublings
      that n reports pay for; the timeout has doubled k times, the threshold has grown k times, and the
      reports not spent on doublings are in the counter, which stays within the threshold. */
  lemma BackoffLedger(timeout: nat, threshold: nat, increment: nat, n: nat) returns (k: nat)
    ensures Spent(threshold, increment, k) <= n < Spent(threshold, increment, k + 1)
    ensures AfterReports(Backoff(timeout, 0, threshold), increment, n)
         == Backoff(timeout * Pow2(k), n - Spent(threshold, increment, k), threshold + k * increment)
    ensures n - Spent(threshold, increment, k) <= threshold + k * increment
  {
    var b := Backoff(timeout, 0, threshold);
    k := ReportsAreDoublings(b, increment, n);
    DoublingsClosed(b, increment, k);
    SpentClosed(b, increment, k);
    SpentClosed(b, increment, k + 1);
  }

  // ---------- The queue ----------

  class TimeoutQueue {
    const entries: array<Entry>
    var head: int
    var tail: int
    var timeout: nat
    var counter: nat
    var threshold: nat
    const increment: nat

    /** The pushed indices, newest first; all the timeouts reported so far. */
    ghost var order: seq<int>
    ghost var reports: nat
    ghost const initial: Backoff

    ghost predicate Valid()
      reads this, entries
    {
      && Linked(entries[..], head, tail, order)
      && NewestFirst(entries[..], order)
      && Backoff(timeout, counter, threshold) == AfterReports(initial, increment, reports)
    }

    ghost predicate AnyExpired(now: int)
      requires Valid()
      reads this, entries
    {
      exists k :: 0 <= k < |order| && Expired(entries[order[k]].timestamp, now, timeout)
    }

    constructor (numEntries: nat, timeout: nat, threshold: nat, increment: nat)
      ensures Valid() && order == [] && reports == 0 && initial == Backoff(timeout, 0, threshold)
      ensures entries.Length == numEntries && fresh(entries) && this.increment == increment
    {
      entries := new Entry[numEntries](i => Entry(false, -1, -1, 0));
      head, tail := -1, -1;
      this.timeout, counter, this.threshold, this.increment := timeout, 0, threshold, increment;
      order, reports, initial := [], 0, Backoff(timeout, 0, threshold);
    }

    /** Makes the neighbours of an entry point to each other. */
    method Bypass(index: int)
      requires 0 <= index < entries.Length
      requires -1 <= entries[index].previous < entries.Length && -1 <= entries[index].next < entries.Length
      requires entries[index].previous != index && entries[index].next != index
      requires entries[index].previous != entries[index].next || entries[index].next == -1
      modifies entries
      ensures forall i :: 0 <= i < entries.Length ==>
                entries[i] == if i == old(entries[index].previous)
                              then old(entries[i]).(next := old(entries[index].next))
                              else if i == old(entries[index].next)
                              then old(entries[i]).(previous := old(entries[index].previous))
                              else old(entries[i])
    {
      if entries[index].previous != -1 {
        var previous := entries[index].previous;
        entries[previous] := entries[previous].(next := entries[index].next);
      }
      if entries[index].next != -1 {
        var next := entries[index].next;
        entries[next] := entries[next].(previous := entries[index].previous);
      }
    }

    /** Takes the index off the list, if it is on it. */
    method Remove(index: int)
      requires Valid() && 0 <= index < entries.Length
      modifies this`head, this`tail, this`order, entries
      ensures Valid() && order == Without(old(order), index) && index !in order
      ensures forall i :: 0 <= i < entries.Length ==> entries[i].timestamp == old(entries[i].timestamp)
    {
      ghost var es := entries[..];
      ValidIffListed(es, head, tail, order, index);
      if entries[index].valid {
        ghost var p := PositionOf(es, head, tail, order, index);
        Bypass(index);
        if head == index {
          head := entries[index].next;
        }
        if tail == index {
          tail := entries[index].previous;
        }
        entries[index] := entries[index].(next := -1, previous := -1, valid := false);
        Unlinked(es, entries[..], order, p);
        SkipFacts(es, order, p);
        UnlinkKeepsList(es, entries[..], old(head), old(tail), order, p);
        order := Skip(order, p);
      } else {
        WithoutAbsent(order, index);
      }
    }

    /** Writes the links between a new entry and the head. */
    method LinkFront(index: int, timestamp: int)
      requires 0 <= index < entries.Length && -1 <= head < entries.Length && head != index
      modifies entries
      ensures forall i :: 0 <= i < entries.Length ==>
                entries[i] == if i == index then Entry(true, head, -1, timestamp)
                              else if i == head then old(entries[i]).(previous := index) else old(entries[i])
    {
      entries[index] := Entry(true, head, -1, timestamp);
      if head != -1 {
        entries[head] := entries[head].(previous := index);
      }
    }

    /** Makes the index the newest entry. A timestamp older than the newest one is a fatal error, which
        stops the process before anything changes. */
    method Push(index: int, timestamp: int) returns (ok: bool)
      requires Valid() && 0 <= index < entries.Length
      modifies this`head, this`tail, this`order, entries
      ensures ok <==> forall i :: i in old(order) ==> old(entries[i].timestamp) <= timestamp
      ensures !ok ==> Valid() && order == old(order) && entries[..] == old(entries[..])
      ensures ok ==> Valid() && order == [index] + Without(old(order), index) && entries[index].timestamp == timestamp
      ensures forall i :: 0 <= i < entries.Length && i != index ==> entries[i].timestamp == old(entries[i].timestamp)
    {
      HeadIsNewest(entries[..], order);
      if head != -1 && timestamp < entries[head].timestamp {
        return false;
      }
      WithoutMembers(order, index);
      Remove(index);
      ghost var es, head0, tail0 := entries[..], head, tail;
      assert head != -1 ==> head in order && head in old(order);
      LinkFront(index, timestamp);
      head := index;
      if tail == -1 {
        tail := index;
      }
      LinkKeepsList(es, entries[..], head0, tail0, order, index, timestamp);
      order := [index] + order;
      ok := true;
    }

    /** Reports the oldest entry if any entry has expired, and nothing otherwise. */
    method Check(now: int) returns (index: int)
      requires Valid()
      modifies this`timeout, this`counter, this`threshold, this`reports
      ensures Valid()
      ensures index == -1 <==> !old(AnyExpired(now))
      ensures index != -1 ==> order != [] && index == order[|order| - 1]
      ensures index != -1 ==> forall i :: i in order ==> entries[index].timestamp <= entries[i].timestamp
      ensures reports == old(reports) + if index == -1 then 0 else 1
      ensures index == -1 ==> timeout == old(timeout) && counter == old(counter) && threshold == old(threshold)
    {
      ExpiryShowsAtTheTail(entries[..], order, now, timeout);
      HeadIsNewest(entries[..], order);
      if tail != -1 {
        var interval := Milliseconds(now - entries[tail].timestamp);
        if interval > timeout {
          counter := counter + 1;
          if counter > threshold {
            counter := 0;
            timeout := timeout * 2;
            threshold := threshold + increment;
          }
          reports := reports + 1;
          return tail;
        }
      }
      return -1;
    }

    /** The ledger holds in every state the methods reach. */
    lemma Ledger() returns (k: nat)
      requires Valid() && initial.counter == 0
      ensures Spent(initial.threshold, increment, k) <= reports < Spent(initial.threshold, increment, k + 1)
      ensures timeout == initial.timeout * Pow2(k) && threshold == initial.threshold + k * increment
      ensures reports == counter + Spent(initial.threshold, increment, k) && counter <= threshold
    {
      k := BackoffLedger(initial.timeout, initial.threshold, increment, reports);
    }
  }
}
