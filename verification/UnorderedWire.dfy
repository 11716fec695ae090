/** The protocol as it runs on the wire, with replies that may come back in any order: a worker knows a
    reply only by the low 16 bits of its message id. That is exact for all job slices with at most
    Period(batch) messages per queue pair, and for no longer ones. */
module UnorderedWire {
  import opened Basics
  import opened Slots
  import opened Aggregates
  import opened Protocol
  import opened Runs
  import opened Liveness

  ghost predicate WireEnabled(cfg: Config, s: System, a: Action)
    requires cfg.Valid() && Shaped(cfg, s)
  {
    match a
    case Accept(w, d) =>
      && w < cfg.n && Unfinished(cfg, s.workers[w]) && d in s.down[w]
      && d.shortId == s.workers[w].msgId % 0x1_0000
    case _ => Enabled(cfg, s, a)
  }

  ghost predicate WireCanStep(cfg: Config, s: System, a: Action)
    requires cfg.Valid()
  {
    Shaped(cfg, s) && IdsFollowRounds(cfg, s) && WireEnabled(cfg, s, a)
  }

  ghost function WireNext(cfg: Config, s: System, a: Action): System
    requires cfg.Valid() && WireCanStep(cfg, s, a)
  {
    match a
    case Accept(w, d) =>
      NextIdFollows(cfg, s.workers[w], d.data);
      AfterAccepting(cfg, s, w, d)
    case _ => Next(cfg, s, a)
  }

  ghost predicate WireRunnable(cfg: Config, s: System, acts: seq<Action>)
    requires cfg.Valid()
    decreases |acts|
  {
    acts == [] || (WireCanStep(cfg, s, acts[0]) && WireRunnable(cfg, WireNext(cfg, s, acts[0]), acts[1..]))
  }

  ghost function WireRun(cfg: Config, s: System, acts: seq<Action>): System
    requires cfg.Valid() && WireRunnable(cfg, s, acts)
    decreases |acts|
  {
    if acts == [] then s else WireRun(cfg, WireNext(cfg, s, acts[0]), acts[1..])
  }

  /** No two messages of the queue pair share their 16-bit id. */
  ghost predicate IdsDistinct(cfg: Config)
    requires cfg.Valid()
  {
    forall q, r :: 0 <= q < r < cfg.Rounds() ==> cfg.ShortId(q) != cfg.ShortId(r)
  }

  /** With distinct short ids the wire comparison accepts what the comparison of rounds accepts. */
  lemma WireAcceptIsExact(cfg: Config, s: System, m: nat, w: nat, d: Reply)
    requires cfg.Valid() && IdsDistinct(cfg) && InvAt(cfg, s, m) && WireEnabled(cfg, s, Accept(w, d))
    ensures Enabled(cfg, s, Accept(w, d))
  {
    assert WorkerInv(cfg, s.slot, m, w, s.workers[w]);
    assert ReplyInv(cfg, m, s.workers[w], d);
    UnfinishedAwaits(cfg, s, m, w);
    var a := |s.workers[w].accepted|;
    assert d.round < a ==> cfg.ShortId(d.round) != cfg.ShortId(a);
  }

  lemma {:induction false} WireRunsAreRuns(cfg: Config, s: System, m: nat, acts: seq<Action>)
    requires cfg.Valid() && IdsDistinct(cfg) && InvAt(cfg, s, m) && WireRunnable(cfg, s, acts)
    ensures Runnable(cfg, s, acts) && Run(cfg, s, acts) == WireRun(cfg, s, acts)
    decreases |acts|
  {
    if acts != [] {
      var a := acts[0];
      if a.Accept? {
        WireAcceptIsExact(cfg, s, m, a.w, a.d);
      }
      StepKeepsInv(cfg, s, m, a);
      WireRunsAreRuns(cfg, Next(cfg, s, a), RoundsAfterStep(cfg, s, m, a), acts[1..]);
    }
  }

  ghost predicate AcceptedAreResults(cfg: Config, s: System)
    requires cfg.Valid()
  {
    |s.workers| == cfg.n
    && forall w, r :: 0 <= w < cfg.n && 0 <= r < |s.workers[w].accepted| ==>
         r < cfg.Rounds() && s.workers[w].accepted[r] == cfg.Result(r)
  }

  /** Runs with replies in any order are safe when the queue pair carries at most Period(batch) messages. */
  lemma UnorderedSafe(cfg: Config, acts: seq<Action>)
    requires cfg.Valid() && WireRunnable(cfg, Init(cfg), acts)
    requires cfg.Rounds() <= Period(cfg.batch, 0x1_0000)
    ensures AcceptedAreResults(cfg, WireRun(cfg, Init(cfg), acts))
  {
    DistinctIffWithinPeriod(cfg);
    InitInv(cfg);
    WireRunsAreRuns(cfg, Init(cfg), 0, acts);
    RunKeepsInv(cfg, Init(cfg), 0, acts);
    var s, m := Run(cfg, Init(cfg), acts), RoundsAfterRun(cfg, Init(cfg), 0, acts);
    forall w, r | 0 <= w < cfg.n && 0 <= r < |s.workers[w].accepted|
      ensures r < cfg.Rounds() && s.workers[w].accepted[r] == cfg.Result(r)
    {
      assert WorkerInv(cfg, s.slot, m, w, s.workers[w]);
    }
  }

  // ---------- The least distance at which ids repeat ----------

  /** Smallest k > 0 with k * b divisible by the power of two md. */
  function Period(b: nat, md: nat): (p: nat)
    requires b > 0 && md > 0
    ensures p > 0
  {
    if md % 2 == 0 && b % 2 == 0 then Period(b / 2, md / 2) else md
  }

  lemma HalveMultiple(x: int, md: int)
    requires md > 0
    ensures (2 * x) % (2 * md) == 0 <==> x % md == 0
  {
    var q, r := x / md, x % md;
    assert x == md * q + r;
    assert 2 * x == (2 * md) * q + 2 * r;
    DivMod(2 * x, q, 2 * md, 2 * r);
  }

  lemma OddFactor(k: nat, b: nat)
    requires b % 2 == 1 && (k * b) % 2 == 0
    ensures k % 2 == 0
  {
    var c := b / 2;
    assert b == 2 * c + 1;
    assert k * b == 2 * (k * c) + k;
  }

  /** The product of odd numbers is no multiple of an even number. */
  lemma OddIsNoMultiple(k: nat, b: nat, h: nat)
    requires k % 2 == 1 && b % 2 == 1 && h > 0
    ensures k % (2 * h) != 0 && (k * b) % (2 * h) != 0
  {
    if k % (2 * h) == 0 {
      EvenModulus(k, h);
    }
    if (k * b) % (2 * h) == 0 {
      EvenModulus(k * b, h);
      OddFactor(k, b);
    }
  }

  /** An odd factor does not help divisibility by a power of two. */
  lemma {:induction false} OddMultiples(k: nat, b: nat, md: nat)
    requires b % 2 == 1 && IsPowerOfTwo(md)
    ensures (k * b) % md == 0 <==> k % md == 0
    decreases md
  {
    if md != 1 {
      PowerIsEven(md);
      var h := md / 2;
      if k % 2 == 0 {
        var j := k / 2;
        assert k * b == 2 * (j * b);
        HalveMultiple(j * b, h);
        HalveMultiple(j, h);
        OddMultiples(j, b, h);
      } else {
        OddIsNoMultiple(k, b, h);
      }
    }
  }

  lemma EvenModulus(x: nat, h: nat)
    requires h > 0 && x % (2 * h) == 0
    ensures x % 2 == 0
  {
    var q := x / (2 * h);
    assert x == (2 * h) * q == 2 * (h * q);
  }

  lemma {:induction false} PeriodMultiples(k: nat, b: nat, md: nat)
    requires b > 0 && IsPowerOfTwo(md)
    ensures (k * b) % md == 0 <==> k % Period(b, md) == 0
    decreases md
  {
    if b % 2 == 1 {
      OddMultiples(k, b, md);
    } else if md != 1 {
      PowerIsEven(md);
      var c, h := b / 2, md / 2;
      assert k * b == 2 * (k * c);
      HalveMultiple(k * c, h);
      PeriodMultiples(k, c, h);
    }
  }

  lemma SameResidue(x: nat, y: nat, md: nat)
    requires md > 0 && x <= y
    ensures x % md == y % md <==> (y - x) % md == 0
  {
    var qx, qy := x / md, y / md;
    assert x == qx * md + x % md && y == qy * md + y % md;
    if x % md == y % md {
      DifferenceDivides(x, y, qx, qy, x % md, md);
    }
    if (y - x) % md == 0 {
      SumRemains(x, y, qx, (y - x) / md, x % md, md);
    }
  }

  lemma DifferenceDivides(x: nat, y: nat, qx: nat, qy: nat, r: nat, md: nat)
    requires md > 0 && x == qx * md + r && y == qy * md + r
    ensures (y - x) % md == 0
  {
    assert y - x == (qy - qx) * md;
    DivMod(y - x, qy - qx, md, 0);
  }

  lemma SumRemains(x: nat, y: nat, qx: nat, q: nat, r: nat, md: nat)
    requires md > 0 && r < md && x == qx * md + r && y - x == q * md
    ensures y % md == r
  {
    assert y == (q + qx) * md + r;
    DivMod(y, q + qx, md, r);
  }

  lemma SixteenBits()
    ensures IsPowerOfTwo(0x1_0000)
  {
    assert Pow2(14) == 0x4000;
    assert Pow2(15) == 2 * Pow2(14) && Pow2(16) == 2 * Pow2(15);
  }

  lemma IdsRepeat(cfg: Config, q: nat, r: nat)
    requires cfg.batch > 0 && q <= r
    ensures cfg.ShortId(q) == cfg.ShortId(r) <==> (r - q) % Period(cfg.batch, 0x1_0000) == 0
  {
    assert q * cfg.batch + (r - q) * cfg.batch == r * cfg.batch;
    SameResidue(cfg.MsgId(q), cfg.MsgId(r), 0x1_0000);
    SixteenBits();
    PeriodMultiples(r - q, cfg.batch, 0x1_0000);
  }

  lemma Residues(x: nat, p: nat)
    requires 0 < x < p
    ensures x % p != 0
  {
    DivMod(x, 0, p, x);
  }

  lemma SelfDivides(p: nat)
    requires p > 0
    ensures p % p == 0
  {
    DivMod(p, 1, p, 0);
  }

  lemma DistinctWithinPeriod(cfg: Config, q: nat, r: nat)
    requires cfg.batch > 0 && q < r < q + Period(cfg.batch, 0x1_0000)
    ensures cfg.ShortId(q) != cfg.ShortId(r)
  {
    IdsRepeat(cfg, q, r);
    Residues(r - q, Period(cfg.batch, 0x1_0000));
  }

  lemma SameAtPeriod(cfg: Config)
    requires cfg.batch > 0
    ensures cfg.ShortId(0) == cfg.ShortId(Period(cfg.batch, 0x1_0000))
  {
    var p := Period(cfg.batch, 0x1_0000);
    SelfDivides(p);
    IdsRepeat(cfg, 0, p);
  }

  lemma DistinctIffWithinPeriod(cfg: Config)
    requires cfg.Valid()
    ensures IdsDistinct(cfg) <==> cfg.Rounds() <= Period(cfg.batch, 0x1_0000)
  {
    if cfg.Rounds() <= Period(cfg.batch, 0x1_0000) {
      forall q, r | 0 <= q < r < cfg.Rounds()
        ensures cfg.ShortId(q) != cfg.ShortId(r)
      {
        DistinctWithinPeriod(cfg, q, r);
      }
    } else {
      SameAtPeriod(cfg);
    }
  }

  // ---------- Beyond the period ----------

  ghost predicate Available(down: set<Reply>, r: nat, data: Payload) {
    exists d :: d in down && d.round == r && d.data == data
  }

  /** What a worker has accepted can still come: the channel forgets nothing. */
  ghost predicate StillAvailable(cfg: Config, s: System)
    requires cfg.Valid() && Shaped(cfg, s)
  {
    forall w, r :: 0 <= w < cfg.n && 0 <= r < |s.workers[w].accepted| ==>
      Available(s.down[w], r, s.workers[w].accepted[r])
  }

  lemma StepKeepsReplies(cfg: Config, s: System, a: Action, w: nat)
    requires cfg.Valid() && CanStep(cfg, s, a) && w < cfg.n
    ensures Shaped(cfg, Next(cfg, s, a)) && s.down[w] <= Next(cfg, s, a).down[w]
    ensures var acc, acc' := s.workers[w].accepted, Next(cfg, s, a).workers[w].accepted;
            acc' == acc
            || (acc' == acc + [acc'[|acc|]] && Available(s.down[w], |acc|, acc'[|acc|]))
  {
    if a.Accept? && a.w == w {
      var acc, acc' := s.workers[w].accepted, Next(cfg, s, a).workers[w].accepted;
      assert acc' == acc + [a.d.data];
    }
  }

  lemma StepKeepsAvailable(cfg: Config, s: System, a: Action)
    requires cfg.Valid() && CanStep(cfg, s, a) && StillAvailable(cfg, s)
    ensures Shaped(cfg, Next(cfg, s, a)) && StillAvailable(cfg, Next(cfg, s, a))
  {
    var s' := Next(cfg, s, a);
    StepKeepsReplies(cfg, s, a, 0);
    forall w, r | 0 <= w < cfg.n && 0 <= r < |s'.workers[w].accepted|
      ensures Available(s'.down[w], r, s'.workers[w].accepted[r])
    {
      StepKeepsReplies(cfg, s, a, w);
      assert Available(s.down[w], r, s'.workers[w].accepted[r]);
    }
  }

  lemma {:induction false} RunKeepsAvailable(cfg: Config, s: System, acts: seq<Action>)
    requires cfg.Valid() && Shaped(cfg, s) && Runnable(cfg, s, acts) && StillAvailable(cfg, s)
    ensures Shaped(cfg, Run(cfg, s, acts)) && StillAvailable(cfg, Run(cfg, s, acts))
    decreases |acts|
  {
    if acts != [] {
      StepKeepsAvailable(cfg, s, acts[0]);
      RunKeepsAvailable(cfg, Next(cfg, s, acts[0]), acts[1..]);
    }
  }

  /** Drives the system until worker v awaits round r. */
  lemma {:induction false} ReachRound(cfg: Config, s: System, m: nat, v: nat, r: nat)
    returns (acts: seq<Action>, s': System, m': nat)
    requires cfg.Valid() && InvAt(cfg, s, m) && v < cfg.n && |s.workers[v].accepted| <= r < cfg.Rounds()
    ensures Leads(cfg, s, m, acts, s', m') && InvAt(cfg, s', m') && |s'.workers[v].accepted| == r
    decreases Remaining(cfg, s.workers, cfg.n)
  {
    if |s.workers[v].accepted| == r {
      acts, s', m' := [], s, m;
    } else {
      UnfinishedAwaits(cfg, s, m, v);
      var a1, s1, m1, u := AdvanceOne(cfg, s, m, v);
      RemainingShrinks(cfg, s, u, s1, cfg.n);
      RemainingIsNat(cfg, s1, m1, cfg.n);
      var a2;
      a2, s', m' := ReachRound(cfg, s1, m1, v, r);
      LeadsTrans(cfg, s, m, a1, s1, m1, a2, s', m');
      acts := a1 + a2;
    }
  }

  /** Every step of the exact protocol is a step on the wire. */
  lemma StepIsWireStep(cfg: Config, s: System, m: nat, a: Action)
    requires cfg.Valid() && InvAt(cfg, s, m) && CanStep(cfg, s, a)
    ensures WireCanStep(cfg, s, a) && WireNext(cfg, s, a) == Next(cfg, s, a)
  {
    if a.Accept? {
      assert WorkerInv(cfg, s.slot, m, a.w, s.workers[a.w]);
      assert ReplyInv(cfg, m, s.workers[a.w], a.d);
    }
  }

  lemma WireRunThrough(cfg: Config, s: System, a: Action, acts: seq<Action>)
    requires cfg.Valid() && WireCanStep(cfg, s, a) && WireRunnable(cfg, WireNext(cfg, s, a), acts)
    ensures WireRunnable(cfg, s, [a] + acts)
    ensures WireRun(cfg, s, [a] + acts) == WireRun(cfg, WireNext(cfg, s, a), acts)
  {
    assert ([a] + acts)[0] == a && ([a] + acts)[1..] == acts;
  }

  /** A run of the exact protocol, followed by one more step on the wire. */
  lemma {:induction false} RunsAreWireRuns(cfg: Config, s: System, m: nat, acts: seq<Action>, last: Action)
    requires cfg.Valid() && InvAt(cfg, s, m) && Runnable(cfg, s, acts)
    requires WireCanStep(cfg, Run(cfg, s, acts), last)
    ensures WireRunnable(cfg, s, acts + [last])
    ensures WireRun(cfg, s, acts + [last]) == WireNext(cfg, Run(cfg, s, acts), last)
    decreases |acts|
  {
    if acts == [] {
      WireRunThrough(cfg, s, last, []);
      assert [last] + [] == acts + [last];
    } else {
      var a := acts[0];
      StepIsWireStep(cfg, s, m, a);
      StepKeepsInv(cfg, s, m, a);
      RunsAreWireRuns(cfg, Next(cfg, s, a), RoundsAfterStep(cfg, s, m, a), acts[1..], last);
      WireRunThrough(cfg, s, a, acts[1..] + [last]);
      FirstThenRest(acts, [last]);
    }
  }

  /** On the wire a worker takes a reply of round q when it awaits a round r with the same short id. */
  lemma TakeStale(cfg: Config, s: System, m: nat, v: nat, q: nat, d: Reply)
    requires cfg.Valid() && InvAt(cfg, s, m) && v < cfg.n && |s.workers[v].accepted| < cfg.Rounds()
    requires d in s.down[v] && d.round == q && cfg.ShortId(q) == cfg.ShortId(|s.workers[v].accepted|)
    ensures WireCanStep(cfg, s, Accept(v, d))
    ensures var s' := WireNext(cfg, s, Accept(v, d));
            Shaped(cfg, s') && s'.workers[v].accepted == s.workers[v].accepted + [d.data]
  {
    UnfinishedAwaits(cfg, s, m, v);
    assert ReplyInv(cfg, m, s.workers[v], d);
    forall w | 0 <= w < cfg.n
      ensures s.workers[w].msgId == cfg.MsgId(|s.workers[w].accepted|)
    {
      assert WorkerInv(cfg, s.slot, m, w, s.workers[w]);
    }
  }

  /** Two messages with the same short id: a run on the wire makes worker v take the result of the
      earlier one for the result of the later one. */
  lemma StaleReplyAccepted(cfg: Config, v: nat, q: nat, r: nat)
    requires cfg.Valid() && v < cfg.n && q < r < cfg.Rounds() && cfg.ShortId(q) == cfg.ShortId(r)
    ensures exists acts :: TakesStale(cfg, acts, v, q, r)
  {
    InitInv(cfg);
    var acts, s, m := ReachRound(cfg, Init(cfg), 0, v, r);
    LeadsIsRun(cfg, Init(cfg), 0, acts, s, m);
    assert StillAvailable(cfg, Init(cfg));
    RunKeepsAvailable(cfg, Init(cfg), acts);
    assert WorkerInv(cfg, s.slot, m, v, s.workers[v]);
    assert Available(s.down[v], q, s.workers[v].accepted[q]);
    var d :| d in s.down[v] && d.round == q && d.data == s.workers[v].accepted[q];
    TakeStale(cfg, s, m, v, q, d);
    RunsAreWireRuns(cfg, Init(cfg), 0, acts, Accept(v, d));
    assert TakesStale(cfg, acts + [Accept(v, d)], v, q, r);
  }

  ghost predicate TakesStale(cfg: Config, acts: seq<Action>, v: nat, q: nat, r: nat)
    requires cfg.Valid() && q < cfg.Rounds()
  {
    && WireRunnable(cfg, Init(cfg), acts)
    && var s := WireRun(cfg, Init(cfg), acts);
       && v < |s.workers| && |s.workers[v].accepted| == r + 1
       && s.workers[v].accepted[r] == cfg.Result(q)
  }

  /** The actions, if they are a run on the wire, make no worker accept a wrong result. */
  ghost predicate SafeRun(cfg: Config, acts: seq<Action>) {
    cfg.Valid() && WireRunnable(cfg, Init(cfg), acts) ==> AcceptedAreResults(cfg, WireRun(cfg, Init(cfg), acts))
  }

  /** The exact condition. With replies in any order, all runs over job slices of this shape are safe,
      whatever the workers contribute, if and only if the queue pair carries at most Period(batch) messages. */
  lemma UnorderedExactlyWithinPeriod(cfg: Config)
    requires cfg.Valid()
    ensures cfg.Rounds() <= Period(cfg.batch, 0x1_0000)
            <==> forall work: Work, acts :: SafeRun(cfg.(work := work), acts)
  {
    if cfg.Rounds() <= Period(cfg.batch, 0x1_0000) {
      forall work: Work, acts
        ensures SafeRun(cfg.(work := work), acts)
      {
        SafeWithinPeriod(cfg.(work := work), acts);
      }
    } else {
      var work, acts := UnsafeBeyondPeriod(cfg);
      assert !SafeRun(cfg.(work := work), acts);
    }
  }

  lemma SafeWithinPeriod(cfg: Config, acts: seq<Action>)
    requires cfg.qpn < cfg.batch <= cfg.total && cfg.Rounds() <= Period(cfg.batch, 0x1_0000)
    ensures SafeRun(cfg, acts)
  {
    if cfg.Valid() && WireRunnable(cfg, Init(cfg), acts) {
      UnorderedSafe(cfg, acts);
    }
  }

  lemma UnsafeBeyondPeriod(cfg: Config) returns (work: Work, acts: seq<Action>)
    requires cfg.Valid() && cfg.Rounds() > Period(cfg.batch, 0x1_0000)
    ensures !SafeRun(cfg.(work := work), acts)
  {
    SameAtPeriod(cfg);
    work, acts := UnsafeAt(cfg, Period(cfg.batch, 0x1_0000));
  }

  /** Messages 0 and p share their short id: with the right contributions, a run confuses them. */
  lemma UnsafeAt(cfg: Config, p: nat) returns (work: Work, acts: seq<Action>)
    requires cfg.Valid() && 0 < p < cfg.Rounds() && cfg.ShortId(0) == cfg.ShortId(p)
    ensures !SafeRun(cfg.(work := work), acts)
  {
    var c := Distinguishing(cfg, p);
    work := c.work;
    StaleReplyAccepted(c, 0, 0, p);
    acts :| TakesStale(c, acts, 0, 0, p);
    StaleIsUnsafe(c, acts, p);
  }

  lemma StaleIsUnsafe(cfg: Config, acts: seq<Action>, r: nat)
    requires cfg.Valid() && r < cfg.Rounds() && cfg.Result(0) != cfg.Result(r) && TakesStale(cfg, acts, 0, 0, r)
    ensures !SafeRun(cfg, acts)
  {
  }

  /** Contributions for which rounds 0 and r have different results: only the exponents of round r are not -128. */
  lemma Distinguishing(cfg: Config, r: nat) returns (c: Config)
    requires cfg.Valid() && 0 < r < cfg.Rounds()
    ensures c == cfg.(work := c.work) && c.Valid() && c.Result(0) != c.Result(r)
  {
    var low, high := ZERO.(e0 := -128), ZERO;
    var row := seq(cfg.Rounds(), i => if i == r then high else low);
    c := cfg.(work := seq(cfg.n, w => row));
    LargestOverEveryone(c, 0, false);
    LargestOverEveryone(c, r, false);
    assert forall v :: 0 <= v < c.n ==> Exp(c.work[v][r], false) == 0 && Exp(c.work[v][0], false) == -128;
    assert c.Result(0).e0 == -128 && c.Result(r).e0 == 0;
  }
}
