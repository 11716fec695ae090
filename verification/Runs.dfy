/** Theorems over whole runs of the protocol. */
module Runs {
  import opened Basics
  import opened Slots
  import opened Aggregates
  import opened Protocol

  ghost predicate CanStep(cfg: Config, s: System, a: Action)
    requires cfg.Valid()
  {
    Shaped(cfg, s) && IdsFollowRounds(cfg, s) && Enabled(cfg, s, a)
  }

  ghost predicate Runnable(cfg: Config, s: System, acts: seq<Action>)
    requires cfg.Valid()
    decreases |acts|
  {
    acts == [] || (CanStep(cfg, s, acts[0]) && Runnable(cfg, Next(cfg, s, acts[0]), acts[1..]))
  }

  ghost function Run(cfg: Config, s: System, acts: seq<Action>): System
    requires cfg.Valid() && Runnable(cfg, s, acts)
    decreases |acts|
  {
    if acts == [] then s else Run(cfg, Next(cfg, s, acts[0]), acts[1..])
  }

  /** In a consistent state every enabled action can be taken. */
  lemma EnabledCanStep(cfg: Config, s: System, m: nat, a: Action)
    requires cfg.Valid() && InvAt(cfg, s, m) && Enabled(cfg, s, a)
    ensures CanStep(cfg, s, a)
  {
    forall w | 0 <= w < cfg.n
      ensures s.workers[w].msgId == cfg.MsgId(|s.workers[w].accepted|)
    {
      assert WorkerInv(cfg, s.slot, m, w, s.workers[w]);
    }
  }

  /** The number of complete rounds after a run. */
  ghost function RoundsAfterRun(cfg: Config, s: System, m: nat, acts: seq<Action>): nat
    requires cfg.Valid() && Runnable(cfg, s, acts)
    decreases |acts|
  {
    if acts == [] then m
    else RoundsAfterRun(cfg, Next(cfg, s, acts[0]), RoundsAfterStep(cfg, s, m, acts[0]), acts[1..])
  }

  lemma {:induction false} RunKeepsInv(cfg: Config, s: System, m: nat, acts: seq<Action>)
    requires cfg.Valid() && InvAt(cfg, s, m) && Runnable(cfg, s, acts)
    ensures InvAt(cfg, Run(cfg, s, acts), RoundsAfterRun(cfg, s, m, acts))
    decreases |acts|
  {
    if acts != [] {
      StepKeepsInv(cfg, s, m, acts[0]);
      RunKeepsInv(cfg, Next(cfg, s, acts[0]), RoundsAfterStep(cfg, s, m, acts[0]), acts[1..]);
    }
  }

  /** A state that some run reaches from the start of the job slice, with m rounds complete. */
  ghost predicate ReachedBy(cfg: Config, acts: seq<Action>, s: System, m: nat)
    requires cfg.Valid()
  {
    Runnable(cfg, Init(cfg), acts) && s == Run(cfg, Init(cfg), acts) && m == RoundsAfterRun(cfg, Init(cfg), 0, acts)
  }

  lemma ReachedKeepsInv(cfg: Config, acts: seq<Action>, s: System, m: nat)
    requires cfg.Valid() && ReachedBy(cfg, acts, s, m)
    ensures InvAt(cfg, s, m)
  {
    InitInv(cfg);
    RunKeepsInv(cfg, Init(cfg), 0, acts);
  }

  // ---------- Exactly-once aggregation ----------

  /** Whatever is lost, repeated, delayed or reordered, every result a worker has accepted is, lane by
      lane, the sum of what all n workers contribute to that round, each once, and its exponents are
      upper bounds of all the workers' exponents that some worker attains. */
  lemma ExactlyOnceAggregation(cfg: Config, acts: seq<Action>, s: System, m: nat, w: nat, r: nat)
    requires cfg.Valid() && ReachedBy(cfg, acts, s, m) && w < cfg.n
    requires w < |s.workers| && r < |s.workers[w].accepted|
    ensures r < cfg.Rounds()
    ensures forall i :: 0 <= i < LANES ==>
              s.workers[w].accepted[r].d0[i] == LaneSum(cfg.work, r, false, i, cfg.Everyone(), cfg.n) % WORD_MODULUS
    ensures forall i :: 0 <= i < LANES ==>
              s.workers[w].accepted[r].d1[i] == LaneSum(cfg.work, r, true, i, cfg.Everyone(), cfg.n) % WORD_MODULUS
    ensures IsLargest(cfg, r, false, s.workers[w].accepted[r].e0)
    ensures IsLargest(cfg, r, true, s.workers[w].accepted[r].e1)
  {
    ReachedKeepsInv(cfg, acts, s, m);
    assert WorkerInv(cfg, s.slot, m, w, s.workers[w]);
    LargestOverEveryone(cfg, r, false);
    LargestOverEveryone(cfg, r, true);
  }

  ghost predicate IsLargest(cfg: Config, r: nat, second: bool, e: Exponent)
    requires cfg.Valid() && r < cfg.Rounds()
  {
    && (forall v :: 0 <= v < cfg.n ==> Exp(cfg.work[v][r], second) <= e)
    && (exists v :: 0 <= v < cfg.n && Exp(cfg.work[v][r], second) == e)
  }

  ghost predicate IsLargestBelow(work: Work, r: nat, second: bool, k: nat, e: Exponent)
    requires HasRound(work, r) && k <= |work|
  {
    && (forall v :: 0 <= v < k ==> Exp(work[v][r], second) <= e)
    && (exists v :: 0 <= v < k && Exp(work[v][r], second) == e)
  }

  lemma {:induction false} LargestBelow(work: Work, r: nat, second: bool, s: set<nat>, k: nat)
    requires HasRound(work, r) && 0 < k <= |work| && forall v :: 0 <= v < k ==> v in s
    ensures IsLargestBelow(work, r, second, k, MaxExponent(work, r, second, s, k))
  {
    var rest := MaxExponent(work, r, second, s, k - 1);
    var last := Exp(work[k - 1][r], second);
    var e := MaxExponent(work, r, second, s, k);
    assert e == Max(rest, last);
    if k == 1 {
      assert rest == -128;
      assert Exp(work[0][r], second) == e;
    } else {
      LargestBelow(work, r, second, s, k - 1);
      if e == last {
        assert 0 <= k - 1 < k;
      }
    }
  }

  lemma LargestOverEveryone(cfg: Config, r: nat, second: bool)
    requires cfg.Valid() && r < cfg.Rounds()
    ensures IsLargest(cfg, r, second, MaxExponent(cfg.work, r, second, cfg.Everyone(), cfg.n))
  {
    LargestBelow(cfg.work, r, second, cfg.Everyone(), cfg.n);
  }

  // ---------- Lockstep and the registers ----------

  lemma Lockstep(cfg: Config, acts: seq<Action>, s: System, m: nat, v: nat, w: nat)
    requires cfg.Valid() && ReachedBy(cfg, acts, s, m) && v < cfg.n && w < cfg.n
    ensures |s.workers| == cfg.n
    ensures -1 <= |s.workers[v].accepted| - |s.workers[w].accepted| <= 1
  {
    ReachedKeepsInv(cfg, acts, s, m);
    assert WorkerInv(cfg, s.slot, m, v, s.workers[v]);
    assert WorkerInv(cfg, s.slot, m, w, s.workers[w]);
  }

  /** How often a CONSUME0 pass of the run took packet `round` of worker w for new and added it. */
  ghost function Additions(cfg: Config, s: System, acts: seq<Action>, w: nat, round: nat): nat
    requires cfg.Valid() && Runnable(cfg, s, acts)
    decreases |acts|
  {
    if acts == [] then 0
    else (if AddsTo(cfg, s, acts[0], w, round) then 1 else 0)
         + Additions(cfg, Next(cfg, s, acts[0]), acts[1..], w, round)
  }

  ghost predicate AddsTo(cfg: Config, s: System, a: Action, w: nat, round: nat)
    requires cfg.Valid() && CanStep(cfg, s, a)
  {
    && a == Deliver(w)
    && s.up[w][0].round == round
    && !Consume(s.slot, cfg.n, w, s.up[w][0].setBit, s.up[w][0].data).1.seen
  }

  ghost predicate Contributed(slot: Slot, m: nat, w: nat, round: nat) {
    round < m || (round == m && w in slot.Get(Odd(m)).bitmap)
  }

  lemma StepContributes(cfg: Config, s: System, m: nat, a: Action, w: nat, round: nat)
    requires cfg.Valid() && InvAt(cfg, s, m) && CanStep(cfg, s, a) && w < cfg.n
    ensures var s', m' := Next(cfg, s, a), RoundsAfterStep(cfg, s, m, a);
            if AddsTo(cfg, s, a, w, round)
            then !Contributed(s.slot, m, w, round) && Contributed(s'.slot, m', w, round)
            else Contributed(s'.slot, m', w, round) == Contributed(s.slot, m, w, round)
  {
    if a.Deliver? {
      var p := s.up[a.w][0];
      HeadIsFreshOrSeen(cfg, s, m, a.w);
      DeliveryShape(cfg, s, a.w);
      if DeliversFresh(s, m, a.w) {
        FreshContributes(cfg, s.slot, m, a.w, w, round);
      } else {
        ConsumeSeen(cfg, s.slot, m, a.w, p.round, p.data);
      }
    }
  }

  lemma FreshContributes(cfg: Config, slot: Slot, m: nat, u: nat, w: nat, round: nat)
    requires cfg.Valid() && SlotInv(cfg, slot, m) && u < cfg.n && w < cfg.n && m < cfg.Rounds()
    requires u !in slot.Get(Odd(m)).bitmap
    ensures var slot' := Consume(slot, cfg.n, u, Odd(m), cfg.work[u][m]).0;
            Contributed(slot', RoundsAfter(cfg, slot, m, u), w, round)
            <==> Contributed(slot, m, w, round) || (u == w && round == m)
  {
    ConsumeFresh(cfg, slot, m, u);
    var m' := RoundsAfter(cfg, slot, m, u);
    var slot' := Consume(slot, cfg.n, u, Odd(m), cfg.work[u][m]).0;
    if m' == m + 1 {
      assert w in slot.Get(Odd(m)).bitmap + {u};
      assert slot'.Get(Odd(m')).bitmap == {};
    }
  }

  lemma {:induction false} AdditionsCount(cfg: Config, s: System, m: nat, acts: seq<Action>, w: nat, round: nat)
    requires cfg.Valid() && InvAt(cfg, s, m) && Runnable(cfg, s, acts) && w < cfg.n
    ensures Additions(cfg, s, acts, w, round) + (if Contributed(s.slot, m, w, round) then 1 else 0)
         == if Contributed(Run(cfg, s, acts).slot, RoundsAfterRun(cfg, s, m, acts), w, round) then 1 else 0
    decreases |acts|
  {
    if acts != [] {
      StepKeepsInv(cfg, s, m, acts[0]);
      StepContributes(cfg, s, m, acts[0], w, round);
      AdditionsCount(cfg, Next(cfg, s, acts[0]), RoundsAfterStep(cfg, s, m, acts[0]), acts[1..], w, round);
    }
  }

  /** In the history of any run no message is added twice, and the messages of a complete round are all in.
      The registers tell what has been added: the count is what the round in progress still lacks
      (0 before its first message), and no worker has its bit in both sets. */
  lemma RegistersTellTheRun(cfg: Config, acts: seq<Action>, s: System, m: nat)
    requires cfg.Valid() && ReachedBy(cfg, acts, s, m)
    ensures forall w, r: nat :: 0 <= w < cfg.n ==>
              Additions(cfg, Init(cfg), acts, w, r) == if Contributed(s.slot, m, w, r) then 1 else 0
    ensures s.slot.zero.bitmap !! s.slot.one.bitmap
    ensures var current := s.slot.Get(Odd(m));
            && |current.bitmap| < cfg.n
            && current.count == (if current.bitmap == {} then 0 else cfg.n - |current.bitmap|)
            && s.slot.Get(!Odd(m)).count == 0
  {
    ReachedKeepsInv(cfg, acts, s, m);
    InitInv(cfg);
    forall w, r: nat | 0 <= w < cfg.n
      ensures Additions(cfg, Init(cfg), acts, w, r) == if Contributed(s.slot, m, w, r) then 1 else 0
    {
      AdditionsCount(cfg, Init(cfg), 0, acts, w, r);
    }
    var c := s.slot.Get(Odd(m)).bitmap;
    if |c| >= cfg.n {
      SubsetSize(c, cfg.Everyone());
      assert false;
    }
  }

  /** No message of round r has been added. */
  ghost predicate NoneAdded(cfg: Config, acts: seq<Action>, r: nat)
    requires cfg.Valid() && Runnable(cfg, Init(cfg), acts)
  {
    forall v :: 0 <= v < cfg.n ==> Additions(cfg, Init(cfg), acts, v, r) == 0
  }

  /** The overwrite branch of the value and exponent registers is taken exactly when the packet is the
      first of its round, from any worker. */
  lemma OverwriteStartsRound(cfg: Config, acts: seq<Action>, s: System, m: nat, w: nat)
    requires cfg.Valid() && ReachedBy(cfg, acts, s, m) && Shaped(cfg, s) && Enabled(cfg, s, Deliver(w))
    ensures var p := s.up[w][0];
            s.slot.Get(p.setBit).bitmap == {} <==> NoneAdded(cfg, acts, p.round)
  {
    ReachedKeepsInv(cfg, acts, s, m);
    RegistersTellTheRun(cfg, acts, s, m);
    HeadIsFreshOrSeen(cfg, s, m, w);
    var r := s.up[w][0].round;
    if s.slot.Get(Odd(r)).bitmap == {} {
      forall v | 0 <= v < cfg.n
        ensures Additions(cfg, Init(cfg), acts, v, r) == 0
      {
        assert !Contributed(s.slot, m, v, r);
      }
    } else {
      var v := SomeContributed(cfg, s.slot, m, r);
      assert Additions(cfg, Init(cfg), acts, v, r) == 1;
      assert !NoneAdded(cfg, acts, r);
    }
  }

  /** Whoever has its bit in the set of the round in progress, or of the one before, has contributed. */
  lemma SomeContributed(cfg: Config, slot: Slot, m: nat, r: nat) returns (v: nat)
    requires cfg.Valid() && SlotInv(cfg, slot, m) && r <= m <= r + 1 && slot.Get(Odd(r)).bitmap != {}
    ensures v < cfg.n && Contributed(slot, m, v, r)
  {
    v :| v in slot.Get(Odd(r)).bitmap;
    assert Odd(r + 1) == !Odd(r);
    assert v in cfg.Everyone();
  }

  // ---------- One broadcast per round ----------

  /** A recirculated packet that HARVEST7 will broadcast. */
  ghost predicate Winner(h: Recirculated, r: nat) {
    h.round == r && AfterHarvest(h.meta.flag, h.meta.seen) == Broadcast
  }

  ghost function Winners(recirc: seq<Recirculated>, r: nat): nat {
    if recirc == [] then 0
    else Winners(recirc[..|recirc| - 1], r) + if Winner(recirc[|recirc| - 1], r) then 1 else 0
  }

  ghost predicate Broadcasts(cfg: Config, s: System, a: Action, r: nat)
    requires cfg.Valid() && CanStep(cfg, s, a)
  {
    a.Harvest? && Winner(s.recirc[a.i], r)
  }

  /** How many packets of round r a run broadcasts. */
  ghost function BroadcastCount(cfg: Config, s: System, acts: seq<Action>, r: nat): nat
    requires cfg.Valid() && Runnable(cfg, s, acts)
    decreases |acts|
  {
    if acts == [] then 0
    else (if Broadcasts(cfg, s, acts[0], r) then 1 else 0)
         + BroadcastCount(cfg, Next(cfg, s, acts[0]), acts[1..], r)
  }

  lemma {:induction false} WinnersRemove(recirc: seq<Recirculated>, i: nat, r: nat)
    requires i < |recirc|
    ensures Winners(Remove(recirc, i), r) + (if Winner(recirc[i], r) then 1 else 0) == Winners(recirc, r)
  {
    var last := |recirc| - 1;
    if i == last {
      assert Remove(recirc, i) == recirc[..last];
    } else {
      WinnersRemove(recirc[..last], i, r);
      assert Remove(recirc, i)[..last - 1] == Remove(recirc[..last], i);
    }
  }

  lemma WinnersAppend(recirc: seq<Recirculated>, h: Recirculated, r: nat)
    ensures Winners(recirc + [h], r) == Winners(recirc, r) + if Winner(h, r) then 1 else 0
  {
    assert (recirc + [h])[..|recirc|] == recirc;
  }

  /** Only the packet that completes round m is a winner, and it is one of round m. */
  lemma DeliveryWins(cfg: Config, s: System, m: nat, w: nat, r: nat)
    requires cfg.Valid() && InvAt(cfg, s, m) && Enabled(cfg, s, Deliver(w))
    ensures Winners(AfterDelivery(cfg, s, w).recirc, r) + (if r < m then 1 else 0)
         == Winners(s.recirc, r) + if r < RoundsAfterStep(cfg, s, m, Deliver(w)) then 1 else 0
  {
    var p := s.up[w][0];
    HeadIsFreshOrSeen(cfg, s, m, w);
    DeliveryShape(cfg, s, w);
    var meta := Consume(s.slot, cfg.n, w, p.setBit, p.data).1;
    WinnersAppend(s.recirc, Recirculated(w, p.setBit, p.shortId, meta, p.round), r);
    if DeliversFresh(s, m, w) {
      ConsumeFresh(cfg, s.slot, m, w);
    } else {
      ConsumeSeen(cfg, s.slot, m, w, p.round, p.data);
    }
  }

  lemma StepBroadcasts(cfg: Config, s: System, m: nat, a: Action, r: nat)
    requires cfg.Valid() && InvAt(cfg, s, m) && CanStep(cfg, s, a)
    ensures (if Broadcasts(cfg, s, a, r) then 1 else 0) + Winners(Next(cfg, s, a).recirc, r) + (if r < m then 1 else 0)
         == Winners(s.recirc, r) + if r < RoundsAfterStep(cfg, s, m, a) then 1 else 0
  {
    match a
    case Harvest(i) => WinnersRemove(s.recirc, i, r);
    case Deliver(w) => DeliveryWins(cfg, s, m, w, r);
    case _ =>
  }

  lemma {:induction false} RunBroadcasts(cfg: Config, s: System, m: nat, acts: seq<Action>, r: nat)
    requires cfg.Valid() && InvAt(cfg, s, m) && Runnable(cfg, s, acts)
    ensures BroadcastCount(cfg, s, acts, r) + Winners(Run(cfg, s, acts).recirc, r) + (if r < m then 1 else 0)
         == Winners(s.recirc, r) + if r < RoundsAfterRun(cfg, s, m, acts) then 1 else 0
    decreases |acts|
  {
    if acts != [] {
      StepKeepsInv(cfg, s, m, acts[0]);
      StepBroadcasts(cfg, s, m, acts[0], r);
      RunBroadcasts(cfg, Next(cfg, s, acts[0]), RoundsAfterStep(cfg, s, m, acts[0]), acts[1..], r);
    }
  }

  lemma Missing(cfg: Config, c: set<nat>) returns (v: nat)
    requires cfg.Valid() && c < cfg.Everyone()
    ensures v < cfg.n && v !in c
  {
    assert cfg.Everyone() - c != {};
    v :| v in cfg.Everyone() - c;
  }

  /** All n workers' messages of round r have been added, each once. */
  ghost predicate AllAdded(cfg: Config, acts: seq<Action>, r: nat)
    requires cfg.Valid() && Runnable(cfg, Init(cfg), acts)
  {
    forall w :: 0 <= w < cfg.n ==> Additions(cfg, Init(cfg), acts, w, r) == 1
  }

  lemma CompleteRounds(cfg: Config, acts: seq<Action>, s: System, m: nat, r: nat)
    requires cfg.Valid() && ReachedBy(cfg, acts, s, m)
    ensures AllAdded(cfg, acts, r) <==> r < m
  {
    RegistersTellTheRun(cfg, acts, s, m);
    if r < m {
      forall w | 0 <= w < cfg.n
        ensures Additions(cfg, Init(cfg), acts, w, r) == 1
      {
        assert Contributed(s.slot, m, w, r);
      }
    } else {
      ReachedKeepsInv(cfg, acts, s, m);
      var w := Missing(cfg, s.slot.Get(Odd(m)).bitmap);
      assert !Contributed(s.slot, m, w, r);
      assert Additions(cfg, Init(cfg), acts, w, r) == 0;
    }
  }

  /** A round is broadcast once: of its packets, exactly one has been broadcast or waits to be, once all
      n workers have contributed, and none before. */
  lemma OneBroadcastPerRound(cfg: Config, acts: seq<Action>, s: System, m: nat, r: nat)
    requires cfg.Valid() && ReachedBy(cfg, acts, s, m)
    ensures BroadcastCount(cfg, Init(cfg), acts, r) + Winners(s.recirc, r)
         == if AllAdded(cfg, acts, r) then 1 else 0
  {
    InitInv(cfg);
    RunBroadcasts(cfg, Init(cfg), 0, acts, r);
    CompleteRounds(cfg, acts, s, m, r);
  }

  /** What becomes of a copy of a message that is already in. Nothing is added. If its round is complete,
      it is recirculated and its HARVEST7 pass, whenever that runs, sends the result to its worker. If the
      round lacks one contribution, it reads a count of 1, so it carries the LAST flag like a completing
      packet, but its HARVEST7 pass drops it. Otherwise it is dropped at once. */
  lemma FateOfDuplicates(cfg: Config, acts: seq<Action>, s: System, m: nat, w: nat)
    requires cfg.Valid() && ReachedBy(cfg, acts, s, m) && Shaped(cfg, s) && Enabled(cfg, s, Deliver(w))
    requires Additions(cfg, Init(cfg), acts, w, s.up[w][0].round) > 0
    ensures var s' := AfterDelivery(cfg, s, w);
            var q := s.up[w][0].round;
            var lacking := s.slot.Get(Odd(q)).count;
            && s'.slot == s.slot
            && (lacking == 0 <==> AllAdded(cfg, acts, q))
            && if lacking > 1 then s'.recirc == s.recirc
               else |s'.recirc| == |s.recirc| + 1
                    && var h := s'.recirc[|s.recirc|];
                       h.worker == w
                       && AfterHarvest(h.meta.flag, h.meta.seen) == if lacking == 0 then Retransmit else Drop
  {
    ReachedKeepsInv(cfg, acts, s, m);
    RegistersTellTheRun(cfg, acts, s, m);
    HeadIsFreshOrSeen(cfg, s, m, w);
    DeliveryShape(cfg, s, w);
    var p := s.up[w][0];
    var q := p.round;
    assert Contributed(s.slot, m, w, q);
    assert !DeliversFresh(s, m, w);
    ConsumeSeen(cfg, s.slot, m, w, q, p.data);
    assert Odd(q + 1) == !Odd(q);
    CompleteRounds(cfg, acts, s, m, q);
    if q == m {
      ProgressIsPartial(cfg, s.slot.Get(Odd(m)), s.slot.Get(!Odd(m)), m);
    }
  }
}
