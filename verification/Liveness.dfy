/** No reachable state of the protocol is stuck: without further loss it can always be driven to the
    end, an incomplete round by retransmissions and a complete one from the stored sum. */
module Liveness {
  import opened Basics
  import opened Slots
  import opened Protocol
  import opened Runs

  ghost predicate LossFree(acts: seq<Action>) {
    forall i :: 0 <= i < |acts| ==> !acts[i].Lose?
  }

  /** The actions are a loss-free run from s, where m rounds are complete, to s', where m' are. */
  ghost predicate Leads(cfg: Config, s: System, m: nat, acts: seq<Action>, s': System, m': nat)
    requires cfg.Valid()
    decreases |acts|
  {
    if acts == [] then s' == s && m' == m
    else !acts[0].Lose? && CanStep(cfg, s, acts[0])
         && Leads(cfg, Next(cfg, s, acts[0]), RoundsAfterStep(cfg, s, m, acts[0]), acts[1..], s', m')
  }

  lemma {:induction false} LeadsIsRun(cfg: Config, s: System, m: nat, acts: seq<Action>, s': System, m': nat)
    requires cfg.Valid() && Leads(cfg, s, m, acts, s', m')
    ensures LossFree(acts) && Runnable(cfg, s, acts)
    ensures Run(cfg, s, acts) == s' && RoundsAfterRun(cfg, s, m, acts) == m'
    decreases |acts|
  {
    if acts != [] {
      LeadsIsRun(cfg, Next(cfg, s, acts[0]), RoundsAfterStep(cfg, s, m, acts[0]), acts[1..], s', m');
      assert forall i :: 0 < i < |acts| ==> acts[i] == acts[1..][i - 1];
    }
  }

  lemma LeadsThrough(cfg: Config, s: System, m: nat, a: Action, acts: seq<Action>, s': System, m': nat)
    requires cfg.Valid() && !a.Lose? && CanStep(cfg, s, a)
    requires Leads(cfg, Next(cfg, s, a), RoundsAfterStep(cfg, s, m, a), acts, s', m')
    ensures Leads(cfg, s, m, [a] + acts, s', m')
  {
    assert ([a] + acts)[0] == a && ([a] + acts)[1..] == acts;
  }

  lemma {:induction false} LeadsTrans(cfg: Config, s: System, m: nat, a: seq<Action>, s1: System, m1: nat,
                                      b: seq<Action>, s2: System, m2: nat)
    requires cfg.Valid() && Leads(cfg, s, m, a, s1, m1) && Leads(cfg, s1, m1, b, s2, m2)
    ensures Leads(cfg, s, m, a + b, s2, m2)
    decreases |a|
  {
    if a == [] {
      assert a + b == b;
    } else {
      LeadsTrans(cfg, Next(cfg, s, a[0]), RoundsAfterStep(cfg, s, m, a[0]), a[1..], s1, m1, b, s2, m2);
      LeadsThrough(cfg, s, m, a[0], a[1..] + b, s2, m2);
      FirstThenRest(a, b);
    }
  }

  lemma LeadsOne(cfg: Config, s: System, m: nat, a: Action)
    requires cfg.Valid() && InvAt(cfg, s, m) && Enabled(cfg, s, a) && !a.Lose?
    ensures CanStep(cfg, s, a)
    ensures Leads(cfg, s, m, [a], Next(cfg, s, a), RoundsAfterStep(cfg, s, m, a))
    ensures InvAt(cfg, Next(cfg, s, a), RoundsAfterStep(cfg, s, m, a))
  {
    EnabledCanStep(cfg, s, m, a);
    StepKeepsInv(cfg, s, m, a);
    assert [a][1..] == [];
  }

  /** From s to s', all that was in w's channel has been delivered and is in; nothing else moved. */
  ghost predicate Drained(s: System, m: nat, w: nat, s': System, m': nat)
    requires w < |s.up|
  {
    && s'.workers == s.workers && s'.down == s.down && s'.up == s.up[w := []]
    && (forall q: nat :: Contributed(s.slot, m, w, q) ==> Contributed(s'.slot, m', w, q))
    && (forall i :: 0 <= i < |s.up[w]| ==> Contributed(s'.slot, m', w, s.up[w][i].round))
  }

  /** After CONSUME0 has seen a packet, its worker's message of that round is in. */
  lemma DeliveryContributes(cfg: Config, s: System, m: nat, w: nat)
    requires cfg.Valid() && InvAt(cfg, s, m) && Enabled(cfg, s, Deliver(w)) && CanStep(cfg, s, Deliver(w))
    ensures var s', m' := AfterDelivery(cfg, s, w), RoundsAfterStep(cfg, s, m, Deliver(w));
            && s'.workers == s.workers && s'.down == s.down && s'.up == s.up[w := s.up[w][1..]]
            && Contributed(s'.slot, m', w, s.up[w][0].round)
            && forall q: nat :: Contributed(s.slot, m, w, q) ==> Contributed(s'.slot, m', w, q)
  {
    DeliveryShape(cfg, s, w);
    HeadIsFreshOrSeen(cfg, s, m, w);
    forall q: nat
      ensures Contributed(s.slot, m, w, q) || q == s.up[w][0].round
              ==> Contributed(AfterDelivery(cfg, s, w).slot, RoundsAfterStep(cfg, s, m, Deliver(w)), w, q)
    {
      StepContributes(cfg, s, m, Deliver(w), w, q);
    }
  }

  lemma DrainedTrans(s: System, m: nat, w: nat, s1: System, m1: nat, s': System, m': nat)
    requires w < |s.up| && |s.up[w]| > 0
    requires s1.workers == s.workers && s1.down == s.down && s1.up == s.up[w := s.up[w][1..]]
    requires Contributed(s1.slot, m1, w, s.up[w][0].round)
    requires forall q: nat :: Contributed(s.slot, m, w, q) ==> Contributed(s1.slot, m1, w, q)
    requires Drained(s1, m1, w, s', m')
    ensures Drained(s, m, w, s', m')
  {
    forall i | 0 <= i < |s.up[w]|
      ensures Contributed(s'.slot, m', w, s.up[w][i].round)
    {
      if i > 0 {
        assert s1.up[w][i - 1] == s.up[w][i];
      }
    }
  }

  /** Delivers everything in a worker's channel. */
  lemma {:induction false} Drain(cfg: Config, s: System, m: nat, w: nat)
    returns (acts: seq<Action>, s': System, m': nat)
    requires cfg.Valid() && InvAt(cfg, s, m) && w < cfg.n
    ensures Leads(cfg, s, m, acts, s', m') && InvAt(cfg, s', m')
    ensures Drained(s, m, w, s', m')
    decreases |s.up[w]|
  {
    if |s.up[w]| == 0 {
      acts, s', m' := [], s, m;
      assert s.up == s.up[w := []];
    } else {
      var a := Deliver(w);
      LeadsOne(cfg, s, m, a);
      DeliveryContributes(cfg, s, m, w);
      var s1, m1 := AfterDelivery(cfg, s, w), RoundsAfterStep(cfg, s, m, a);
      var rest;
      rest, s', m' := Drain(cfg, s1, m1, w);
      acts := [a] + rest;
      LeadsTrans(cfg, s, m, [a], s1, m1, rest, s', m');
      DrainedTrans(s, m, w, s1, m1, s', m');
    }
  }

  /** A worker's outstanding message gets to the switch: it is sent again and the channel is drained. */
  lemma BringIn(cfg: Config, s: System, m: nat, w: nat) returns (acts: seq<Action>, s': System, m': nat)
    requires cfg.Valid() && InvAt(cfg, s, m) && Enabled(cfg, s, Timeout(w))
    ensures Leads(cfg, s, m, acts, s', m') && InvAt(cfg, s', m')
    ensures s'.workers == s.workers && s'.down == s.down && s'.up == s.up[w := []]
    ensures Contributed(s'.slot, m', w, |s.workers[w].accepted|)
  {
    var a := Timeout(w);
    LeadsOne(cfg, s, m, a);
    var s1 := Next(cfg, s, a);
    var last := |s.up[w]|;
    assert s1.up[w][last].round == |s.workers[w].accepted|;
    var rest;
    rest, s', m' := Drain(cfg, s1, m, w);
    acts := [a] + rest;
    LeadsTrans(cfg, s, m, [a], s1, m, rest, s', m');
  }

  lemma {:induction false} RoundsGrow(cfg: Config, s: System, m: nat, acts: seq<Action>, s': System, m': nat)
    requires cfg.Valid() && Leads(cfg, s, m, acts, s', m')
    ensures m <= m'
    decreases |acts|
  {
    if acts != [] {
      RoundsGrow(cfg, Next(cfg, s, acts[0]), RoundsAfterStep(cfg, s, m, acts[0]), acts[1..], s', m');
    }
  }

  lemma UnfinishedAwaits(cfg: Config, s: System, m: nat, w: nat)
    requires cfg.Valid() && InvAt(cfg, s, m) && w < cfg.n
    ensures Unfinished(cfg, s.workers[w]) <==> |s.workers[w].accepted| < cfg.Rounds()
  {
    assert WorkerInv(cfg, s.slot, m, w, s.workers[w]);
    RoundsAreIds(cfg, |s.workers[w].accepted|);
  }

  /** Worker v alone advanced, by one round. */
  ghost predicate Advanced(s: System, v: nat, s': System) {
    && v < |s.workers| == |s'.workers|
    && |s'.workers[v].accepted| == |s.workers[v].accepted| + 1
    && forall w :: 0 <= w < |s.workers| && w != v ==> s'.workers[w] == s.workers[w]
  }

  /** The last recirculated packet is one of v that HARVEST7 will answer with the result of round q. */
  ghost predicate AsksFor(s: System, v: nat, q: int) {
    |s.recirc| > 0
    && var h := s.recirc[|s.recirc| - 1];
       h.worker == v && h.round == q && AfterHarvest(h.meta.flag, h.meta.seen) == Retransmit
  }

  /** A copy of v's message of the last complete round is recirculated for its result. */
  lemma DeliveredAgain(cfg: Config, s: System, m: nat, v: nat)
    requires cfg.Valid() && InvAt(cfg, s, m) && Enabled(cfg, s, Deliver(v)) && s.up[v][0].round + 1 == m
    ensures RoundsAfterStep(cfg, s, m, Deliver(v)) == m
    ensures AfterDelivery(cfg, s, v).workers == s.workers && AsksFor(AfterDelivery(cfg, s, v), v, m - 1)
  {
    HeadIsFreshOrSeen(cfg, s, m, v);
    ConsumeSeen(cfg, s.slot, m, v, m - 1, s.up[v][0].data);
    DeliveryShape(cfg, s, v);
  }

  /** v's message of a complete round reaches CONSUME0 again and is recirculated for its result. */
  lemma AskAgain(cfg: Config, s: System, m: nat, v: nat) returns (acts: seq<Action>, s': System)
    requires cfg.Valid() && InvAt(cfg, s, m) && v < cfg.n && Enabled(cfg, s, Timeout(v))
    requires s.up[v] == [] && |s.workers[v].accepted| + 1 == m
    ensures Leads(cfg, s, m, acts, s', m) && InvAt(cfg, s', m) && s'.workers == s.workers && AsksFor(s', v, m - 1)
  {
    LeadsOne(cfg, s, m, Timeout(v));
    var s1 := Next(cfg, s, Timeout(v));
    assert s1.up[v][0].round == m - 1;
    LeadsOne(cfg, s1, m, Deliver(v));
    DeliveredAgain(cfg, s1, m, v);
    acts, s' := [Timeout(v)] + [Deliver(v)], AfterDelivery(cfg, s1, v);
    LeadsTrans(cfg, s, m, [Timeout(v)], s1, m, [Deliver(v)], s', m);
  }

  /** The HARVEST7 pass answers v from the stored sum, and v moves on. */
  lemma TakeReply(cfg: Config, s: System, m: nat, v: nat) returns (acts: seq<Action>, s': System)
    requires cfg.Valid() && InvAt(cfg, s, m) && v < cfg.n
    requires |s.workers[v].accepted| + 1 == m && Unfinished(cfg, s.workers[v]) && AsksFor(s, v, m - 1)
    ensures Leads(cfg, s, m, acts, s', m) && InvAt(cfg, s', m) && Advanced(s, v, s')
  {
    var last := |s.recirc| - 1;
    var d := ReplyOf(s.slot, s.recirc[last]);
    UnfinishedAwaits(cfg, s, m, v);
    LeadsOne(cfg, s, m, Harvest(last));
    var s1 := Next(cfg, s, Harvest(last));
    LeadsOne(cfg, s1, m, Accept(v, d));
    s' := Next(cfg, s1, Accept(v, d));
    acts := [Harvest(last)] + [Accept(v, d)];
    LeadsTrans(cfg, s, m, [Harvest(last)], s1, m, [Accept(v, d)], s', m);
  }

  /** Worker v awaits the last of m complete rounds. */
  ghost predicate AwaitsLast(cfg: Config, workers: seq<Worker>, m: nat, v: nat) {
    v < cfg.n && v < |workers| && |workers[v].accepted| + 1 == m && Unfinished(cfg, workers[v])
  }

  /** A worker that awaits a complete round gets its result. */
  lemma Serve(cfg: Config, s: System, m: nat, v: nat) returns (acts: seq<Action>, s': System, m': nat)
    requires cfg.Valid() && InvAt(cfg, s, m) && AwaitsLast(cfg, s.workers, m, v)
    ensures Leads(cfg, s, m, acts, s', m') && InvAt(cfg, s', m') && Advanced(s, v, s')
  {
    UnfinishedAwaits(cfg, s, m, v);
    var a1, s1, m1 := BringIn(cfg, s, m, v);
    RoundsGrow(cfg, s, m, a1, s1, m1);
    assert WorkerInv(cfg, s1.slot, m1, v, s1.workers[v]);
    assert m1 == m;
    var a2, s2 := AskAgain(cfg, s1, m, v);
    var a3, s3 := TakeReply(cfg, s2, m, v);
    LeadsTrans(cfg, s, m, a1, s1, m, a2, s2, m);
    LeadsTrans(cfg, s, m, a1 + a2, s2, m, a3, s3, m);
    acts, s', m' := a1 + a2 + a3, s3, m;
  }

  /** All workers await round m. */
  ghost predicate AllAwait(cfg: Config, workers: seq<Worker>, m: nat) {
    |workers| == cfg.n && forall w :: 0 <= w < cfg.n ==> |workers[w].accepted| == m
  }

  /** One of the workers still missing from the round in progress brings its message in. */
  lemma FillOne(cfg: Config, s: System, m: nat) returns (acts: seq<Action>, s': System, m': nat)
    requires cfg.Valid() && InvAt(cfg, s, m) && m < cfg.Rounds() && AllAwait(cfg, s.workers, m)
    ensures Leads(cfg, s, m, acts, s', m') && InvAt(cfg, s', m') && s'.workers == s.workers
    ensures m' == m + 1
            || (m' == m && |s.slot.Get(Odd(m)).bitmap| < |s'.slot.Get(Odd(m)).bitmap| <= cfg.n)
  {
    var v := Missing(cfg, s.slot.Get(Odd(m)).bitmap);
    UnfinishedAwaits(cfg, s, m, v);
    acts, s', m' := BringIn(cfg, s, m, v);
    RoundsGrow(cfg, s, m, acts, s', m');
    assert WorkerInv(cfg, s'.slot, m', v, s'.workers[v]);
    if m' == m {
      MoreContributed(cfg, s, m, acts, s', v);
    }
  }

  /** When every worker awaits the round in progress, those still missing bring their messages in
      until the round is complete. */
  lemma {:induction false} Fill(cfg: Config, s: System, m: nat) returns (acts: seq<Action>, s': System, m': nat)
    requires cfg.Valid() && InvAt(cfg, s, m) && m < cfg.Rounds() && AllAwait(cfg, s.workers, m)
    ensures m' == m + 1 && Leads(cfg, s, m, acts, s', m') && InvAt(cfg, s', m') && s'.workers == s.workers
    decreases cfg.n - |s.slot.Get(Odd(m)).bitmap|
  {
    var a1, s1, m1 := FillOne(cfg, s, m);
    if m1 == m + 1 {
      acts, s', m' := a1, s1, m1;
    } else {
      var a2;
      a2, s', m' := Fill(cfg, s1, m1);
      LeadsTrans(cfg, s, m, a1, s1, m1, a2, s', m');
      acts := a1 + a2;
    }
  }

  lemma MoreContributed(cfg: Config, s: System, m: nat, acts: seq<Action>, s': System, v: nat)
    requires cfg.Valid() && InvAt(cfg, s, m) && Leads(cfg, s, m, acts, s', m) && InvAt(cfg, s', m)
    requires v !in s.slot.Get(Odd(m)).bitmap && Contributed(s'.slot, m, v, m)
    ensures |s.slot.Get(Odd(m)).bitmap| < |s'.slot.Get(Odd(m)).bitmap| <= cfg.n
  {
    var c, c' := s.slot.Get(Odd(m)).bitmap, s'.slot.Get(Odd(m)).bitmap;
    LeadsIsRun(cfg, s, m, acts, s', m);
    forall w | w in c
      ensures w in c'
    {
      assert w in cfg.Everyone();
      AdditionsCount(cfg, s, m, acts, w, m);
    }
    SubsetSize(c, c');
    SubsetSize(c', cfg.Everyone());
  }

  /** A loss-free run that moves no worker, and then one that advances u. */
  lemma ThenAdvanced(cfg: Config, s: System, m: nat, a: seq<Action>, s1: System, m1: nat,
                     b: seq<Action>, s2: System, m2: nat, u: nat)
    requires cfg.Valid() && Leads(cfg, s, m, a, s1, m1) && Leads(cfg, s1, m1, b, s2, m2)
    requires s1.workers == s.workers && Advanced(s1, u, s2)
    ensures Leads(cfg, s, m, a + b, s2, m2) && Advanced(s, u, s2)
  {
    LeadsTrans(cfg, s, m, a, s1, m1, b, s2, m2);
  }

  /** When every worker awaits the round in progress, it can be completed and its result given to u. */
  lemma FillAndServe(cfg: Config, s: System, m: nat, u: nat) returns (acts: seq<Action>, s': System, m': nat)
    requires cfg.Valid() && InvAt(cfg, s, m) && AllAwait(cfg, s.workers, m) && m < cfg.Rounds()
    requires AwaitsLast(cfg, s.workers, m + 1, u)
    ensures Leads(cfg, s, m, acts, s', m') && InvAt(cfg, s', m') && Advanced(s, u, s')
  {
    var a1, s1, m1 := Fill(cfg, s, m);
    var a2;
    a2, s', m' := Serve(cfg, s1, m1, u);
    ThenAdvanced(cfg, s, m, a1, s1, m1, a2, s', m', u);
    acts := a1 + a2;
  }

  /** Either all workers await the round in progress, and it is not beyond the last one if u is unfinished,
      or some worker awaits the last complete round. */
  lemma WhoAwaits(cfg: Config, s: System, m: nat, u: nat) returns (v: nat)
    requires cfg.Valid() && InvAt(cfg, s, m) && u < cfg.n && Unfinished(cfg, s.workers[u])
    ensures AwaitsLast(cfg, s.workers, m, v)
            || (v == u && AllAwait(cfg, s.workers, m) && m < cfg.Rounds() && AwaitsLast(cfg, s.workers, m + 1, u))
  {
    forall w | 0 <= w < cfg.n
      ensures |s.workers[w].accepted| <= m <= |s.workers[w].accepted| + 1
    {
      assert WorkerInv(cfg, s.slot, m, w, s.workers[w]);
    }
    if w :| 0 <= w < cfg.n && |s.workers[w].accepted| + 1 == m {
      v := w;
      UnfinishedAwaits(cfg, s, m, v);
    } else {
      v := u;
      UnfinishedAwaits(cfg, s, m, u);
    }
  }

  /** From any consistent state with an unfinished worker, some worker can be advanced by one round. */
  lemma AdvanceOne(cfg: Config, s: System, m: nat, u: nat)
    returns (acts: seq<Action>, s': System, m': nat, v: nat)
    requires cfg.Valid() && InvAt(cfg, s, m) && u < cfg.n && Unfinished(cfg, s.workers[u])
    ensures Leads(cfg, s, m, acts, s', m') && InvAt(cfg, s', m') && Advanced(s, v, s')
    ensures v < cfg.n && Unfinished(cfg, s.workers[v])
  {
    v := WhoAwaits(cfg, s, m, u);
    if AwaitsLast(cfg, s.workers, m, v) {
      acts, s', m' := Serve(cfg, s, m, v);
    } else {
      acts, s', m' := FillAndServe(cfg, s, m, u);
    }
  }

  /** How many results the first k workers still have to accept. */
  ghost function Remaining(cfg: Config, workers: seq<Worker>, k: nat): int
    requires cfg.Valid() && k <= |workers|
  {
    if k == 0 then 0 else Remaining(cfg, workers, k - 1) + cfg.Rounds() - |workers[k - 1].accepted|
  }

  lemma {:induction false} RemainingShrinks(cfg: Config, s: System, v: nat, s': System, k: nat)
    requires cfg.Valid() && Advanced(s, v, s') && k <= |s.workers|
    ensures Remaining(cfg, s'.workers, k) == Remaining(cfg, s.workers, k) - if v < k then 1 else 0
  {
    if k > 0 {
      RemainingShrinks(cfg, s, v, s', k - 1);
    }
  }

  lemma {:induction false} RemainingIsNat(cfg: Config, s: System, m: nat, k: nat)
    requires cfg.Valid() && InvAt(cfg, s, m) && k <= cfg.n
    ensures Remaining(cfg, s.workers, k) >= 0
  {
    if k > 0 {
      RemainingIsNat(cfg, s, m, k - 1);
      assert WorkerInv(cfg, s.slot, m, k - 1, s.workers[k - 1]);
    }
  }

  ghost predicate AllFinished(cfg: Config, s: System) {
    forall w :: 0 <= w < |s.workers| ==> !Unfinished(cfg, s.workers[w])
  }

  lemma {:induction false} Finish(cfg: Config, s: System, m: nat)
    returns (acts: seq<Action>, s': System, m': nat)
    requires cfg.Valid() && InvAt(cfg, s, m)
    ensures Leads(cfg, s, m, acts, s', m') && InvAt(cfg, s', m') && AllFinished(cfg, s')
    decreases Remaining(cfg, s.workers, cfg.n)
  {
    RemainingIsNat(cfg, s, m, cfg.n);
    if u :| 0 <= u < cfg.n && Unfinished(cfg, s.workers[u]) {
      var a1, s1, m1, v := AdvanceOne(cfg, s, m, u);
      RemainingShrinks(cfg, s, v, s1, cfg.n);
      RemainingIsNat(cfg, s1, m1, cfg.n);
      var a2;
      a2, s', m' := Finish(cfg, s1, m1);
      LeadsTrans(cfg, s, m, a1, s1, m1, a2, s', m');
      acts := a1 + a2;
    } else {
      acts, s', m' := [], s, m;
    }
  }

  /** No reachable state is stuck: some loss-free continuation ends with every worker holding the result
      of every round. */
  lemma NoStuckState(cfg: Config, past: seq<Action>, s: System, m: nat)
    requires cfg.Valid() && ReachedBy(cfg, past, s, m)
    ensures exists acts ::
              && LossFree(acts) && Runnable(cfg, s, acts)
              && HasAllResults(cfg, Run(cfg, s, acts))
  {
    ReachedKeepsInv(cfg, past, s, m);
    var acts, s', m' := Finish(cfg, s, m);
    LeadsIsRun(cfg, s, m, acts, s', m');
    forall w | 0 <= w < cfg.n
      ensures |s'.workers[w].accepted| == cfg.Rounds()
      ensures forall r :: 0 <= r < cfg.Rounds() ==> s'.workers[w].accepted[r] == cfg.Result(r)
    {
      UnfinishedAwaits(cfg, s', m', w);
      assert WorkerInv(cfg, s'.slot, m', w, s'.workers[w]);
    }
    assert HasAllResults(cfg, Run(cfg, s, acts));
  }

  ghost predicate HasAllResults(cfg: Config, s: System)
    requires cfg.Valid()
  {
    && |s.workers| == cfg.n
    && forall w :: 0 <= w < cfg.n ==>
         && |s.workers[w].accepted| == cfg.Rounds()
         && forall r :: 0 <= r < cfg.Rounds() ==> s.workers[w].accepted[r] == cfg.Result(r)
  }
}
