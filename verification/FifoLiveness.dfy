/** No state of the protocol on the wire, with ordered replies and 16 bits of the message id, is stuck:
    without further loss every worker gets the result of every round. */
module FifoLiveness {
  import opened Basics
  import opened Slots
  import opened Protocol
  import opened Runs
  import opened Liveness
  import opened FifoWire

  predicate Lossy(a: FifoAction) {
    a.LoseUp? || a.LoseDown?
  }

  ghost predicate NothingLost(acts: seq<FifoAction>) {
    forall i :: 0 <= i < |acts| ==> !Lossy(acts[i])
  }

  /** The actions are a loss-free run from f to f'. */
  ghost predicate FifoLeads(cfg: Config, f: FifoSystem, acts: seq<FifoAction>, f': FifoSystem)
    requires cfg.Valid()
    decreases |acts|
  {
    if acts == [] then f' == f
    else !Lossy(acts[0]) && FifoCanStep(cfg, f, acts[0])
         && FifoLeads(cfg, FifoNext(cfg, f, acts[0]), acts[1..], f')
  }

  lemma {:induction false} FifoLeadsIsRun(cfg: Config, f: FifoSystem, acts: seq<FifoAction>, f': FifoSystem)
    requires cfg.Valid() && FifoLeads(cfg, f, acts, f')
    ensures NothingLost(acts) && FifoRunnable(cfg, f, acts) && FifoRun(cfg, f, acts) == f'
    decreases |acts|
  {
    if acts != [] {
      FifoLeadsIsRun(cfg, FifoNext(cfg, f, acts[0]), acts[1..], f');
      assert forall i :: 0 < i < |acts| ==> acts[i] == acts[1..][i - 1];
    }
  }

  lemma FifoThrough(cfg: Config, f: FifoSystem, a: FifoAction, acts: seq<FifoAction>, f': FifoSystem)
    requires cfg.Valid() && !Lossy(a) && FifoCanStep(cfg, f, a) && FifoLeads(cfg, FifoNext(cfg, f, a), acts, f')
    ensures FifoLeads(cfg, f, [a] + acts, f')
  {
    assert ([a] + acts)[0] == a && ([a] + acts)[1..] == acts;
  }

  lemma {:induction false} FifoTrans(cfg: Config, f: FifoSystem, a: seq<FifoAction>, f1: FifoSystem,
                                     b: seq<FifoAction>, f2: FifoSystem)
    requires cfg.Valid() && FifoLeads(cfg, f, a, f1) && FifoLeads(cfg, f1, b, f2)
    ensures FifoLeads(cfg, f, a + b, f2)
    decreases |a|
  {
    if a == [] {
      assert a + b == b;
    } else {
      FifoTrans(cfg, FifoNext(cfg, f, a[0]), a[1..], f1, b, f2);
      FifoThrough(cfg, f, a[0], a[1..] + b, f2);
      FirstThenRest(a, b);
    }
  }

  /** A consistent state: it represents the state s of the exact protocol, where m rounds are complete. */
  ghost predicate At(cfg: Config, f: FifoSystem, s: System, m: nat)
    requires cfg.Valid()
  {
    InvAt(cfg, s, m) && Represents(cfg, f, s) && cfg.batch % 0x1_0000 != 0
  }

  lemma CanStepAt(cfg: Config, f: FifoSystem, s: System, m: nat)
    requires cfg.Valid() && At(cfg, f, s, m)
    ensures FifoShaped(cfg, f)
    ensures forall w :: 0 <= w < cfg.n ==> f.workers[w].msgId == cfg.MsgId(|f.workers[w].accepted|)
  {
    assert QueuesOf(cfg, f.down, s);
    forall w | 0 <= w < cfg.n
      ensures s.workers[w].msgId == cfg.MsgId(|s.workers[w].accepted|)
    {
      assert WorkerInv(cfg, s.slot, m, w, s.workers[w]);
    }
  }

  // ---------- Single steps ----------

  /** A retransmission: the channel gets another copy of the worker's message. */
  lemma ResendStep(cfg: Config, f: FifoSystem, s: System, m: nat, w: nat) returns (s': System)
    requires cfg.Valid() && At(cfg, f, s, m) && w < cfg.n && Unfinished(cfg, f.workers[w])
    ensures FifoCanStep(cfg, f, Resend(w)) && At(cfg, FifoNext(cfg, f, Resend(w)), s', m)
    ensures var f' := FifoNext(cfg, f, Resend(w));
            && f'.workers == f.workers && |f'.up[w]| > 0
            && f'.up[w][|f'.up[w]| - 1].round == |f.workers[w].accepted|
  {
    CanStepAt(cfg, f, s, m);
    UnfinishedAwaits(cfg, s, m, w);
    OneStep(cfg, s, m, Timeout(w));
    s' := Next(cfg, s, Timeout(w));
  }

  /** Whatever has been added stays added. */
  ghost predicate Grew(n: nat, slot: Slot, m: nat, slot': Slot, m': nat) {
    forall u: nat, q: nat :: u < n && Contributed(slot, m, u, q) ==> Contributed(slot', m', u, q)
  }

  /** Both passes of the oldest packet of a channel. */
  lemma PassStep(cfg: Config, f: FifoSystem, s: System, m: nat, w: nat) returns (s': System, m': nat)
    requires cfg.Valid() && At(cfg, f, s, m) && w < cfg.n && |f.up[w]| > 0
    ensures FifoCanStep(cfg, f, Pass(w)) && At(cfg, FifoNext(cfg, f, Pass(w)), s', m')
    ensures var f' := FifoNext(cfg, f, Pass(w));
            && f'.workers == f.workers && f'.up == f.up[w := f.up[w][1..]]
            && Grew(cfg.n, f.slot, m, f'.slot, m') && Contributed(f'.slot, m', w, f.up[w][0].round)
  {
    CanStepAt(cfg, f, s, m);
    var acts;
    acts, s', m' := SimulatePass(cfg, f, s, m, w);
    EnabledCanStep(cfg, s, m, Deliver(w));
    DeliveryShape(cfg, s, w);
    DeliveryContributes(cfg, s, m, w);
    forall u: nat, q: nat | u < cfg.n && Contributed(f.slot, m, u, q)
      ensures Contributed(FifoNext(cfg, f, Pass(w)).slot, m', u, q)
    {
      StepContributes(cfg, s, m, Deliver(w), u, q);
    }
  }

  ghost predicate HasReply(queue: seq<Reply>, r: nat) {
    exists i :: 0 <= i < |queue| && queue[i].round == r
  }

  /** The HARVEST7 pass of a retransmission queues a reply to it. */
  lemma RetransmitQueues(down: seq<seq<Reply>>, h: Recirculated, d: Reply)
    requires h.worker < |down| && AfterHarvest(h.meta.flag, h.meta.seen) == Retransmit && d.round == h.round
    ensures HasReply(Deliveries(down, h, d)[h.worker], h.round)
  {
    var queue := Deliveries(down, h, d)[h.worker];
    assert queue[|queue| - 1] == d;
  }

  /** A copy of a message of the last complete round is answered with its result. */
  lemma Answered(cfg: Config, f: FifoSystem, s: System, m: nat, w: nat)
    requires cfg.Valid() && At(cfg, f, s, m) && FifoCanStep(cfg, f, Pass(w)) && f.up[w][0].round + 1 == m
    ensures HasReply(AfterPass(cfg, f, w).down[w], m - 1)
  {
    HeadIsFreshOrSeen(cfg, s, m, w);
    ConsumeSeen(cfg, s.slot, m, w, m - 1, s.up[w][0].data);
    var p := f.up[w][0];
    var (slot', meta) := Consume(f.slot, cfg.n, w, p.setBit, p.data);
    var h := Recirculated(w, p.setBit, p.shortId, meta, p.round);
    RetransmitQueues(f.down, h, ReplyOf(slot', h));
  }

  lemma PassAgain(cfg: Config, f: FifoSystem, s: System, m: nat, w: nat) returns (s': System)
    requires cfg.Valid() && At(cfg, f, s, m) && w < cfg.n && |f.up[w]| > 0 && f.up[w][0].round + 1 == m
    ensures FifoCanStep(cfg, f, Pass(w)) && At(cfg, FifoNext(cfg, f, Pass(w)), s', m)
    ensures FifoNext(cfg, f, Pass(w)).workers == f.workers
    ensures HasReply(FifoNext(cfg, f, Pass(w)).down[w], m - 1)
  {
    CanStepAt(cfg, f, s, m);
    Answered(cfg, f, s, m, w);
    DeliveredAgain(cfg, s, m, w);
    var acts, m';
    acts, s', m' := SimulatePass(cfg, f, s, m, w);
  }

  /** The worker polls its oldest reply: it takes the awaited one and drops an older one. */
  lemma ReceiveStep(cfg: Config, f: FifoSystem, s: System, m: nat, w: nat) returns (s': System)
    requires cfg.Valid() && At(cfg, f, s, m) && w < cfg.n && Unfinished(cfg, f.workers[w]) && |f.down[w]| > 0
    ensures FifoCanStep(cfg, f, Receive(w)) && At(cfg, FifoNext(cfg, f, Receive(w)), s', m)
    ensures var f' := FifoNext(cfg, f, Receive(w));
            if f.down[w][0].round == |f.workers[w].accepted| then FifoAdvanced(f, w, f')
            else f'.workers == f.workers && f'.down == f.down[w := f.down[w][1..]]
  {
    CanStepAt(cfg, f, s, m);
    TruncatedIdIsExact(cfg, f, s, m, w);
    var acts;
    acts, s' := SimulateReceive(cfg, f, s, m, w);
  }

  /** Worker v alone advanced, by one round. */
  ghost predicate FifoAdvanced(f: FifoSystem, v: nat, f': FifoSystem) {
    && v < |f.workers| == |f'.workers|
    && |f'.workers[v].accepted| == |f.workers[v].accepted| + 1
    && forall w :: 0 <= w < |f.workers| && w != v ==> f'.workers[w] == f.workers[w]
  }

  // ---------- A worker that awaits a complete round ----------

  /** The worker polls until it has the reply it awaits. */
  lemma {:induction false} Fetch(cfg: Config, f: FifoSystem, s: System, m: nat, v: nat)
    returns (acts: seq<FifoAction>, f': FifoSystem, s': System)
    requires cfg.Valid() && At(cfg, f, s, m) && v < cfg.n && Unfinished(cfg, f.workers[v])
    requires v < |f.down| && HasReply(f.down[v], |f.workers[v].accepted|)
    ensures FifoLeads(cfg, f, acts, f') && At(cfg, f', s', m) && FifoAdvanced(f, v, f')
    decreases if v < |f.down| then |f.down[v]| else 0
  {
    var s1 := ReceiveStep(cfg, f, s, m, v);
    var f1 := FifoNext(cfg, f, Receive(v));
    if f.down[v][0].round == |f.workers[v].accepted| {
      acts, f', s' := [Receive(v)] + [], f1, s1;
      FifoThrough(cfg, f, Receive(v), [], f1);
    } else {
      RestHasReply(f.down[v], |f.workers[v].accepted|);
      var rest;
      rest, f', s' := Fetch(cfg, f1, s1, m, v);
      acts := [Receive(v)] + rest;
      FifoThrough(cfg, f, Receive(v), rest, f');
    }
  }

  lemma RestHasReply(queue: seq<Reply>, r: nat)
    requires HasReply(queue, r) && queue[0].round != r
    ensures HasReply(queue[1..], r)
  {
    var i :| 0 <= i < |queue| && queue[i].round == r;
    assert queue[1..][i - 1] == queue[i];
  }

  /** Everything in the channel of a worker that awaits a complete round is a copy of its message. */
  lemma OnlyCopies(cfg: Config, s: System, m: nat, v: nat)
    requires cfg.Valid() && InvAt(cfg, s, m) && v < cfg.n && |s.workers[v].accepted| + 1 == m && |s.up[v]| > 0
    ensures s.up[v][0].round + 1 == m
  {
    assert UpInv(cfg, s.slot, m, v, s.workers[v], s.up[v]);
  }

  /** It sends again, is answered from the stored sum, and gets the result. */
  lemma FifoServe(cfg: Config, f: FifoSystem, s: System, m: nat, v: nat)
    returns (acts: seq<FifoAction>, f': FifoSystem, s': System)
    requires cfg.Valid() && At(cfg, f, s, m) && AwaitsLast(cfg, f.workers, m, v)
    ensures FifoLeads(cfg, f, acts, f') && At(cfg, f', s', m) && FifoAdvanced(f, v, f')
  {
    var s1 := ResendStep(cfg, f, s, m, v);
    var f1 := FifoNext(cfg, f, Resend(v));
    OnlyCopies(cfg, s1, m, v);
    var s2 := PassAgain(cfg, f1, s1, m, v);
    var f2 := FifoNext(cfg, f1, Pass(v));
    var rest;
    rest, f', s' := Fetch(cfg, f2, s2, m, v);
    FifoThrough(cfg, f1, Pass(v), rest, f');
    FifoThrough(cfg, f, Resend(v), [Pass(v)] + rest, f');
    acts := [Resend(v)] + ([Pass(v)] + rest);
  }

  // ---------- An incomplete round ----------

  /** What the passes of all packets in w's channel achieve. */
  ghost predicate PassedAll(n: nat, f: FifoSystem, m: nat, w: nat, f': FifoSystem, m': nat)
    requires w < |f.up|
  {
    && f'.workers == f.workers && Grew(n, f.slot, m, f'.slot, m')
    && forall i :: 0 <= i < |f.up[w]| ==> Contributed(f'.slot, m', w, f.up[w][i].round)
  }

  lemma PassedMore(n: nat, f: FifoSystem, m: nat, w: nat, f1: FifoSystem, m1: nat, f': FifoSystem, m': nat)
    requires w < n && w < |f.up| && |f.up[w]| > 0 && f1.workers == f.workers && f1.up == f.up[w := f.up[w][1..]]
    requires Grew(n, f.slot, m, f1.slot, m1) && Contributed(f1.slot, m1, w, f.up[w][0].round)
    requires PassedAll(n, f1, m1, w, f', m')
    ensures PassedAll(n, f, m, w, f', m')
  {
    forall i | 0 <= i < |f.up[w]|
      ensures Contributed(f'.slot, m', w, f.up[w][i].round)
    {
      if i > 0 {
        assert f1.up[w][i - 1] == f.up[w][i];
      }
    }
  }

  lemma {:induction false} PassAll(cfg: Config, f: FifoSystem, s: System, m: nat, w: nat)
    returns (acts: seq<FifoAction>, f': FifoSystem, s': System, m': nat)
    requires cfg.Valid() && At(cfg, f, s, m) && w < cfg.n && w < |f.up|
    ensures FifoLeads(cfg, f, acts, f') && At(cfg, f', s', m') && PassedAll(cfg.n, f, m, w, f', m')
    decreases |f.up[w]|
  {
    if |f.up[w]| == 0 {
      acts, f', s', m' := [], f, s, m;
    } else {
      var s1, m1 := PassStep(cfg, f, s, m, w);
      var f1 := FifoNext(cfg, f, Pass(w));
      var rest;
      rest, f', s', m' := PassAll(cfg, f1, s1, m1, w);
      acts := [Pass(w)] + rest;
      FifoThrough(cfg, f, Pass(w), rest, f');
      PassedMore(cfg.n, f, m, w, f1, m1, f', m');
    }
  }

  /** A worker's outstanding message gets to the switch. */
  lemma FifoBringIn(cfg: Config, f: FifoSystem, s: System, m: nat, w: nat)
    returns (acts: seq<FifoAction>, f': FifoSystem, s': System, m': nat)
    requires cfg.Valid() && At(cfg, f, s, m) && w < cfg.n && w < |f.workers| && Unfinished(cfg, f.workers[w])
    ensures FifoLeads(cfg, f, acts, f') && At(cfg, f', s', m') && f'.workers == f.workers
    ensures Grew(cfg.n, f.slot, m, f'.slot, m') && Contributed(f'.slot, m', w, |f.workers[w].accepted|)
  {
    var s1 := ResendStep(cfg, f, s, m, w);
    var f1 := FifoNext(cfg, f, Resend(w));
    var rest;
    rest, f', s', m' := PassAll(cfg, f1, s1, m, w);
    acts := [Resend(w)] + rest;
    FifoThrough(cfg, f, Resend(w), rest, f');
  }

  /** One more worker is in, or the round is complete. */
  lemma MoreIn(cfg: Config, s: System, m: nat, s': System, m': nat, v: nat)
    requires cfg.Valid() && InvAt(cfg, s, m) && InvAt(cfg, s', m') && AllAwait(cfg, s.workers, m)
    requires s'.workers == s.workers && Grew(cfg.n, s.slot, m, s'.slot, m') && Contributed(s'.slot, m', v, m)
    requires v < cfg.n && v !in s.slot.Get(Odd(m)).bitmap
    ensures m' == m + 1 || (m' == m && |s.slot.Get(Odd(m)).bitmap| < |s'.slot.Get(Odd(m)).bitmap| <= cfg.n)
  {
    assert WorkerInv(cfg, s'.slot, m', v, s'.workers[v]);
    if m' == m {
      var c, c' := s.slot.Get(Odd(m)).bitmap, s'.slot.Get(Odd(m)).bitmap;
      forall u | u in c
        ensures u in c'
      {
        assert u in cfg.Everyone() && Contributed(s.slot, m, u, m);
      }
      SubsetSize(c, c');
      SubsetSize(c', cfg.Everyone());
    }
  }

  lemma FifoFillOne(cfg: Config, f: FifoSystem, s: System, m: nat)
    returns (acts: seq<FifoAction>, f': FifoSystem, s': System, m': nat)
    requires cfg.Valid() && At(cfg, f, s, m) && m < cfg.Rounds() && AllAwait(cfg, f.workers, m)
    ensures FifoLeads(cfg, f, acts, f') && At(cfg, f', s', m') && f'.workers == f.workers
    ensures m' == m + 1 || (m' == m && |s.slot.Get(Odd(m)).bitmap| < |s'.slot.Get(Odd(m)).bitmap| <= cfg.n)
  {
    var v := Missing(cfg, s.slot.Get(Odd(m)).bitmap);
    UnfinishedAwaits(cfg, s, m, v);
    acts, f', s', m' := FifoBringIn(cfg, f, s, m, v);
    MoreIn(cfg, s, m, s', m', v);
  }

  /** When every worker awaits the round in progress, those still missing bring their messages in until
      the round is complete. */
  lemma {:induction false} FifoFill(cfg: Config, f: FifoSystem, s: System, m: nat)
    returns (acts: seq<FifoAction>, f': FifoSystem, s': System, m': nat)
    requires cfg.Valid() && At(cfg, f, s, m) && m < cfg.Rounds() && AllAwait(cfg, f.workers, m)
    ensures m' == m + 1 && FifoLeads(cfg, f, acts, f') && At(cfg, f', s', m') && f'.workers == f.workers
    decreases cfg.n - |s.slot.Get(Odd(m)).bitmap|
  {
    var a1, f1, s1, m1 := FifoFillOne(cfg, f, s, m);
    if m1 == m + 1 {
      acts, f', s', m' := a1, f1, s1, m1;
    } else {
      var a2;
      a2, f', s', m' := FifoFill(cfg, f1, s1, m1);
      FifoTrans(cfg, f, a1, f1, a2, f');
      acts := a1 + a2;
    }
  }

  // ---------- To the end ----------

  lemma FifoFillAndServe(cfg: Config, f: FifoSystem, s: System, m: nat, u: nat)
    returns (acts: seq<FifoAction>, f': FifoSystem, s': System, m': nat)
    requires cfg.Valid() && At(cfg, f, s, m) && AllAwait(cfg, f.workers, m) && m < cfg.Rounds()
    requires AwaitsLast(cfg, f.workers, m + 1, u)
    ensures FifoLeads(cfg, f, acts, f') && At(cfg, f', s', m') && FifoAdvanced(f, u, f')
  {
    var a1, f1, s1, m1 := FifoFill(cfg, f, s, m);
    m' := m1;
    var a2;
    a2, f', s' := FifoServe(cfg, f1, s1, m1, u);
    FifoTrans(cfg, f, a1, f1, a2, f');
    acts := a1 + a2;
  }

  lemma FifoAdvanceOne(cfg: Config, f: FifoSystem, s: System, m: nat, u: nat)
    returns (acts: seq<FifoAction>, f': FifoSystem, s': System, m': nat, v: nat)
    requires cfg.Valid() && At(cfg, f, s, m) && u < cfg.n && u < |f.workers| && Unfinished(cfg, f.workers[u])
    ensures FifoLeads(cfg, f, acts, f') && At(cfg, f', s', m') && FifoAdvanced(f, v, f') && v < cfg.n
  {
    v := WhoAwaits(cfg, s, m, u);
    if AwaitsLast(cfg, f.workers, m, v) {
      m' := m;
      acts, f', s' := FifoServe(cfg, f, s, m, v);
    } else {
      acts, f', s', m' := FifoFillAndServe(cfg, f, s, m, u);
    }
  }

  lemma ShrinksLikewise(cfg: Config, f: FifoSystem, s: System, m: nat, v: nat, f': FifoSystem, s': System, m': nat)
    requires cfg.Valid() && At(cfg, f, s, m) && At(cfg, f', s', m') && FifoAdvanced(f, v, f') && v < cfg.n
    ensures 0 <= Remaining(cfg, s'.workers, cfg.n) < Remaining(cfg, s.workers, cfg.n)
  {
    RemainingShrinks(cfg, s, v, s', cfg.n);
    RemainingIsNat(cfg, s', m', cfg.n);
  }

  lemma {:induction false} FifoFinish(cfg: Config, f: FifoSystem, s: System, m: nat)
    returns (acts: seq<FifoAction>, f': FifoSystem, s': System, m': nat)
    requires cfg.Valid() && At(cfg, f, s, m)
    ensures FifoLeads(cfg, f, acts, f') && At(cfg, f', s', m') && AllFinished(cfg, s')
    decreases Remaining(cfg, s.workers, cfg.n)
  {
    if u :| 0 <= u < cfg.n && Unfinished(cfg, s.workers[u]) {
      var a1, f1, s1, m1, v := FifoAdvanceOne(cfg, f, s, m, u);
      ShrinksLikewise(cfg, f, s, m, v, f1, s1, m1);
      var a2;
      a2, f', s', m' := FifoFinish(cfg, f1, s1, m1);
      FifoTrans(cfg, f, a1, f1, a2, f');
      acts := a1 + a2;
    } else {
      acts, f', s', m' := [], f, s, m;
    }
  }

  ghost predicate FifoHasAllResults(cfg: Config, f: FifoSystem)
    requires cfg.Valid()
  {
    && |f.workers| == cfg.n
    && forall w :: 0 <= w < cfg.n ==>
         && |f.workers[w].accepted| == cfg.Rounds()
         && forall r :: 0 <= r < cfg.Rounds() ==> f.workers[w].accepted[r] == cfg.Result(r)
  }

  lemma FinishedHasAll(cfg: Config, f: FifoSystem, s: System, m: nat)
    requires cfg.Valid() && At(cfg, f, s, m) && AllFinished(cfg, s)
    ensures FifoHasAllResults(cfg, f)
  {
    forall w | 0 <= w < cfg.n
      ensures |s.workers[w].accepted| == cfg.Rounds()
      ensures forall r :: 0 <= r < cfg.Rounds() ==> s.workers[w].accepted[r] == cfg.Result(r)
    {
      UnfinishedAwaits(cfg, s, m, w);
      assert WorkerInv(cfg, s.slot, m, w, s.workers[w]);
    }
  }

  /** From every state that a run on the wire reaches, some loss-free continuation ends with every worker
      holding the result of every round, for slices of any length. */
  lemma FifoNoStuckState(cfg: Config, past: seq<FifoAction>)
    requires cfg.Valid() && cfg.batch % 0x1_0000 != 0 && FifoRunnable(cfg, FifoInit(cfg), past)
    ensures var f := FifoRun(cfg, FifoInit(cfg), past);
            exists acts ::
              NothingLost(acts) && FifoRunnable(cfg, f, acts) && FifoHasAllResults(cfg, FifoRun(cfg, f, acts))
  {
    InitInv(cfg);
    var s, m := SimulateRun(cfg, FifoInit(cfg), Init(cfg), 0, past);
    var f := FifoRun(cfg, FifoInit(cfg), past);
    var acts, f', s', m' := FifoFinish(cfg, f, s, m);
    FifoLeadsIsRun(cfg, f, acts, f');
    FinishedHasAll(cfg, f', s', m');
  }
}
