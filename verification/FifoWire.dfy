/** The protocol on the wire when replies to a worker keep their order and the switch runs the two
    passes of a packet without another packet in between. Then 16 bits of the message id are enough
    for job slices of any length. */
module FifoWire {
  import opened Slots
  import opened Protocol
  import opened Runs

  /** Like Protocol.System, but nothing is ever waiting for its HARVEST7 pass, and the replies to a
      worker form a queue. */
  datatype FifoSystem = FifoSystem(slot: Slot, workers: seq<Worker>, up: seq<seq<Packet>>, down: seq<seq<Reply>>)

  datatype FifoAction =
    | Resend(w: nat)
    | LoseUp(w: nat, i: nat)
    | LoseDown(w: nat, i: nat)
    | Pass(w: nat)    // CONSUME0 and, if the packet is recirculated, HARVEST7
    | Receive(w: nat) // the worker polls the oldest reply, and accepts or discards it

  ghost predicate FifoShaped(cfg: Config, f: FifoSystem) {
    |f.workers| == |f.up| == |f.down| == cfg.n
  }

  /** The comparison in the worker loop. */
  function IsExpected(wk: Worker, d: Reply): bool {
    d.shortId == wk.msgId % 0x1_0000
  }

  ghost predicate FifoCanStep(cfg: Config, f: FifoSystem, a: FifoAction)
    requires cfg.Valid()
  {
    && FifoShaped(cfg, f)
    && (forall w :: 0 <= w < cfg.n ==> f.workers[w].msgId == cfg.MsgId(|f.workers[w].accepted|))
    && match a
       case Resend(w) => w < cfg.n && Unfinished(cfg, f.workers[w]) && |f.workers[w].accepted| < cfg.Rounds()
       case LoseUp(w, i) => w < cfg.n && i < |f.up[w]|
       case LoseDown(w, i) => w < cfg.n && i < |f.down[w]|
       case Pass(w) => w < cfg.n && |f.up[w]| > 0
       case Receive(w) => w < cfg.n && |f.down[w]| > 0 && Unfinished(cfg, f.workers[w])
  }

  /** Where the reply of a packet that went through both passes is queued. */
  function Deliveries(down: seq<seq<Reply>>, h: Recirculated, d: Reply): seq<seq<Reply>>
    requires h.worker < |down|
  {
    match AfterHarvest(h.meta.flag, h.meta.seen)
    case Broadcast => seq(|down|, v requires 0 <= v < |down| => down[v] + [d])
    case Retransmit => down[h.worker := down[h.worker] + [d]]
    case _ => down
  }

  function AfterPass(cfg: Config, f: FifoSystem, w: nat): FifoSystem
    requires cfg.n > 0 && w < |f.up| == |f.down| && |f.up[w]| > 0
  {
    var p := f.up[w][0];
    var (slot', meta) := Consume(f.slot, cfg.n, w, p.setBit, p.data);
    var f' := f.(slot := slot', up := f.up[w := f.up[w][1..]]);
    if AfterConsume(meta.flag, meta.seen) != Recirculate then f'
    else
      var h := Recirculated(w, p.setBit, p.shortId, meta, p.round);
      f'.(down := Deliveries(f.down, h, ReplyOf(slot', h)))
  }

  ghost function AfterReceive(cfg: Config, f: FifoSystem, w: nat): FifoSystem
    requires cfg.Valid() && FifoCanStep(cfg, f, Receive(w))
  {
    var wk, d := f.workers[w], f.down[w][0];
    var down' := f.down[w := f.down[w][1..]];
    if !IsExpected(wk, d) then f.(down := down')
    else
      NextIdFollows(cfg, wk, d.data);
      var wk' := NextMessage(cfg, wk, d.data);
      f.(workers := f.workers[w := wk'], down := down',
         up := if Unfinished(cfg, wk') then f.up[w := f.up[w] + [Send(cfg, w, wk')]] else f.up)
  }

  ghost function FifoNext(cfg: Config, f: FifoSystem, a: FifoAction): FifoSystem
    requires cfg.Valid() && FifoCanStep(cfg, f, a)
  {
    match a
    case Resend(w) => f.(up := f.up[w := f.up[w] + [Send(cfg, w, f.workers[w])]])
    case LoseUp(w, i) => f.(up := f.up[w := Remove(f.up[w], i)])
    case LoseDown(w, i) => f.(down := f.down[w := Remove(f.down[w], i)])
    case Pass(w) => AfterPass(cfg, f, w)
    case Receive(w) => AfterReceive(cfg, f, w)
  }

  ghost predicate FifoRunnable(cfg: Config, f: FifoSystem, acts: seq<FifoAction>)
    requires cfg.Valid()
    decreases |acts|
  {
    acts == [] || (FifoCanStep(cfg, f, acts[0]) && FifoRunnable(cfg, FifoNext(cfg, f, acts[0]), acts[1..]))
  }

  ghost function FifoRun(cfg: Config, f: FifoSystem, acts: seq<FifoAction>): FifoSystem
    requires cfg.Valid() && FifoRunnable(cfg, f, acts)
    decreases |acts|
  {
    if acts == [] then f else FifoRun(cfg, FifoNext(cfg, f, acts[0]), acts[1..])
  }

  ghost function FifoInit(cfg: Config): FifoSystem
    requires cfg.Valid()
  {
    var s := Init(cfg);
    FifoSystem(s.slot, s.workers, s.up, seq(cfg.n, w => []))
  }

  // ---------- Refinement of the exact protocol ----------

  /** The queue of a worker that awaits round a holds copies of round a - 1, then copies of round a. */
  ghost predicate Lined(wk: Worker, down: seq<Reply>) {
    && (forall i :: 0 <= i < |down| ==> down[i].round == |wk.accepted| || down[i].round + 1 == |wk.accepted|)
    && (forall i, j :: 0 <= i < j < |down| ==> down[i].round <= down[j].round)
  }

  ghost predicate QueueOf(wk: Worker, queue: seq<Reply>, replies: set<Reply>) {
    Lined(wk, queue) && forall i :: 0 <= i < |queue| ==> queue[i] in replies
  }

  ghost predicate QueuesOf(cfg: Config, down: seq<seq<Reply>>, s: System)
    requires Shaped(cfg, s)
  {
    |down| == cfg.n && forall w :: 0 <= w < cfg.n ==> QueueOf(s.workers[w], down[w], s.down[w])
  }

  ghost predicate Represents(cfg: Config, f: FifoSystem, s: System)
    requires cfg.Valid()
  {
    && Shaped(cfg, s) && s.slot == f.slot && s.workers == f.workers && s.up == f.up && s.recirc == []
    && QueuesOf(cfg, f.down, s)
  }

  /** What is added to a queue is not older than what is in it. */
  lemma QueueAppend(cfg: Config, s: System, m: nat, w: nat, queue: seq<Reply>, d: Reply)
    requires cfg.Valid() && InvAt(cfg, s, m) && w < cfg.n && d.round + 1 == m
    requires QueueOf(s.workers[w], queue, s.down[w])
    ensures QueueOf(s.workers[w], queue + [d], s.down[w] + {d})
  {
    assert WorkerInv(cfg, s.slot, m, w, s.workers[w]);
    forall i | 0 <= i < |queue|
      ensures queue[i].round <= d.round
    {
      assert ReplyInv(cfg, m, s.workers[w], queue[i]);
    }
  }

  /** Rounds differ by one, so short ids differ. */
  lemma NeighboursDiffer(cfg: Config, q: nat)
    requires cfg.batch % 0x1_0000 != 0
    ensures cfg.ShortId(q) != cfg.ShortId(q + 1)
  {
    assert cfg.MsgId(q + 1) == cfg.MsgId(q) + cfg.batch by {
      assert (q + 1) * cfg.batch == q * cfg.batch + cfg.batch;
    }
  }

  /** Comparing 16 bits accepts exactly the awaited message, although ids have 64 bits. */
  lemma TruncatedIdIsExact(cfg: Config, f: FifoSystem, s: System, m: nat, w: nat)
    requires cfg.Valid() && InvAt(cfg, s, m) && Represents(cfg, f, s) && cfg.batch % 0x1_0000 != 0
    requires FifoCanStep(cfg, f, Receive(w))
    ensures IsExpected(f.workers[w], f.down[w][0]) <==> f.down[w][0].round == |f.workers[w].accepted|
  {
    var d := f.down[w][0];
    assert QueueOf(s.workers[w], f.down[w], s.down[w]);
    assert ReplyInv(cfg, m, s.workers[w], d);
    NeighboursDiffer(cfg, d.round);
  }

  /** A packet that will get a reply belongs to the last complete round. */
  lemma ReplyIsLatest(cfg: Config, s: System, m: nat, w: nat)
    requires cfg.Valid() && InvAt(cfg, s, m) && Enabled(cfg, s, Deliver(w))
    ensures var p := s.up[w][0];
            var meta := Consume(s.slot, cfg.n, w, p.setBit, p.data).1;
            AfterConsume(meta.flag, meta.seen) == Recirculate && AfterHarvest(meta.flag, meta.seen) != Drop
            ==> p.round + 1 == RoundsAfterStep(cfg, s, m, Deliver(w))
  {
    var p := s.up[w][0];
    HeadIsFreshOrSeen(cfg, s, m, w);
    if DeliversFresh(s, m, w) {
      ConsumeFresh(cfg, s.slot, m, w);
    } else {
      ConsumeSeen(cfg, s.slot, m, w, p.round, p.data);
    }
  }

  lemma OneStep(cfg: Config, s: System, m: nat, a: Action)
    requires cfg.Valid() && InvAt(cfg, s, m) && Enabled(cfg, s, a)
    ensures CanStep(cfg, s, a) && Runnable(cfg, s, [a])
    ensures Run(cfg, s, [a]) == Next(cfg, s, a)
    ensures RoundsAfterRun(cfg, s, m, [a]) == RoundsAfterStep(cfg, s, m, a)
    ensures InvAt(cfg, Next(cfg, s, a), RoundsAfterStep(cfg, s, m, a))
  {
    EnabledCanStep(cfg, s, m, a);
    StepKeepsInv(cfg, s, m, a);
    assert [a][1..] == [];
    assert Runnable(cfg, Next(cfg, s, a), []);
  }

  lemma TwoSteps(cfg: Config, s: System, m: nat, a: Action, b: Action)
    requires cfg.Valid() && CanStep(cfg, s, a) && Runnable(cfg, Next(cfg, s, a), [b])
    ensures Runnable(cfg, s, [a, b])
    ensures Run(cfg, s, [a, b]) == Run(cfg, Next(cfg, s, a), [b])
    ensures RoundsAfterRun(cfg, s, m, [a, b])
         == RoundsAfterRun(cfg, Next(cfg, s, a), RoundsAfterStep(cfg, s, m, a), [b])
  {
    assert [a, b][1..] == [b];
  }

  /** The queues after a HARVEST7 pass hold what the sets hold. */
  lemma DeliveriesRepresented(cfg: Config, s: System, m: nat, down: seq<seq<Reply>>, h: Recirculated)
    requires cfg.Valid() && InvAt(cfg, s, m) && s.recirc == [h] && h.worker < cfg.n && QueuesOf(cfg, down, s)
    requires AfterHarvest(h.meta.flag, h.meta.seen) != Drop ==> h.round + 1 == m
    ensures Shaped(cfg, AfterHarvesting(cfg, s, 0))
    ensures QueuesOf(cfg, Deliveries(down, h, ReplyOf(s.slot, h)), AfterHarvesting(cfg, s, 0))
  {
    var d := ReplyOf(s.slot, h);
    forall w | 0 <= w < cfg.n
      ensures QueueOf(s.workers[w], Deliveries(down, h, d)[w], AfterHarvesting(cfg, s, 0).down[w])
    {
      assert QueueOf(s.workers[w], down[w], s.down[w]);
      if AfterHarvest(h.meta.flag, h.meta.seen) != Drop {
        QueueAppend(cfg, s, m, w, down[w], d);
      }
    }
  }

  /** The packet at the head of w's channel as it would be recirculated. */
  function Head(cfg: Config, slot: Slot, up: seq<seq<Packet>>, w: nat): Recirculated
    requires cfg.n > 0 && w < |up| && |up[w]| > 0
  {
    var p := up[w][0];
    Recirculated(w, p.setBit, p.shortId, Consume(slot, cfg.n, w, p.setBit, p.data).1, p.round)
  }

  /** The two steps of a recirculated packet in the exact protocol. */
  lemma TwoPasses(cfg: Config, s: System, m: nat, w: nat) returns (s1: System, m': nat)
    requires cfg.Valid() && InvAt(cfg, s, m) && CanStep(cfg, s, Deliver(w)) && s.recirc == []
    requires var h := Head(cfg, s.slot, s.up, w); AfterConsume(h.meta.flag, h.meta.seen) == Recirculate
    ensures s1 == AfterDelivery(cfg, s, w) && s1.recirc == [Head(cfg, s.slot, s.up, w)]
    ensures InvAt(cfg, s1, m') && m' == RoundsAfterStep(cfg, s, m, Deliver(w))
    ensures Runnable(cfg, s, [Deliver(w), Harvest(0)])
    ensures Run(cfg, s, [Deliver(w), Harvest(0)]) == AfterHarvesting(cfg, s1, 0)
    ensures RoundsAfterRun(cfg, s, m, [Deliver(w), Harvest(0)]) == m' && InvAt(cfg, AfterHarvesting(cfg, s1, 0), m')
  {
    OneStep(cfg, s, m, Deliver(w));
    s1, m' := AfterDelivery(cfg, s, w), RoundsAfterStep(cfg, s, m, Deliver(w));
    assert s1.recirc == [Head(cfg, s.slot, s.up, w)];
    OneStep(cfg, s1, m', Harvest(0));
    TwoSteps(cfg, s, m, Deliver(w), Harvest(0));
  }

  /** The second pass of a recirculated packet. */
  lemma SimulateHarvest(cfg: Config, f: FifoSystem, s: System, m: nat, w: nat)
    returns (acts: seq<Action>, s': System, m': nat)
    requires cfg.Valid() && InvAt(cfg, s, m) && Represents(cfg, f, s) && FifoCanStep(cfg, f, Pass(w))
    requires var h := Head(cfg, f.slot, f.up, w); AfterConsume(h.meta.flag, h.meta.seen) == Recirculate
    ensures Runnable(cfg, s, acts) && Run(cfg, s, acts) == s' && RoundsAfterRun(cfg, s, m, acts) == m'
    ensures InvAt(cfg, s', m') && Represents(cfg, AfterPass(cfg, f, w), s')
    ensures Enabled(cfg, s, Deliver(w)) && m' == RoundsAfterStep(cfg, s, m, Deliver(w))
  {
    EnabledCanStep(cfg, s, m, Deliver(w));
    var s1;
    s1, m' := TwoPasses(cfg, s, m, w);
    acts, s' := [Deliver(w), Harvest(0)], AfterHarvesting(cfg, s1, 0);
    DeliveryShape(cfg, s, w);
    ReplyIsLatest(cfg, s, m, w);
    DeliveriesRepresented(cfg, s1, m', f.down, Head(cfg, s.slot, s.up, w));
    assert s'.recirc == [];
  }

  /** The two passes of a packet are a Deliver and, if it is recirculated, a Harvest. */
  lemma SimulatePass(cfg: Config, f: FifoSystem, s: System, m: nat, w: nat)
    returns (acts: seq<Action>, s': System, m': nat)
    requires cfg.Valid() && InvAt(cfg, s, m) && Represents(cfg, f, s) && FifoCanStep(cfg, f, Pass(w))
    ensures Runnable(cfg, s, acts) && Run(cfg, s, acts) == s' && RoundsAfterRun(cfg, s, m, acts) == m'
    ensures InvAt(cfg, s', m') && Represents(cfg, AfterPass(cfg, f, w), s')
    ensures Enabled(cfg, s, Deliver(w)) && m' == RoundsAfterStep(cfg, s, m, Deliver(w))
  {
    var h := Head(cfg, f.slot, f.up, w);
    if AfterConsume(h.meta.flag, h.meta.seen) == Recirculate {
      acts, s', m' := SimulateHarvest(cfg, f, s, m, w);
    } else {
      OneStep(cfg, s, m, Deliver(w));
      DeliveryShape(cfg, s, w);
      acts, s', m' := [Deliver(w)], AfterDelivery(cfg, s, w), RoundsAfterStep(cfg, s, m, Deliver(w));
    }
  }

  /** A reply taken from the head of a queue. */
  lemma QueueTail(cfg: Config, s: System, s': System, down: seq<seq<Reply>>, w: nat)
    requires Shaped(cfg, s) && Shaped(cfg, s') && QueuesOf(cfg, down, s) && w < cfg.n && |down[w]| > 0
    requires s'.down == s.down && forall v :: 0 <= v < cfg.n && v != w ==> s'.workers[v] == s.workers[v]
    requires s'.workers[w] == s.workers[w]
             || (|s'.workers[w].accepted| == |s.workers[w].accepted| + 1
                 && down[w][0].round == |s.workers[w].accepted|)
    ensures QueuesOf(cfg, down[w := down[w][1..]], s')
  {
    assert QueueOf(s.workers[w], down[w], s.down[w]);
    assert QueueOf(s'.workers[w], down[w][1..], s'.down[w]);
    forall v | 0 <= v < cfg.n && v != w
      ensures QueueOf(s'.workers[v], down[v], s'.down[v])
    {
      assert QueueOf(s.workers[v], down[v], s.down[v]);
    }
  }

  lemma SimulateReceive(cfg: Config, f: FifoSystem, s: System, m: nat, w: nat)
    returns (acts: seq<Action>, s': System)
    requires cfg.Valid() && InvAt(cfg, s, m) && Represents(cfg, f, s) && cfg.batch % 0x1_0000 != 0
    requires FifoCanStep(cfg, f, Receive(w))
    ensures Runnable(cfg, s, acts) && Run(cfg, s, acts) == s' && RoundsAfterRun(cfg, s, m, acts) == m
    ensures InvAt(cfg, s', m) && Represents(cfg, AfterReceive(cfg, f, w), s')
  {
    TruncatedIdIsExact(cfg, f, s, m, w);
    var d := f.down[w][0];
    assert QueueOf(s.workers[w], f.down[w], s.down[w]);
    if IsExpected(f.workers[w], d) {
      RoundsAreIds(cfg, |f.workers[w].accepted|);
      OneStep(cfg, s, m, Accept(w, d));
      acts, s' := [Accept(w, d)], Next(cfg, s, Accept(w, d));
    } else {
      acts, s' := [], s;
    }
    QueueTail(cfg, s, s', f.down, w);
  }

  lemma SimulateLoss(cfg: Config, s: System, down: seq<seq<Reply>>, w: nat, i: nat)
    requires Shaped(cfg, s) && QueuesOf(cfg, down, s) && w < cfg.n && i < |down[w]|
    ensures QueuesOf(cfg, down[w := Remove(down[w], i)], s)
  {
    assert QueueOf(s.workers[w], down[w], s.down[w]);
    assert QueueOf(s.workers[w], Remove(down[w], i), s.down[w]);
  }

  lemma SimulateStep(cfg: Config, f: FifoSystem, s: System, m: nat, a: FifoAction)
    returns (acts: seq<Action>, s': System, m': nat)
    requires cfg.Valid() && InvAt(cfg, s, m) && Represents(cfg, f, s) && cfg.batch % 0x1_0000 != 0
    requires FifoCanStep(cfg, f, a)
    ensures Runnable(cfg, s, acts) && Run(cfg, s, acts) == s' && RoundsAfterRun(cfg, s, m, acts) == m'
    ensures InvAt(cfg, s', m') && Represents(cfg, FifoNext(cfg, f, a), s')
  {
    match a
    case Resend(w) =>
      OneStep(cfg, s, m, Timeout(w));
      acts, s', m' := [Timeout(w)], Next(cfg, s, Timeout(w)), m;
    case LoseUp(w, i) =>
      OneStep(cfg, s, m, Lose(w, i));
      acts, s', m' := [Lose(w, i)], Next(cfg, s, Lose(w, i)), m;
    case LoseDown(w, i) =>
      SimulateLoss(cfg, s, f.down, w, i);
      acts, s', m' := [], s, m;
    case Pass(w) =>
      acts, s', m' := SimulatePass(cfg, f, s, m, w);
    case Receive(w) =>
      acts, s' := SimulateReceive(cfg, f, s, m, w);
      m' := m;
  }

  lemma {:induction false} SimulateRun(cfg: Config, f: FifoSystem, s: System, m: nat, acts: seq<FifoAction>)
    returns (s': System, m': nat)
    requires cfg.Valid() && InvAt(cfg, s, m) && Represents(cfg, f, s) && cfg.batch % 0x1_0000 != 0
    requires FifoRunnable(cfg, f, acts)
    ensures InvAt(cfg, s', m') && Represents(cfg, FifoRun(cfg, f, acts), s')
    decreases |acts|
  {
    if acts == [] {
      s', m' := s, m;
    } else {
      var _, s1, m1 := SimulateStep(cfg, f, s, m, acts[0]);
      s', m' := SimulateRun(cfg, FifoNext(cfg, f, acts[0]), s1, m1, acts[1..]);
    }
  }

  /** With ordered replies and atomic passes, every result accepted over the wire is the right one, for
      any number of messages, when the batch size is not a multiple of 65536. */
  lemma FifoSafe(cfg: Config, acts: seq<FifoAction>, w: nat, r: nat)
    requires cfg.Valid() && cfg.batch % 0x1_0000 != 0 && FifoRunnable(cfg, FifoInit(cfg), acts)
    requires w < cfg.n && w < |FifoRun(cfg, FifoInit(cfg), acts).workers|
    requires r < |FifoRun(cfg, FifoInit(cfg), acts).workers[w].accepted|
    ensures r < cfg.Rounds() && FifoRun(cfg, FifoInit(cfg), acts).workers[w].accepted[r] == cfg.Result(r)
  {
    InitInv(cfg);
    var s, m := SimulateRun(cfg, FifoInit(cfg), Init(cfg), 0, acts);
    assert WorkerInv(cfg, s.slot, m, w, s.workers[w]);
  }

  /** Whenever a worker that awaits round r polls, its queue holds copies of round r - 1 and then copies of
      round r, and the comparison of 16 bits tells them apart. */
  lemma RepliesToldApart(cfg: Config, acts: seq<FifoAction>, w: nat, f: FifoSystem)
    requires cfg.Valid() && cfg.batch % 0x1_0000 != 0 && FifoRunnable(cfg, FifoInit(cfg), acts)
    requires f == FifoRun(cfg, FifoInit(cfg), acts) && FifoCanStep(cfg, f, Receive(w))
    ensures Lined(f.workers[w], f.down[w])
    ensures IsExpected(f.workers[w], f.down[w][0]) <==> f.down[w][0].round == |f.workers[w].accepted|
  {
    InitInv(cfg);
    var s, m := SimulateRun(cfg, FifoInit(cfg), Init(cfg), 0, acts);
    TruncatedIdIsExact(cfg, f, s, m, w);
    assert QueueOf(s.workers[w], f.down[w], s.down[w]);
  }
}
