/** The slot aggregation protocol as a step relation: n workers that use one queue pair each for
    one slot of the switch, over one job slice of single-packet messages.

    Upstream channels are lossy FIFO sequences. The CONSUME0 and HARVEST7 passes of a packet are
    two separate steps, and recirculated packets may be picked in any order. What the switch has
    sent to a worker stays available: it can be accepted late, more than once, out of order or never. */
module Protocol {
  import opened Basics
  import opened Slots
  import opened Aggregates

  /** n workers; their queue pair is number qpn of the batch queue pairs in use, and carries the
      message ids qpn, qpn + batch, qpn + 2*batch, ... below total. */
  datatype Config = Config(n: nat, qpn: nat, batch: nat, total: nat, work: Work) {

    function MsgId(round: nat): nat {
      qpn + round * batch
    }

    /** The 16 bits of the message id that travel in the immediate field. */
    function ShortId(round: nat): nat {
      MsgId(round) % 0x1_0000
    }

    /** How many messages the queue pair carries. */
    function Rounds(): nat
      requires qpn < batch <= total
    {
      (total - qpn - 1) / batch + 1
    }

    ghost predicate Valid() {
      && 1 <= n <= MAX_WORKERS
      && qpn < batch <= total
      && |work| == n
      && forall w :: 0 <= w < n ==> |work[w]| == Rounds()
    }

    ghost function Everyone(): set<nat> {
      Below(n)
    }

    ghost function Result(round: nat): Payload
      requires Valid() && round < Rounds()
    {
      Total(work, round)
    }
  }

  /** The guard of the worker loop, on message ids, is the guard on rounds. */
  lemma RoundsAreIds(cfg: Config, round: nat)
    requires cfg.qpn < cfg.batch <= cfg.total
    ensures cfg.MsgId(round) < cfg.total <==> round < cfg.Rounds()
  {
    var d := cfg.total - cfg.qpn - 1;
    var q := d / cfg.batch;
    assert d == q * cfg.batch + d % cfg.batch;
    if round <= q {
      assert round * cfg.batch <= q * cfg.batch;
    } else {
      assert round * cfg.batch >= (q + 1) * cfg.batch == q * cfg.batch + cfg.batch;
    }
  }

  /** A worker's state for the queue pair: the 64-bit id of the awaited message, the set bit in the
      rkey of the last fresh send, and the results accepted so far. */
  datatype Worker = Worker(msgId: nat, setBit: bool, accepted: seq<Payload>)

  /** The field `round` of the messages below is history: no step reads it to decide anything, except
      Accept, whose comparison UnorderedWire and FifoWire replace by that of short ids. */
  datatype Packet = Packet(setBit: bool, shortId: nat, data: Payload, round: nat)

  datatype Recirculated = Recirculated(worker: nat, setBit: bool, shortId: nat, meta: Meta, round: nat)

  datatype Reply = Reply(shortId: nat, data: Payload, round: nat)

  datatype System = System(slot: Slot, workers: seq<Worker>, up: seq<seq<Packet>>,
                           recirc: seq<Recirculated>, down: seq<set<Reply>>)

  datatype Action =
    | Timeout(w: nat)          // the worker sends its outstanding message again
    | Lose(w: nat, i: nat)     // packet i of the worker's upstream channel is lost
    | Deliver(w: nat)          // CONSUME0 pass on the oldest packet of the channel
    | Harvest(i: nat)          // HARVEST7 pass on some recirculated packet
    | Accept(w: nat, d: Reply) // the worker takes a reply and sends its next message

  function Odd(k: nat): bool {
    k > 0 && !Odd(k - 1)
  }

  function Remove<T>(s: seq<T>, i: nat): seq<T>
    requires i < |s|
  {
    s[..i] + s[i + 1..]
  }

  /** The packet that carries message number `round` of worker w. */
  ghost function PacketOf(cfg: Config, w: nat, round: nat): Packet
    requires cfg.Valid() && w < cfg.n && round < cfg.Rounds()
  {
    Packet(Odd(round), cfg.ShortId(round), cfg.work[w][round], round)
  }

  function Unfinished(cfg: Config, wk: Worker): bool {
    wk.msgId < cfg.total
  }

  /** What PostSendWr puts on the wire for the worker's current message. */
  function Send(cfg: Config, w: nat, wk: Worker): Packet
    requires w < |cfg.work| && |wk.accepted| < |cfg.work[w]|
  {
    Packet(wk.setBit, wk.msgId % 0x1_0000, cfg.work[w][|wk.accepted|], |wk.accepted|)
  }

  ghost predicate Shaped(cfg: Config, s: System) {
    |s.workers| == |s.up| == |s.down| == cfg.n
  }

  /** The set bit starts as 1 and is flipped by every fresh send, so the first message uses set 0. */
  function FirstWorker(cfg: Config): Worker {
    Worker(cfg.qpn, false, [])
  }

  ghost function Init(cfg: Config): System
    requires cfg.Valid()
  {
    var wk := FirstWorker(cfg);
    System(EMPTY_SLOT,
           seq(cfg.n, w => wk),
           seq(cfg.n, w requires 0 <= w < cfg.n => [Send(cfg, w, wk)]),
           [],
           seq(cfg.n, w => {}))
  }

  ghost predicate Enabled(cfg: Config, s: System, a: Action)
    requires cfg.Valid() && Shaped(cfg, s)
  {
    match a
    case Timeout(w) => w < cfg.n && Unfinished(cfg, s.workers[w]) && |s.workers[w].accepted| < cfg.Rounds()
    case Lose(w, i) => w < cfg.n && i < |s.up[w]|
    case Deliver(w) => w < cfg.n && |s.up[w]| > 0
    case Harvest(i) => i < |s.recirc| && s.recirc[i].worker < cfg.n
    case Accept(w, d) =>
      && w < cfg.n && Unfinished(cfg, s.workers[w]) && |s.workers[w].accepted| < cfg.Rounds()
      && d in s.down[w] && d.round == |s.workers[w].accepted|
  }

  /** Consume's metadata goes to the next-step table; only the Recirculate decision leaves a trace. */
  function AfterDelivery(cfg: Config, s: System, w: nat): System
    requires cfg.n > 0 && w < |s.up| && |s.up[w]| > 0
  {
    var p := s.up[w][0];
    var (slot', meta) := Consume(s.slot, cfg.n, w, p.setBit, p.data);
    var s' := s.(slot := slot', up := s.up[w := s.up[w][1..]]);
    if AfterConsume(meta.flag, meta.seen) == Recirculate
    then s'.(recirc := s.recirc + [Recirculated(w, p.setBit, p.shortId, meta, p.round)])
    else s'
  }

  /** d0 and e1 are read now; d1 and e0 were read when the packet was consumed. */
  function ReplyOf(slot: Slot, h: Recirculated): Reply {
    var (d0, e1) := Harvested(slot, h.setBit);
    Reply(h.shortId, Payload(d0, h.meta.d1, h.meta.e0, e1), h.round)
  }

  function AfterHarvesting(cfg: Config, s: System, i: nat): System
    requires i < |s.recirc| && s.recirc[i].worker < |s.down|
  {
    var h := s.recirc[i];
    var d := ReplyOf(s.slot, h);
    var down' :=
      match AfterHarvest(h.meta.flag, h.meta.seen)
      case Broadcast => seq(|s.down|, v requires 0 <= v < |s.down| => s.down[v] + {d})
      case Retransmit => s.down[h.worker := s.down[h.worker] + {d}]
      case _ => s.down;
    s.(recirc := Remove(s.recirc, i), down := down')
  }

  /** The worker stores the result, adds batch to the message id and, if that id is below total,
      flips the set bit and posts the next message. */
  function NextMessage(cfg: Config, wk: Worker, result: Payload): Worker {
    var msgId' := wk.msgId + cfg.batch;
    Worker(msgId', if msgId' < cfg.total then !wk.setBit else wk.setBit, wk.accepted + [result])
  }

  function AfterAccepting(cfg: Config, s: System, w: nat, d: Reply): System
    requires w < |s.workers| == |s.up| == |cfg.work|
    requires NextMessage(cfg, s.workers[w], d.data).msgId < cfg.total ==> |s.workers[w].accepted| + 1 < |cfg.work[w]|
  {
    var wk := NextMessage(cfg, s.workers[w], d.data);
    s.(workers := s.workers[w := wk],
       up := if Unfinished(cfg, wk) then s.up[w := s.up[w] + [Send(cfg, w, wk)]] else s.up)
  }

  /** The part of a state's consistency that makes Next well defined. */
  ghost predicate IdsFollowRounds(cfg: Config, s: System)
    requires cfg.Valid() && Shaped(cfg, s)
  {
    forall w :: 0 <= w < cfg.n ==> s.workers[w].msgId == cfg.MsgId(|s.workers[w].accepted|)
  }

  lemma NextIdFollows(cfg: Config, wk: Worker, result: Payload)
    requires cfg.Valid() && wk.msgId == cfg.MsgId(|wk.accepted|)
    ensures NextMessage(cfg, wk, result).msgId == cfg.MsgId(|wk.accepted| + 1)
    ensures NextMessage(cfg, wk, result).msgId < cfg.total <==> |wk.accepted| + 1 < cfg.Rounds()
  {
    RoundsAreIds(cfg, |wk.accepted| + 1);
  }

  ghost function Next(cfg: Config, s: System, a: Action): System
    requires cfg.Valid() && Shaped(cfg, s) && IdsFollowRounds(cfg, s) && Enabled(cfg, s, a)
  {
    match a
    case Timeout(w) => s.(up := s.up[w := s.up[w] + [Send(cfg, w, s.workers[w])]])
    case Lose(w, i) => s.(up := s.up[w := Remove(s.up[w], i)])
    case Deliver(w) => AfterDelivery(cfg, s, w)
    case Harvest(i) => AfterHarvesting(cfg, s, i)
    case Accept(w, d) =>
      NextIdFollows(cfg, s.workers[w], d.data);
      AfterAccepting(cfg, s, w, d)
  }

  // ---------- The inductive invariant ----------

  /** m rounds are complete. Set Odd(m) holds the round in progress: its bitmap is the set of workers
      that contributed to round m. The other set holds round m - 1, complete. */
  ghost predicate SetsInv(cfg: Config, current: SetRegisters, previous: SetRegisters, m: nat)
    requires cfg.Valid()
  {
    && m <= cfg.Rounds()
    && current.bitmap < cfg.Everyone()
    && previous.bitmap == (if m == 0 then {} else cfg.Everyone() - current.bitmap)
    && current.count == (if current.bitmap == {} then 0 else cfg.n - |current.bitmap|)
    && previous.count == 0
    && (current.bitmap != {} ==> m < cfg.Rounds() && current.values == Aggregate(cfg.work, m, current.bitmap))
    && (m > 0 ==> previous.values == cfg.Result(m - 1))
  }

  ghost predicate SlotInv(cfg: Config, slot: Slot, m: nat)
    requires cfg.Valid()
  {
    SetsInv(cfg, slot.Get(Odd(m)), slot.Get(!Odd(m)), m)
  }

  ghost predicate WorkerInv(cfg: Config, slot: Slot, m: nat, w: nat, wk: Worker)
    requires cfg.Valid()
  {
    var a := |wk.accepted|;
    && wk.msgId == cfg.MsgId(a)
    && a <= m <= a + 1
    && (w in slot.Get(Odd(m)).bitmap ==> a == m)
    && a <= cfg.Rounds()
    && (a < cfg.Rounds() ==> wk.setBit == Odd(a))
    && forall q :: 0 <= q < a ==> wk.accepted[q] == cfg.Result(q)
  }

  /** Copies of the previous message, then copies of the current one; the former only while the switch
      has nothing of the current one. */
  ghost predicate UpInv(cfg: Config, slot: Slot, m: nat, w: nat, wk: Worker, up: seq<Packet>)
    requires cfg.Valid() && w < cfg.n
  {
    var a := |wk.accepted|;
    && (forall i :: 0 <= i < |up| ==>
          && up[i].round < cfg.Rounds()
          && up[i] == PacketOf(cfg, w, up[i].round)
          && (up[i].round == a
              || (up[i].round + 1 == a == m && w !in slot.Get(Odd(m)).bitmap)))
    && (forall i, j :: 0 <= i < j < |up| ==> up[i].round <= up[j].round)
  }

  ghost predicate RecircInv(cfg: Config, m: nat, h: Recirculated)
    requires cfg.Valid()
  {
    && h.worker < cfg.n
    && h.round <= m
    && h.round < cfg.Rounds()
    && h.setBit == Odd(h.round)
    && h.shortId == cfg.ShortId(h.round)
    && (h.meta.flag == 0 ==> h.meta.seen)
    && (h.meta.flag == 0 || !h.meta.seen ==>
          h.round < m && h.meta.d1 == cfg.Result(h.round).d1 && h.meta.e0 == cfg.Result(h.round).e0)
  }

  /** A reply to a round the worker has left behind may hold anything; one it awaits is right. */
  ghost predicate ReplyInv(cfg: Config, m: nat, wk: Worker, d: Reply)
    requires cfg.Valid()
  {
    && d.round < m <= cfg.Rounds()
    && d.shortId == cfg.ShortId(d.round)
    && (d.round == |wk.accepted| ==> d.data == cfg.Result(d.round))
  }

  ghost predicate InvAt(cfg: Config, s: System, m: nat)
    requires cfg.Valid()
  {
    && Shaped(cfg, s)
    && SlotInv(cfg, s.slot, m)
    && (forall w :: 0 <= w < cfg.n ==> WorkerInv(cfg, s.slot, m, w, s.workers[w]))
    && (forall w :: 0 <= w < cfg.n ==> UpInv(cfg, s.slot, m, w, s.workers[w], s.up[w]))
    && (forall i :: 0 <= i < |s.recirc| ==> RecircInv(cfg, m, s.recirc[i]))
    && (forall w, d :: 0 <= w < cfg.n && d in s.down[w] ==> ReplyInv(cfg, m, s.workers[w], d))
  }

  ghost predicate Inv(cfg: Config, s: System)
    requires cfg.Valid()
  {
    exists m: nat :: InvAt(cfg, s, m)
  }

  lemma InitInv(cfg: Config)
    requires cfg.Valid()
    ensures InvAt(cfg, Init(cfg), 0)
  {
    RoundsAreIds(cfg, 0);
    var s := Init(cfg);
    assert 0 in cfg.Everyone();
    forall w | 0 <= w < cfg.n
      ensures s.up[w] == [PacketOf(cfg, w, 0)]
    {
    }
  }

  lemma TimeoutKeepsInv(cfg: Config, s: System, m: nat, w: nat)
    requires cfg.Valid() && InvAt(cfg, s, m) && Enabled(cfg, s, Timeout(w))
    ensures InvAt(cfg, Next(cfg, s, Timeout(w)), m)
  {
    var wk := s.workers[w];
    var p := Send(cfg, w, wk);
    assert p == PacketOf(cfg, w, |wk.accepted|);
    assert WorkerInv(cfg, s.slot, m, w, wk);
    var up := s.up[w] + [p];
    assert UpInv(cfg, s.slot, m, w, wk, s.up[w]);
    assert UpInv(cfg, s.slot, m, w, wk, up);
  }

  lemma LoseKeepsInv(cfg: Config, s: System, m: nat, w: nat, i: nat)
    requires cfg.Valid() && InvAt(cfg, s, m) && Enabled(cfg, s, Lose(w, i))
    ensures InvAt(cfg, Next(cfg, s, Lose(w, i)), m)
  {
    var wk := s.workers[w];
    assert UpInv(cfg, s.slot, m, w, wk, s.up[w]);
    assert UpInv(cfg, s.slot, m, w, wk, Remove(s.up[w], i));
  }

  // ---------- Deliver ----------

  ghost function RoundsAfter(cfg: Config, slot: Slot, m: nat, w: nat): nat
    requires cfg.Valid()
  {
    if slot.Get(Odd(m)).bitmap + {w} == cfg.Everyone() then m + 1 else m
  }

  lemma Complement(all: set<nat>, c: set<nat>, w: nat)
    requires c <= all && w in all
    ensures (all - c) - {w} == all - (c + {w})
    ensures all - {} == all && all - all == {}
  {
  }

  /** First contribution of a worker to the round in progress: the registers of the round's set. */
  lemma ConsumeFreshMine(cfg: Config, mine: SetRegisters, previous: SetRegisters, m: nat, w: nat)
    requires cfg.Valid() && SetsInv(cfg, mine, previous, m) && w < cfg.n && m < cfg.Rounds()
    requires w !in mine.bitmap
    ensures var (mine', meta) := ConsumeMine(mine, cfg.n, w, cfg.work[w][m]);
            && mine'.bitmap == mine.bitmap + {w} <= cfg.Everyone()
            && |mine'.bitmap| <= cfg.n
            && mine'.count == cfg.n - |mine'.bitmap|
            && mine'.values == Aggregate(cfg.work, m, mine'.bitmap)
            && !meta.seen && meta.d1 == mine'.values.d1 && meta.e0 == mine'.values.e0
            && (meta.flag == 1 <==> mine'.bitmap == cfg.Everyone())
  {
    var c := mine.bitmap;
    if c == {} {
      AggregateSingle(cfg.work, m, w);
      assert c + {w} == {w};
    } else {
      AggregateInsert(cfg.work, m, c, w);
    }
    assert |c + {w}| == |c| + 1;
    if |c| + 1 >= cfg.n {
      SubsetSize(c + {w}, cfg.Everyone());
    }
  }

  /** Both sets after it: the round's set goes on, or becomes the complete one. */
  lemma FreshSets(cfg: Config, mine: SetRegisters, previous: SetRegisters, m: nat, w: nat,
                  mine': SetRegisters, other': SetRegisters)
    requires cfg.Valid() && SetsInv(cfg, mine, previous, m) && w < cfg.n && m < cfg.Rounds()
    requires w !in mine.bitmap && other' == ConsumeOther(previous, w)
    requires mine' == ConsumeMine(mine, cfg.n, w, cfg.work[w][m]).0
    ensures if mine'.bitmap == cfg.Everyone() then SetsInv(cfg, other', mine', m + 1)
            else SetsInv(cfg, mine', other', m)
  {
    ConsumeFreshMine(cfg, mine, previous, m, w);
    Complement(cfg.Everyone(), mine.bitmap, w);
    if mine'.bitmap == cfg.Everyone() {
      assert other'.bitmap == {};
    }
  }

  /** First contribution of a worker to the round in progress. Its packet carries the LAST flag
      exactly when it completes the round. */
  lemma ConsumeFresh(cfg: Config, slot: Slot, m: nat, w: nat)
    requires cfg.Valid() && SlotInv(cfg, slot, m) && w < cfg.n && m < cfg.Rounds()
    requires w !in slot.Get(Odd(m)).bitmap
    ensures var (slot', meta) := Consume(slot, cfg.n, w, Odd(m), cfg.work[w][m]);
            var m' := RoundsAfter(cfg, slot, m, w);
            && SlotInv(cfg, slot', m')
            && slot'.Get(Odd(m)).bitmap == slot.Get(Odd(m)).bitmap + {w}
            && !meta.seen
            && (meta.flag == 1 <==> m' == m + 1)
            && (m' == m + 1 ==> meta.d1 == cfg.Result(m).d1 && meta.e0 == cfg.Result(m).e0)
  {
    var mine, other := slot.Get(Odd(m)), slot.Get(!Odd(m));
    var slot' := Consume(slot, cfg.n, w, Odd(m), cfg.work[w][m]).0;
    var mine' := ConsumeMine(mine, cfg.n, w, cfg.work[w][m]).0;
    var other' := ConsumeOther(other, w);
    assert slot'.Get(Odd(m)) == mine' && slot'.Get(!Odd(m)) == other';
    ConsumeFreshMine(cfg, mine, other, m, w);
    FreshSets(cfg, mine, other, m, w, mine', other');
    assert Odd(m + 1) == !Odd(m);
  }

  lemma ProgressIsPartial(cfg: Config, current: SetRegisters, previous: SetRegisters, m: nat)
    requires cfg.Valid() && SetsInv(cfg, current, previous, m) && current.bitmap != {}
    ensures cfg.n > 1 && 0 < current.count < cfg.n
  {
    var c := current.bitmap;
    if |c| >= cfg.n {
      SubsetSize(c, cfg.Everyone());
      assert false;
    }
  }

  /** A copy of a message the switch already has changes no register. The flag it carries is not 0 while
      the round is in progress; for the complete round it is 0, and the packet picks up the stored sum. */
  lemma ConsumeSeen(cfg: Config, slot: Slot, m: nat, w: nat, q: nat, p: Payload)
    requires cfg.Valid() && SlotInv(cfg, slot, m) && w < cfg.n && q <= m <= q + 1
    requires w in slot.Get(Odd(q)).bitmap
    ensures var (slot', meta) := Consume(slot, cfg.n, w, Odd(q), p);
            && slot' == slot
            && meta.seen
            && (meta.flag == 0 <==> q < m)
            && (q < m ==> meta.d1 == cfg.Result(q).d1 && meta.e0 == cfg.Result(q).e0)
  {
    var mine, other := slot.Get(Odd(q)), slot.Get(!Odd(q));
    var (mine', meta) := ConsumeMine(mine, cfg.n, w, p);
    assert Odd(q + 1) == !Odd(q);
    assert w !in other.bitmap;
    assert mine.bitmap + {w} == mine.bitmap && other.bitmap - {w} == other.bitmap;
    assert mine' == mine && ConsumeOther(other, w) == other;
    if q == m {
      ProgressIsPartial(cfg, mine, other, m);
    }
  }

  lemma HeadOfChannel(cfg: Config, slot: Slot, m: nat, w: nat, wk: Worker, up: seq<Packet>)
    requires cfg.Valid() && w < cfg.n && |up| > 0 && SlotInv(cfg, slot, m)
    requires UpInv(cfg, slot, m, w, wk, up) && WorkerInv(cfg, slot, m, w, wk)
    ensures var q := up[0].round;
            && q < cfg.Rounds() && q <= m <= q + 1
            && up[0] == PacketOf(cfg, w, q)
            && (w in slot.Get(Odd(q)).bitmap || (q == m && w !in slot.Get(Odd(m)).bitmap))
  {
    var q := up[0].round;
    assert Odd(q + 1) == !Odd(q);
  }

  /** The packet at the head of a channel is either the worker's first copy of the round in progress, or
      a copy of a message whose worker already has its bit in that message's set. */
  lemma HeadIsFreshOrSeen(cfg: Config, s: System, m: nat, w: nat)
    requires cfg.Valid() && InvAt(cfg, s, m) && Enabled(cfg, s, Deliver(w))
    ensures var q := s.up[w][0].round;
            && q < cfg.Rounds() && q <= m <= q + 1
            && s.up[w][0] == PacketOf(cfg, w, q)
            && (w in s.slot.Get(Odd(q)).bitmap || (q == m && w !in s.slot.Get(Odd(m)).bitmap))
  {
    HeadOfChannel(cfg, s.slot, m, w, s.workers[w], s.up[w]);
  }

  ghost predicate DeliversFresh(s: System, m: nat, w: nat)
    requires w < |s.up| && |s.up[w]| > 0
  {
    s.up[w][0].round == m && w !in s.slot.Get(Odd(m)).bitmap
  }

  lemma UpTail(cfg: Config, slot: Slot, m: nat, w: nat, wk: Worker, up: seq<Packet>)
    requires cfg.Valid() && w < cfg.n && |up| > 0 && UpInv(cfg, slot, m, w, wk, up)
    ensures UpInv(cfg, slot, m, w, wk, up[1..])
  {
  }

  /** When a first copy completes the round, every worker has contributed to it. */
  lemma CompletedByAll(cfg: Config, s: System, m: nat, w: nat, v: nat)
    requires cfg.Valid() && InvAt(cfg, s, m) && w < cfg.n && v < cfg.n && |s.workers[w].accepted| == m
    requires RoundsAfter(cfg, s.slot, m, w) == m + 1
    ensures |s.workers[v].accepted| == m
  {
    assert v in s.slot.Get(Odd(m)).bitmap + {w};
    assert WorkerInv(cfg, s.slot, m, v, s.workers[v]);
  }

  /** The bit of a worker whose first copy of round m has just been consumed. */
  lemma FreshKeepsWorker(cfg: Config, s: System, m: nat, w: nat, slot': Slot, m': nat, v: nat)
    requires cfg.Valid() && InvAt(cfg, s, m) && w < cfg.n && v < cfg.n
    requires w !in s.slot.Get(Odd(m)).bitmap && |s.workers[w].accepted| == m < cfg.Rounds()
    requires slot'.Get(Odd(m)).bitmap == s.slot.Get(Odd(m)).bitmap + {w}
    requires m' == RoundsAfter(cfg, s.slot, m, w) && SlotInv(cfg, slot', m')
    ensures WorkerInv(cfg, slot', m', v, s.workers[v])
  {
    assert Odd(m + 1) == !Odd(m);
    assert WorkerInv(cfg, s.slot, m, v, s.workers[v]);
    if m' == m + 1 {
      CompletedByAll(cfg, s, m, w, v);
    }
  }

  lemma FreshKeepsUp(cfg: Config, s: System, m: nat, w: nat, slot': Slot, m': nat, v: nat, up: seq<Packet>)
    requires cfg.Valid() && InvAt(cfg, s, m) && w < cfg.n && v < cfg.n
    requires w !in s.slot.Get(Odd(m)).bitmap && |s.workers[w].accepted| == m < cfg.Rounds()
    requires slot'.Get(Odd(m)).bitmap == s.slot.Get(Odd(m)).bitmap + {w}
    requires UpInv(cfg, s.slot, m, v, s.workers[v], up)
    requires v == w ==> forall i :: 0 <= i < |up| ==> up[i].round == m
    requires m' == RoundsAfter(cfg, s.slot, m, w) && SlotInv(cfg, slot', m')
    ensures UpInv(cfg, slot', m', v, s.workers[v], up)
  {
    assert Odd(m + 1) == !Odd(m);
    if m' == m + 1 {
      CompletedByAll(cfg, s, m, w, v);
    }
  }

  lemma HeadRoundIsOwn(cfg: Config, s: System, m: nat, w: nat)
    requires cfg.Valid() && InvAt(cfg, s, m) && Enabled(cfg, s, Deliver(w)) && DeliversFresh(s, m, w)
    ensures |s.workers[w].accepted| == m
    ensures forall i :: 0 <= i < |s.up[w]| ==> s.up[w][i].round == m
  {
    assert UpInv(cfg, s.slot, m, w, s.workers[w], s.up[w]);
    assert WorkerInv(cfg, s.slot, m, w, s.workers[w]);
  }

  lemma RepliesStayRight(cfg: Config, s: System, m: nat, m': nat)
    requires cfg.Valid() && InvAt(cfg, s, m) && m <= m' <= cfg.Rounds()
    ensures forall w, d :: 0 <= w < cfg.n && d in s.down[w] ==> ReplyInv(cfg, m', s.workers[w], d)
  {
    forall w, d | 0 <= w < cfg.n && d in s.down[w]
      ensures ReplyInv(cfg, m', s.workers[w], d)
    {
      assert ReplyInv(cfg, m, s.workers[w], d);
    }
  }

  /** What a delivery changes: the slot, the channel, and perhaps one more recirculated packet. */
  lemma DeliveryShape(cfg: Config, s: System, w: nat)
    requires cfg.n > 0 && w < |s.up| && |s.up[w]| > 0
    ensures var p := s.up[w][0];
            var (slot', meta) := Consume(s.slot, cfg.n, w, p.setBit, p.data);
            var h := Recirculated(w, p.setBit, p.shortId, meta, p.round);
            var recirc' := if AfterConsume(meta.flag, meta.seen) == Recirculate then s.recirc + [h] else s.recirc;
            AfterDelivery(cfg, s, w) == System(slot', s.workers, s.up[w := s.up[w][1..]], recirc', s.down)
  {
  }

  /** The invariant from its parts, when one packet may have been added to the recirculated ones. */
  lemma AssembleInv(cfg: Config, s: System, m: nat, recirc: seq<Recirculated>, h: Recirculated)
    requires cfg.Valid() && Shaped(cfg, s) && SlotInv(cfg, s.slot, m)
    requires forall w :: 0 <= w < cfg.n ==> WorkerInv(cfg, s.slot, m, w, s.workers[w])
    requires forall w :: 0 <= w < cfg.n ==> UpInv(cfg, s.slot, m, w, s.workers[w], s.up[w])
    requires forall i :: 0 <= i < |recirc| ==> RecircInv(cfg, m, recirc[i])
    requires s.recirc == recirc || (s.recirc == recirc + [h] && RecircInv(cfg, m, h))
    requires forall w, d :: 0 <= w < cfg.n && d in s.down[w] ==> ReplyInv(cfg, m, s.workers[w], d)
    ensures InvAt(cfg, s, m)
  {
  }

  /** The slot, the workers and the channels after a first copy has been consumed. */
  lemma FreshParts(cfg: Config, s: System, m: nat, w: nat, s': System, m': nat)
    requires cfg.Valid() && InvAt(cfg, s, m) && Enabled(cfg, s, Deliver(w)) && DeliversFresh(s, m, w)
    requires s' == AfterDelivery(cfg, s, w) && m' == RoundsAfter(cfg, s.slot, m, w)
    ensures m <= m' && SlotInv(cfg, s'.slot, m')
    ensures forall v :: 0 <= v < cfg.n ==>
              WorkerInv(cfg, s'.slot, m', v, s.workers[v]) && UpInv(cfg, s'.slot, m', v, s.workers[v], s'.up[v])
  {
    HeadIsFreshOrSeen(cfg, s, m, w);
    HeadRoundIsOwn(cfg, s, m, w);
    ConsumeFresh(cfg, s.slot, m, w);
    DeliveryShape(cfg, s, w);
    UpTail(cfg, s.slot, m, w, s.workers[w], s.up[w]);
    forall v | 0 <= v < cfg.n
      ensures WorkerInv(cfg, s'.slot, m', v, s.workers[v])
      ensures UpInv(cfg, s'.slot, m', v, s.workers[v], s'.up[v])
    {
      FreshKeepsWorker(cfg, s, m, w, s'.slot, m', v);
      FreshKeepsUp(cfg, s, m, w, s'.slot, m', v, s'.up[v]);
    }
  }

  /** The packet that may be recirculated. */
  lemma FreshRecirculated(cfg: Config, s: System, m: nat, w: nat, s': System, m': nat) returns (h: Recirculated)
    requires cfg.Valid() && InvAt(cfg, s, m) && Enabled(cfg, s, Deliver(w)) && DeliversFresh(s, m, w)
    requires s' == AfterDelivery(cfg, s, w) && m' == RoundsAfter(cfg, s.slot, m, w)
    ensures s'.recirc == s.recirc || (s'.recirc == s.recirc + [h] && RecircInv(cfg, m', h))
    ensures forall i :: 0 <= i < |s.recirc| ==> RecircInv(cfg, m', s.recirc[i])
  {
    HeadIsFreshOrSeen(cfg, s, m, w);
    ConsumeFresh(cfg, s.slot, m, w);
    DeliveryShape(cfg, s, w);
    var p := s.up[w][0];
    h := Recirculated(w, p.setBit, p.shortId, Consume(s.slot, cfg.n, w, p.setBit, p.data).1, p.round);
    forall i | 0 <= i < |s.recirc|
      ensures RecircInv(cfg, m', s.recirc[i])
    {
      assert RecircInv(cfg, m, s.recirc[i]);
    }
  }

  lemma DeliverFreshKeepsInv(cfg: Config, s: System, m: nat, w: nat)
    requires cfg.Valid() && InvAt(cfg, s, m) && Enabled(cfg, s, Deliver(w)) && DeliversFresh(s, m, w)
    ensures InvAt(cfg, AfterDelivery(cfg, s, w), RoundsAfter(cfg, s.slot, m, w))
  {
    var s', m' := AfterDelivery(cfg, s, w), RoundsAfter(cfg, s.slot, m, w);
    FreshParts(cfg, s, m, w, s', m');
    var h := FreshRecirculated(cfg, s, m, w, s', m');
    RepliesStayRight(cfg, s, m, m');
    AssembleInv(cfg, s', m', s.recirc, h);
  }

  lemma DeliverSeenKeepsInv(cfg: Config, s: System, m: nat, w: nat)
    requires cfg.Valid() && InvAt(cfg, s, m) && Enabled(cfg, s, Deliver(w)) && !DeliversFresh(s, m, w)
    ensures InvAt(cfg, AfterDelivery(cfg, s, w), m)
  {
    HeadIsFreshOrSeen(cfg, s, m, w);
    var p := s.up[w][0];
    ConsumeSeen(cfg, s.slot, m, w, p.round, p.data);
    UpTail(cfg, s.slot, m, w, s.workers[w], s.up[w]);
    DeliveryShape(cfg, s, w);
    var meta := Consume(s.slot, cfg.n, w, p.setBit, p.data).1;
    AssembleInv(cfg, AfterDelivery(cfg, s, w), m, s.recirc, Recirculated(w, p.setBit, p.shortId, meta, p.round));
  }

  // ---------- Harvest and Accept ----------

  /** Whoever still awaits the round of a packet that leaves the HARVEST7 pass gets the whole sum. */
  lemma HarvestedReply(cfg: Config, s: System, m: nat, h: Recirculated, w: nat)
    requires cfg.Valid() && InvAt(cfg, s, m) && w < cfg.n && RecircInv(cfg, m, h)
    requires AfterHarvest(h.meta.flag, h.meta.seen) != Drop
    ensures ReplyInv(cfg, m, s.workers[w], ReplyOf(s.slot, h))
  {
    assert WorkerInv(cfg, s.slot, m, w, s.workers[w]);
    assert Odd(h.round + 1) == !Odd(h.round);
  }

  lemma HarvestKeepsInv(cfg: Config, s: System, m: nat, i: nat)
    requires cfg.Valid() && InvAt(cfg, s, m) && Enabled(cfg, s, Harvest(i))
    ensures InvAt(cfg, Next(cfg, s, Harvest(i)), m)
  {
    var h := s.recirc[i];
    var s' := Next(cfg, s, Harvest(i));
    forall w, d | 0 <= w < cfg.n && d in s'.down[w]
      ensures ReplyInv(cfg, m, s'.workers[w], d)
    {
      if d !in s.down[w] {
        HarvestedReply(cfg, s, m, h, w);
      }
    }
  }

  /** The worker after accepting. */
  lemma AcceptKeepsWorker(cfg: Config, s: System, m: nat, w: nat, d: Reply, wk': Worker)
    requires cfg.Valid() && InvAt(cfg, s, m) && Enabled(cfg, s, Accept(w, d))
    requires wk' == NextMessage(cfg, s.workers[w], d.data)
    ensures WorkerInv(cfg, s.slot, m, w, wk')
    ensures Unfinished(cfg, wk') ==>
              |wk'.accepted| < cfg.Rounds() && Send(cfg, w, wk') == PacketOf(cfg, w, |wk'.accepted|)
  {
    var wk := s.workers[w];
    assert ReplyInv(cfg, m, wk, d);
    assert WorkerInv(cfg, s.slot, m, w, wk);
    NextIdFollows(cfg, wk, d.data);
    assert Odd(|wk.accepted| + 1) == !Odd(|wk.accepted|);
  }

  /** Its channel: what was current is now the previous message. */
  lemma AcceptKeepsUp(cfg: Config, s: System, m: nat, w: nat, d: Reply, wk': Worker, up': seq<Packet>)
    requires cfg.Valid() && InvAt(cfg, s, m) && Enabled(cfg, s, Accept(w, d))
    requires wk' == NextMessage(cfg, s.workers[w], d.data) && WorkerInv(cfg, s.slot, m, w, wk')
    requires up' == s.up[w] || (|wk'.accepted| < cfg.Rounds() && up' == s.up[w] + [PacketOf(cfg, w, |wk'.accepted|)])
    ensures UpInv(cfg, s.slot, m, w, wk', up')
  {
    assert ReplyInv(cfg, m, s.workers[w], d);
    assert UpInv(cfg, s.slot, m, w, s.workers[w], s.up[w]);
  }

  lemma AcceptKeepsInv(cfg: Config, s: System, m: nat, w: nat, d: Reply)
    requires cfg.Valid() && InvAt(cfg, s, m) && Enabled(cfg, s, Accept(w, d))
    ensures InvAt(cfg, Next(cfg, s, Accept(w, d)), m)
  {
    NextIdFollows(cfg, s.workers[w], d.data);
    var s' := Next(cfg, s, Accept(w, d));
    AcceptKeepsWorker(cfg, s, m, w, d, s'.workers[w]);
    AcceptKeepsUp(cfg, s, m, w, d, s'.workers[w], s'.up[w]);
    forall v, e | 0 <= v < cfg.n && e in s'.down[v]
      ensures ReplyInv(cfg, m, s'.workers[v], e)
    {
      assert ReplyInv(cfg, m, s.workers[v], e);
    }
  }

  /** How many rounds are complete after a step. */
  ghost function RoundsAfterStep(cfg: Config, s: System, m: nat, a: Action): nat
    requires cfg.Valid() && Shaped(cfg, s) && Enabled(cfg, s, a)
  {
    if a.Deliver? && DeliversFresh(s, m, a.w) then RoundsAfter(cfg, s.slot, m, a.w) else m
  }

  lemma StepKeepsInv(cfg: Config, s: System, m: nat, a: Action)
    requires cfg.Valid() && InvAt(cfg, s, m) && Enabled(cfg, s, a)
    ensures InvAt(cfg, Next(cfg, s, a), RoundsAfterStep(cfg, s, m, a))
  {
    match a
    case Timeout(w) => TimeoutKeepsInv(cfg, s, m, w);
    case Lose(w, i) => LoseKeepsInv(cfg, s, m, w, i);
    case Deliver(w) =>
      if DeliversFresh(s, m, w) {
        DeliverFreshKeepsInv(cfg, s, m, w);
      } else {
        DeliverSeenKeepsInv(cfg, s, m, w);
      }
    case Harvest(i) => HarvestKeepsInv(cfg, s, m, i);
    case Accept(w, d) => AcceptKeepsInv(cfg, s, m, w, d);
  }
}
