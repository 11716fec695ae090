/** The RDMA worker thread on one job slice: message ids, rkeys and timers of its queue pairs. What a method
    does to a queue pair is what the worker's part of the protocol step says. */
module RdmaWorker {
  import opened Slots
  import opened Protocol
  import opened TimeoutQueues

  const SHORT_MODULUS := 0x1_0000

  /** A work request handed to the network card: the slot and set bit in the rkey, the short id in the
      immediate field. */
  datatype Post = Post(qpn: nat, rkey: nat, imm: nat)

  /** rkey ^ 1 */
  function FlipPoolFlag(rkey: nat): nat {
    if rkey % 2 == 0 then rkey + 1 else rkey - 1
  }

  /** The state of one queue pair: the id of its current message, the rkey and the immediate field of its
      send request, the receive requests posted, whether its timer runs, and the results accepted. */
  datatype QueuePair = QueuePair(msgId: nat, rkey: nat, imm: nat, receives: nat, timed: bool, accepted: seq<Payload>) {

    /** As the protocol sees it. */
    function View(): Worker {
      Worker(msgId, rkey % 2 == 1, accepted)
    }

    /** What is posted for the current message. */
    function CurrentPost(qpn: nat): Post {
      Post(qpn, rkey, msgId % SHORT_MODULUS)
    }

    /** A fresh send. */
    function Sent(): QueuePair {
      this.(rkey := FlipPoolFlag(rkey), imm := msgId % SHORT_MODULUS, timed := true, receives := receives + 1)
    }

    /** What the acceptance of a result does. */
    function Accepted(batch: nat, total: nat, result: Payload): QueuePair
      requires receives > 0
    {
      var next := this.(msgId := msgId + batch, accepted := accepted + [result], timed := false,
                       receives := receives - 1);
      if next.msgId < total then next.Sent() else next
    }

    /** The message has been posted and its result has not been accepted yet. */
    predicate Outstanding(qpn: nat, batch: nat, total: nat) {
      qpn < batch && msgId < total
    }

    /** The timer runs and one receive request is posted exactly while the message is outstanding; the rkey
        stays within the slot, and the request at hand is the one for the current message. */
    predicate Valid(qpn: nat, batch: nat, total: nat, slot: nat) {
      && rkey / 2 == slot
      && (timed <==> Outstanding(qpn, batch, total))
      && receives == (if Outstanding(qpn, batch, total) then 1 else 0)
      && (Outstanding(qpn, batch, total) ==> imm == msgId % SHORT_MODULUS)
    }
  }

  /** Accepting is the protocol's step of the worker, and keeps the queue pair valid. */
  lemma AcceptedIsNextMessage(qp: QueuePair, qpn: nat, cfg: Config, slot: nat, result: Payload)
    requires qp.Valid(qpn, cfg.batch, cfg.total, slot) && qp.Outstanding(qpn, cfg.batch, cfg.total)
    ensures var qp' := qp.Accepted(cfg.batch, cfg.total, result);
            && qp'.View() == NextMessage(cfg, qp.View(), result)
            && qp'.Valid(qpn, cfg.batch, cfg.total, slot)
  {
  }

  /** What goes out for a queue pair is the protocol's packet. */
  lemma PostIsPacket(qp: QueuePair, qpn: nat, cfg: Config, w: nat)
    requires w < |cfg.work| && |qp.accepted| < |cfg.work[w]|
    ensures var packet := Send(cfg, w, qp.View());
            qp.CurrentPost(qpn).imm == packet.shortId && (qp.CurrentPost(qpn).rkey % 2 == 1 <==> packet.setBit)
  {
  }

  /** Cutting a pool index with the set bit to 16 bits cuts the slot to 15. */
  lemma CutPoolIndex(slot: nat)
    ensures (slot * 2 + 1) % 0x1_0000 == slot % 0x8000 * 2 + 1
  {
  }

  /** The first k queue pairs have posted their next message, the others are as they were. */
  ghost predicate SentBelow(was: seq<QueuePair>, qps: seq<QueuePair>, k: nat) {
    |qps| == |was| && forall q: nat :: q < |was| ==> qps[q] == if q < k then was[q].Sent() else was[q]
  }

  ghost predicate PostedBelow(was: seq<QueuePair>, posted: seq<Post>, base: nat, k: nat)
    requires k <= |was|
  {
    |posted| == base + k && forall q: nat :: q < k ==> posted[base + q] == was[q].Sent().CurrentPost(q)
  }

  lemma OneMorePosted(was: seq<QueuePair>, qps: seq<QueuePair>, qps': seq<QueuePair>, posted: seq<Post>,
                      posted': seq<Post>, base: nat, k: nat)
    requires k < |was| && SentBelow(was, qps, k) && PostedBelow(was, posted, base, k)
    requires qps' == qps[k := qps[k].Sent()] && posted' == posted + [qps'[k].CurrentPost(k)]
    ensures SentBelow(was, qps', k + 1) && PostedBelow(was, posted', base, k + 1)
  {
  }

  class RdmaWorkerThread {
    const numQps: nat
    const tid: nat
    const packetsPerMessage: nat
    /** msg_ids_; the rkey and the immediate field of send_wrs_; the receive requests posted. */
    const msgIds: array<nat>
    const rkeys: array<nat>
    const imms: array<nat>
    const receives: array<nat>
    const timeouts: TimeoutQueue
    /** The job slice: the number of messages, and of queue pairs in use. */
    var total: nat
    var batch: nat
    var numReceived: nat
    /** Everything posted, the results accepted per queue pair, and the latest clock reading. */
    ghost var posted: seq<Post>
    ghost var accepted: seq<seq<Payload>>
    ghost var clock: int

    /** The slot of the first packet of a message on queue pair qpn, counted through. */
    function SlotNumber(qpn: nat): nat {
      (numQps * tid + qpn) * packetsPerMessage
    }

    /** The slot as the 16 bits of a pool index hold it, besides the set bit. */
    function FirstSlot(qpn: nat): nat {
      SlotNumber(qpn) % 0x8000
    }

    ghost predicate Shape()
      reads this
    {
      && msgIds.Length == rkeys.Length == imms.Length == receives.Length == numQps == |accepted|
      && msgIds != rkeys && msgIds != imms && msgIds != receives
      && rkeys != imms && rkeys != receives && imms != receives
      && timeouts.entries.Length == numQps
    }

    ghost function Qp(qpn: nat): QueuePair
      requires Shape() && qpn < numQps
      reads this, msgIds, rkeys, imms, receives, timeouts
    {
      QueuePair(msgIds[qpn], rkeys[qpn], imms[qpn], receives[qpn], qpn in timeouts.order, accepted[qpn])
    }

    ghost function QpsBelow(n: nat): (s: seq<QueuePair>)
      requires Shape() && n <= numQps
      reads this, msgIds, rkeys, imms, receives, timeouts
      ensures |s| == n && forall q: nat :: q < n ==> s[q] == Qp(q)
    {
      if n == 0 then [] else QpsBelow(n - 1) + [Qp(n - 1)]
    }

    /** All queue pairs. */
    ghost function Qps(): (s: seq<QueuePair>)
      requires Shape()
      reads this, msgIds, rkeys, imms, receives, timeouts
      ensures |s| == numQps
    {
      QpsBelow(numQps)
    }

    ghost predicate TimersValid()
      reads this, timeouts, timeouts.entries
    {
      && timeouts.Valid()
      && forall i :: i in timeouts.order ==> 0 <= i < timeouts.entries.Length && timeouts.entries[i].timestamp <= clock
    }

    ghost predicate Valid()
      reads this, msgIds, rkeys, imms, receives, timeouts, timeouts.entries
    {
      && Shape() && TimersValid() && 0 < batch <= numQps
      && forall q: nat :: q < numQps ==> Qps()[q].Valid(q, batch, total, FirstSlot(q))
    }

    ghost function ConfigOf(qpn: nat): Config
      reads this
    {
      Config(1, qpn, batch, total, [])
    }

    ghost function Footprint(): set<object>
      reads this
    {
      {this, msgIds, rkeys, imms, receives, timeouts, timeouts.entries}
    }

    /** The set bit starts as 1 and is flipped before the first message. */
    constructor (numQps: nat, tid: nat, packetsPerMessage: nat, timeout: nat, threshold: nat, increment: nat)
      ensures Shape() && TimersValid() && fresh(Footprint()) && posted == []
      ensures this.numQps == numQps && this.tid == tid && this.packetsPerMessage == packetsPerMessage
      ensures forall q: nat :: q < numQps ==> Qps()[q] == QueuePair(0, FirstSlot(q) * 2 + 1, 0, 0, false, [])
    {
      this.numQps, this.tid, this.packetsPerMessage := numQps, tid, packetsPerMessage;
      msgIds := new nat[numQps](i => 0);
      rkeys := new nat[numQps](i => 0);
      imms := new nat[numQps](i => 0);
      receives := new nat[numQps](i => 0);
      timeouts := new TimeoutQueue(numQps, timeout, threshold, increment);
      total, batch, numReceived := 0, 0, 0;
      posted, accepted, clock := [], seq(numQps, i => []), 0;
      new;
      SetRkeys();
      InitialQps();
    }

    lemma InitialQps()
      requires Shape() && timeouts.order == []
      requires forall q: nat :: q < numQps ==>
                 msgIds[q] == imms[q] == receives[q] == 0 && rkeys[q] == FirstSlot(q) * 2 + 1 && accepted[q] == []
      ensures forall q: nat :: q < numQps ==> Qps()[q] == QueuePair(0, FirstSlot(q) * 2 + 1, 0, 0, false, [])
    {
      forall q: nat | q < numQps
        ensures Qps()[q] == QueuePair(0, FirstSlot(q) * 2 + 1, 0, 0, false, [])
      {
        assert Qps()[q] == Qp(q);
      }
    }

    /** Writes the pool indices, cut to 16 bits, into the rkeys. */
    method SetRkeys()
      requires rkeys.Length == numQps
      modifies rkeys
      ensures forall q: nat :: q < numQps ==> rkeys[q] == FirstSlot(q) * 2 + 1
    {
      for qpn := 0 to numQps
        invariant forall q: nat :: q < qpn ==> rkeys[q] == FirstSlot(q) * 2 + 1
      {
        var poolIndex := (SlotNumber(qpn) * 2 + 1) % 0x1_0000;
        CutPoolIndex(SlotNumber(qpn));
        rkeys[qpn] := poolIndex;
      }
    }

    /** If one queue pair changes, so does the sequence of them in one place. */
    twostate lemma OneChanged(new qpn: nat)
      requires old(Shape()) && Shape() && qpn < numQps
      requires forall q: nat :: q < numQps && q != qpn ==> Qp(q) == old(Qp(q))
      ensures Qps() == old(Qps())[qpn := Qp(qpn)]
    {
      forall q: nat | q < numQps
        ensures Qps()[q] == old(Qps())[qpn := Qp(qpn)][q]
      {
        assert q != qpn ==> Qp(q) == old(Qp(q));
      }
    }

    /** Posts the queue pair's message: a fresh one with the other set bit, a retransmission as it was. */
    method PostSendWr(qpn: nat, isRetransmission: bool, now: int)
      requires Shape() && TimersValid() && qpn < numQps && clock <= now
      modifies this`posted, this`clock, rkeys, imms, timeouts, timeouts.entries
      ensures Shape() && TimersValid() && clock == now
      ensures var was := old(Qps()[qpn]);
              Qps() == old(Qps())[qpn := if isRetransmission then was.(timed := true)
                                         else was.Sent().(receives := was.receives)]
      ensures posted == old(posted) + [Post(qpn, Qps()[qpn].rkey, Qps()[qpn].imm)]
    {
      if !isRetransmission {
        rkeys[qpn] := FlipPoolFlag(rkeys[qpn]);
        imms[qpn] := msgIds[qpn] % SHORT_MODULUS;
      }
      posted := posted + [Post(qpn, rkeys[qpn], imms[qpn])];
      WithoutMembers(timeouts.order, qpn);
      var ok := timeouts.Push(qpn, now);
      clock := now;
      OneChanged(qpn);
    }

    method PostRecvWr(qpn: nat)
      requires Shape() && qpn < numQps
      modifies receives
      ensures Qps() == old(Qps())[qpn := old(Qps()[qpn]).(receives := old(receives[qpn]) + 1)]
    {
      receives[qpn] := receives[qpn] + 1;
      OneChanged(qpn);
    }

    /** The awaited message has come: its result is stored and its timer stopped. */
    method StoreResult(qpn: nat, result: Payload)
      requires Shape() && TimersValid() && qpn < numQps && receives[qpn] > 0
      modifies this`accepted, this`numReceived, msgIds, receives, timeouts, timeouts.entries
      ensures Shape() && TimersValid() && numReceived == old(numReceived) + 1
      ensures var was := old(Qps()[qpn]);
              Qps() == old(Qps())[qpn := was.(msgId := was.msgId + batch, accepted := was.accepted + [result],
                                             timed := false, receives := was.receives - 1)]
    {
      receives[qpn] := receives[qpn] - 1;
      accepted := accepted[qpn := accepted[qpn] + [result]];
      msgIds[qpn] := msgIds[qpn] + batch;
      WithoutMembers(timeouts.order, qpn);
      timeouts.Remove(qpn);
      numReceived := numReceived + 1;
      OneChanged(qpn);
    }

    /** Posts a receive request and a fresh send. */
    method PostFresh(qpn: nat, now: int)
      requires Shape() && TimersValid() && qpn < numQps && clock <= now
      modifies this`posted, this`clock, rkeys, imms, receives, timeouts, timeouts.entries
      ensures Shape() && TimersValid() && clock == now
      ensures Qps() == old(Qps())[qpn := old(Qps()[qpn]).Sent()]
      ensures posted == old(posted) + [Qps()[qpn].CurrentPost(qpn)]
    {
      PostRecvWr(qpn);
      PostSendWr(qpn, false, now);
    }

    /** Takes the result and, if there is one, posts the next message. */
    method AcceptMessage(qpn: nat, result: Payload, now: int)
      requires Shape() && TimersValid() && qpn < numQps && receives[qpn] > 0 && clock <= now
      modifies this`posted, this`accepted, this`clock, this`numReceived
      modifies msgIds, rkeys, imms, receives, timeouts, timeouts.entries
      ensures Shape() && TimersValid() && numReceived == old(numReceived) + 1 && clock <= now
      ensures Qps() == old(Qps())[qpn := old(Qps()[qpn]).Accepted(batch, total, result)]
      ensures posted == old(posted) + if msgIds[qpn] < total then [Qps()[qpn].CurrentPost(qpn)] else []
    {
      StoreResult(qpn, result);
      if msgIds[qpn] < total {
        PostFresh(qpn, now);
      }
    }

    /** A completion for a received message. It is accepted exactly if its short id is that of the awaited
        message; then the queue pair takes the protocol's step, and posts the next message if there is one. */
    method HandleCompletion(qpn: nat, shortId: nat, result: Payload, now: int) returns (ok: bool)
      requires Valid() && qpn < numQps && receives[qpn] > 0 && clock <= now
      modifies this`posted, this`accepted, this`clock, this`numReceived
      modifies msgIds, rkeys, imms, receives, timeouts, timeouts.entries
      ensures Valid() && clock <= now
      ensures ok <==> shortId == old(msgIds[qpn]) % SHORT_MODULUS
      ensures !ok ==> Qps() == old(Qps()) && posted == old(posted)
      ensures ok ==> forall q: nat :: q < numQps && q != qpn ==> Qps()[q] == old(Qps()[q])
      ensures ok ==> Qps()[qpn].View() == NextMessage(ConfigOf(qpn), old(Qps()[qpn]).View(), result)
      ensures ok ==> posted == old(posted) + if Unfinished(ConfigOf(qpn), Qps()[qpn].View())
                                             then [Qps()[qpn].CurrentPost(qpn)] else []
      ensures numReceived == old(numReceived) + if ok then 1 else 0
    {
      ghost var was := Qps();
      assert was[qpn].Valid(qpn, batch, total, FirstSlot(qpn));
      ok := shortId == msgIds[qpn] % SHORT_MODULUS;
      if ok {
        AcceptedIsNextMessage(was[qpn], qpn, ConfigOf(qpn), FirstSlot(qpn), result);
        AcceptMessage(qpn, result, now);
      } else {
        receives[qpn] := receives[qpn] - 1;
        OneChanged(qpn);
        PostRecvWr(qpn);
        assert Qps() == was[qpn := was[qpn]] == was;
      }
    }

    /** The end of a turn of the loop: the message whose timer has run longest is posted again if any
        timer has expired, with the same rkey and the same immediate field. */
    method CheckTimeouts(now: int) returns (qpn: int)
      requires Valid() && clock <= now
      modifies this`posted, this`clock, rkeys, imms, timeouts, timeouts.entries
      ensures Valid() && Qps() == old(Qps()) && clock <= now
      ensures qpn == -1 <==> !old(timeouts.AnyExpired(now))
      ensures qpn != -1 ==> 0 <= qpn < numQps && Qps()[qpn].Outstanding(qpn, batch, total)
      ensures posted == old(posted) + if qpn == -1 then [] else [Qps()[qpn].CurrentPost(qpn)]
    {
      ghost var was := Qps();
      qpn := timeouts.Check(now);
      SameQps();
      if qpn >= 0 {
        assert was[qpn].Valid(qpn, batch, total, FirstSlot(qpn)) && was[qpn].timed;
        PostSendWr(qpn, true, now);
        assert Qps() == was[qpn := was[qpn]] == was;
      }
    }

    twostate lemma SameQps()
      requires old(Shape()) && Shape()
      requires forall q: nat :: q < numQps ==> Qp(q) == old(Qp(q))
      ensures Qps() == old(Qps())
    {
      forall q: nat | q < numQps
        ensures Qps()[q] == old(Qps())[q]
      {
        assert Qp(q) == old(Qp(q));
      }
    }

    /** A job slice of some number of messages, at least one, when nothing is outstanding; floats take an
        extra batch. */
    method SetUpSlice(messages: nat, extraBatch: bool)
      requires Shape() && TimersValid() && messages > 0 && numQps > 0
      modifies this`total, this`batch, this`numReceived, this`accepted, msgIds
      ensures Shape() && TimersValid() && numReceived == 0
      ensures batch == (if numQps < messages then numQps else messages)
      ensures total == messages + if extraBatch then batch else 0
      ensures forall q: nat :: q < numQps ==>
                Qps()[q] == old(Qps()[q]).(msgId := if q < batch then q else old(Qps()[q]).msgId, accepted := [])
    {
      batch := if numQps < messages then numQps else messages;
      total := messages + if extraBatch then batch else 0;
      numReceived := 0;
      accepted := seq(numQps, i => []);
      for qpn := 0 to batch
        modifies msgIds
        invariant forall q: nat :: q < numQps ==> msgIds[q] == if q < qpn then q else old(msgIds[q])
      {
        msgIds[qpn] := qpn;
      }
    }

    /** The first batch: every queue pair in use posts its first message, with its set bit flipped. */
    method PostFirstBatch(now: int)
      requires Shape() && TimersValid() && 0 < batch <= numQps && batch <= total && clock <= now
      requires forall q: nat :: q < numQps ==>
                 !Qps()[q].timed && Qps()[q].receives == 0 && Qps()[q].rkey / 2 == FirstSlot(q)
                 && (q < batch ==> Qps()[q].msgId == q)
      modifies this`posted, this`clock, rkeys, imms, receives, timeouts, timeouts.entries
      ensures Valid() && clock <= now
      ensures forall q: nat :: q < numQps ==> Qps()[q] == if q < batch then old(Qps()[q]).Sent() else old(Qps()[q])
      ensures |posted| == |old(posted)| + batch && old(posted) <= posted
      ensures forall q: nat :: q < batch ==> posted[|old(posted)| + q] == Qps()[q].CurrentPost(q)
    {
      ghost var was, base := Qps(), |posted|;
      for qpn := 0 to batch
        invariant Shape() && TimersValid() && clock <= now && old(posted) <= posted
        invariant SentBelow(was, Qps(), qpn) && PostedBelow(was, posted, base, qpn)
      {
        ghost var qps, before := Qps(), posted;
        PostFresh(qpn, now);
        OneMorePosted(was, qps, Qps(), before, posted, base, qpn);
      }
      FirstBatchValid(was);
    }

    /** After the first batch, exactly the queue pairs in use have a message outstanding. */
    lemma FirstBatchValid(was: seq<QueuePair>)
      requires Shape() && TimersValid() && 0 < batch <= numQps && batch <= total && |was| == numQps
      requires forall q: nat :: q < numQps ==>
                 !was[q].timed && was[q].receives == 0 && was[q].rkey / 2 == FirstSlot(q)
                 && (q < batch ==> was[q].msgId == q)
      requires forall q: nat :: q < numQps ==> Qps()[q] == if q < batch then was[q].Sent() else was[q]
      ensures Valid()
    {
      forall q: nat | q < numQps
        ensures Qps()[q].Valid(q, batch, total, FirstSlot(q))
      {
        assert !was[q].timed;
      }
    }
  }
}
