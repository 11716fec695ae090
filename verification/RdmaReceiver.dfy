/** Reassembly of RDMA messages at the switch: packets after the first carry no slot, so the switch counts
    it up from the first packet, as long as the packet sequence numbers are consecutive. */
module RdmaReceiver {

  /** Packet sequence numbers (BTH PSN, InfiniBand Architecture Specification Volume 1, section 9.2) have 24 bits. */
  const PSN_MODULUS := 0x100_0000
  const ERROR_BIT := 0x8000_0000
  const REGISTER_MAX := 0xffff_ffff

  /** receiver_data_t */
  datatype ReceiverData = ReceiverData(next: nat, pool: nat)

  function NextPsn(psn: nat): nat {
    if psn == 0xff_ffff then 0 else psn + 1
  }

  /** receiver_reset_action, for FIRST and ONLY packets. */
  function Reset(psn: nat, rkey: nat): ReceiverData {
    ReceiverData(NextPsn(psn), rkey)
  }

  /** receiver_increment_action, for MIDDLE and LAST packets; the addition saturates. */
  function Increment(r: ReceiverData, psn: nat): ReceiverData {
    if psn == r.next
    then ReceiverData(NextPsn(r.next), if r.pool + 2 > REGISTER_MAX then REGISTER_MAX else r.pool + 2)
    else ReceiverData(r.next, ERROR_BIT)
  }

  predicate Flagged(r: ReceiverData) {
    r.pool >= ERROR_BIT
  }

  /** A packet of a queue pair: its message starts with packet number `start` of the queue pair, and it is
      at some position in the message. The packet at position 0 carries the message's rkey. */
  datatype Packet = Packet(start: nat, position: nat, rkey: nat) {
    function Number(): nat {
      start + position
    }

    function Psn(initial: nat): nat {
      (initial + Number()) % PSN_MODULUS
    }
  }

  function Receive(r: ReceiverData, p: Packet, initial: nat): ReceiverData {
    if p.position == 0 then Reset(p.Psn(initial), p.rkey) else Increment(r, p.Psn(initial))
  }

  /** q may be delivered right after p: it is a later packet of the same message, or one of a later message,
      and fewer than 2^24 packets in a row have been lost between them. */
  predicate Follows(p: Packet, q: Packet) {
    && (if q.start == p.start then q.position > p.position && q.rkey == p.rkey else q.start > p.Number())
    && q.Number() - p.Number() <= PSN_MODULUS
  }

  /** The rkey of a message leaves room for the pool indices of all its packets. */
  predicate Fits(p: Packet) {
    p.rkey + 2 * p.position < 0x8000
  }

  /** An order-preserving, lossy delivery that begins with the first packet of a message. */
  ghost predicate Delivery(ds: seq<Packet>) {
    && (ds != [] ==> ds[0].position == 0)
    && (forall k :: 0 <= k < |ds| ==> Fits(ds[k]))
    && (forall k: nat :: k + 1 < |ds| ==> Successive(ds, k))
  }

  predicate Successive(ds: seq<Packet>, k: nat)
    requires k + 1 < |ds|
  {
    Follows(ds[k], ds[k + 1])
  }

  /** The register of the queue pair after the delivered packets. */
  function After(ds: seq<Packet>, initial: nat, r: ReceiverData): ReceiverData {
    if ds == [] then r else Receive(After(ds[..|ds| - 1], initial, r), ds[|ds| - 1], initial)
  }

  /** Every packet of the last packet's message up to that packet has been delivered. */
  ghost predicate MessageComplete(ds: seq<Packet>)
    requires ds != []
  {
    HasAll(ds, ds[|ds| - 1].start, ds[|ds| - 1].position)
  }

  ghost predicate HasAll(ds: seq<Packet>, start: nat, position: nat) {
    forall j: nat :: j <= position ==> Has(ds, start, j)
  }

  predicate Has(ds: seq<Packet>, start: nat, position: nat) {
    exists i :: 0 <= i < |ds| && ds[i].start == start && ds[i].position == position
  }

  /** The same, along the sequence: the last packets are the message's packets one after another. */
  predicate InOrder(ds: seq<Packet>)
    requires ds != []
  {
    var last := ds[|ds| - 1];
    last.position == 0
    || (|ds| > 1 && ds[|ds| - 2].start == last.start && ds[|ds| - 2].position == last.position - 1
        && InOrder(ds[..|ds| - 1]))
  }

  lemma {:induction false} Prefix(ds: seq<Packet>)
    requires Delivery(ds) && |ds| > 1
    ensures Delivery(ds[..|ds| - 1]) && Follows(ds[|ds| - 2], ds[|ds| - 1])
  {
    var rest := ds[..|ds| - 1];
    assert Successive(ds, |ds| - 2);
    forall k: nat | k + 1 < |rest|
      ensures Successive(rest, k)
    {
      assert Successive(ds, k);
    }
  }

  /** Delivered packets are in the order of their numbers, and those of other messages lie outside the
      message of the last one. */
  lemma {:induction false} Earlier(ds: seq<Packet>, i: nat)
    requires Delivery(ds) && i + 1 < |ds|
    ensures var last := ds[|ds| - 1];
            if ds[i].start == last.start then ds[i].position < last.position else ds[i].Number() < last.start
  {
    Prefix(ds);
    if i + 2 < |ds| {
      Earlier(ds[..|ds| - 1], i);
    }
  }

  lemma {:induction false} CompleteIsInOrder(ds: seq<Packet>)
    requires Delivery(ds) && ds != []
    ensures MessageComplete(ds) <==> InOrder(ds)
  {
    var n := |ds|;
    var last := ds[n - 1];
    if last.position == 0 {
      assert Has(ds, last.start, 0);
    } else {
      assert n > 1;
      Prefix(ds);
      var rest, p := ds[..n - 1], ds[n - 2];
      CompleteIsInOrder(rest);
      if p.start == last.start && p.position == last.position - 1 {
        HasMore(ds, last.start);
        assert forall j: nat :: j <= p.position ==> (Has(ds, last.start, j) <==> Has(rest, last.start, j));
        assert Has(ds, last.start, last.position);
      } else {
        Missing(ds);
      }
    }
  }

  /** The last packet adds only itself. */
  lemma HasMore(ds: seq<Packet>, start: nat)
    requires ds != [] && ds[|ds| - 1].start == start
    ensures forall j: nat :: Has(ds, start, j) <==> Has(ds[..|ds| - 1], start, j) || j == ds[|ds| - 1].position
  {
    var rest, last := ds[..|ds| - 1], ds[|ds| - 1];
    assert ds == rest + [last];
    forall j: nat
      ensures Has(ds, start, j) <==> Has(rest, start, j) || j == last.position
    {
      if Has(rest, start, j) {
        var i :| 0 <= i < |rest| && rest[i].start == start && rest[i].position == j;
        assert ds[i].start == start && ds[i].position == j;
      }
      if Has(ds, start, j) {
        var i :| 0 <= i < |ds| && ds[i].start == start && ds[i].position == j;
        if i < |rest| {
          assert rest[i].start == start && rest[i].position == j;
        }
      }
      assert j == last.position ==> ds[|rest|].start == start && ds[|rest|].position == j;
    }
  }

  /** If the packet before the last one in its message was not the previous one delivered, it was lost. */
  lemma Missing(ds: seq<Packet>)
    requires Delivery(ds) && |ds| > 1 && ds[|ds| - 1].position > 0
    requires !(ds[|ds| - 2].start == ds[|ds| - 1].start && ds[|ds| - 2].position == ds[|ds| - 1].position - 1)
    ensures !MessageComplete(ds)
  {
    var last, p := ds[|ds| - 1], ds[|ds| - 2];
    Prefix(ds);
    forall i | 0 <= i < |ds|
      ensures !(ds[i].start == last.start && ds[i].position == last.position - 1)
    {
      if i < |ds| - 1 {
        Earlier(ds, i);
        if i < |ds| - 2 {
          Earlier(ds[..|ds| - 1], i);
        }
      }
    }
    assert !Has(ds, last.start, last.position - 1);
  }

  lemma SamePsn(a: nat, b: nat, initial: nat)
    requires a < b <= a + PSN_MODULUS
    ensures (initial + a + 1) % PSN_MODULUS == (initial + b) % PSN_MODULUS <==> b == a + 1
  {
    var x, y := initial + a + 1, initial + b;
    assert y - x < PSN_MODULUS;
    if x % PSN_MODULUS == y % PSN_MODULUS {
      assert (y - x) % PSN_MODULUS == 0;
    }
  }

  lemma NextPsnWraps(initial: nat, number: nat)
    ensures NextPsn((initial + number) % PSN_MODULUS) == (initial + number + 1) % PSN_MODULUS
  {
  }

  /** What the register holds: either the whole of the message up to the last packet has come, and the
      register holds the packet's pool index and expects the next packet; or the error bit is set. */
  lemma {:induction false} RegisterInv(ds: seq<Packet>, initial: nat, r: ReceiverData)
    requires Delivery(ds) && ds != []
    ensures var last, a := ds[|ds| - 1], After(ds, initial, r);
            if InOrder(ds)
            then a == ReceiverData((initial + last.Number() + 1) % PSN_MODULUS, last.rkey + 2 * last.position)
            else Flagged(a)
  {
    var n := |ds|;
    var last := ds[n - 1];
    NextPsnWraps(initial, last.Number());
    if last.position > 0 {
      assert n > 1;
      Prefix(ds);
      var rest, p := ds[..n - 1], ds[n - 2];
      RegisterInv(rest, initial, r);
      SamePsn(p.Number(), last.Number(), initial);
    }
  }

  /** Across losses and the wrap-around of sequence numbers, a packet passes unflagged exactly if every
      earlier packet of its message has been delivered, and then its pool index is the rkey plus two per
      packet, with the set bit of the rkey. */
  lemma TracksMessages(ds: seq<Packet>, initial: nat, r: ReceiverData)
    requires Delivery(ds) && ds != []
    ensures var last, a := ds[|ds| - 1], After(ds, initial, r);
            && (!Flagged(a) <==> MessageComplete(ds))
            && (!Flagged(a) ==> a.pool == last.rkey + 2 * last.position && a.pool % 2 == last.rkey % 2)
  {
    CompleteIsInOrder(ds);
    RegisterInv(ds, initial, r);
  }

  /** With 2^24 packets lost in a row, a packet of another message can pass for the awaited one. */
  lemma LongLossConfuses(rkey: nat)
    requires rkey + 2 < 0x8000
    ensures var p, q := Packet(0, 0, rkey), Packet(PSN_MODULUS, 1, rkey);
            && q.start > p.Number() && q.Number() - p.Number() == PSN_MODULUS + 1
            && !Flagged(After([p, q], 0, ReceiverData(0, 0))) && !MessageComplete([p, q])
  {
    var p, q := Packet(0, 0, rkey), Packet(PSN_MODULUS, 1, rkey);
    var r := ReceiverData(0, 0);
    assert [p, q][..1] == [p] && [p][..0] == [];
    assert After([p], 0, r) == Receive(r, p, 0);
    assert After([p, q], 0, r) == Receive(Receive(r, p, 0), q, 0);
    assert !Has([p, q], PSN_MODULUS, 0);
  }

  /** The registers of all queue pairs. */
  class Receiver {
    const data: array<ReceiverData>

    constructor (numQueuePairs: nat)
      ensures fresh(data) && data.Length == numQueuePairs
      ensures forall qp :: 0 <= qp < numQueuePairs ==> data[qp] == ReceiverData(0, 0)
    {
      data := new ReceiverData[numQueuePairs](i => ReceiverData(0, 0));
    }

    /** The actions of table receive_roce: what is read back is the pool index with the error bit. */
    method ReceivePacket(qp: nat, first: bool, psn: nat, rkey: nat) returns (read: nat, sequenceViolation: bool)
      requires qp < data.Length && psn < PSN_MODULUS
      modifies data
      ensures data[..] == old(data[..])[qp := if first then Reset(psn, rkey) else Increment(old(data[qp]), psn)]
      ensures read == data[qp].pool && (sequenceViolation <==> Flagged(data[qp]))
    {
      if first {
        data[qp] := ReceiverData(if psn == 0xff_ffff then 0 else psn + 1, rkey);
      } else if psn == data[qp].next {
        var pool := data[qp].pool + 2;
        if pool > REGISTER_MAX {
          pool := REGISTER_MAX;
        }
        var next := if data[qp].next == 0xff_ffff then 0 else data[qp].next + 1;
        data[qp] := ReceiverData(next, pool);
      } else {
        data[qp] := data[qp].(pool := ERROR_BIT);
      }
      read := data[qp].pool;
      sequenceViolation := read >= ERROR_BIT;
    }
  }
}
