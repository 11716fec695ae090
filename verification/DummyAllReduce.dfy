/** The dummy backend and its worker loop over chained packet ids: a closed all-reduce of one worker thread,
    whose backend multiplies what it is sent by the number of workers. */
module DummyAllReduce {
  import opened Basics
  import opened Slots
  import opened AllReduceJobs

  /** The two buffer pointers of a packet are modelled by the number of its buffer slot. */
  datatype DummyPacket = DummyPacket(id: nat, slot: nat)

  // ---------- The chains of packet ids ----------

  /** The buffer slot of a packet id. */
  function SlotOf(id: nat, batch: nat): (slot: nat)
    requires batch > 0
    ensures slot < batch
  {
    if id < batch then id else SlotOf(id - batch, batch)
  }

  lemma {:induction false} SlotIsRemainder(id: nat, batch: nat)
    requires batch > 0
    ensures SlotOf(id, batch) == id % batch
  {
    if id < batch {
      DivMod(id, 0, batch, id);
    } else {
      SlotIsRemainder(id - batch, batch);
      var q := (id - batch) / batch;
      assert id - batch == q * batch + (id - batch) % batch;
      assert (q + 1) * batch == q * batch + batch;
      DivMod(id, q + 1, batch, (id - batch) % batch);
    }
  }

  function PacketOf(id: nat, batch: nat): DummyPacket
    requires batch > 0
  {
    DummyPacket(id, SlotOf(id, batch))
  }

  ghost function PacketsBelow(n: nat, batch: nat): (s: set<DummyPacket>)
    requires batch > 0
    ensures |s| == n && forall p :: p in s <==> p.id < n && p == PacketOf(p.id, batch)
  {
    if n == 0 then {} else PacketsBelow(n - 1, batch) + {PacketOf(n - 1, batch)}
  }

  lemma PacketsBelowNext(n: nat, batch: nat)
    requires batch > 0
    ensures multiset(PacketsBelow(n + 1, batch)) == multiset(PacketsBelow(n, batch)) + multiset{PacketOf(n, batch)}
  {
    assert PacketOf(n, batch) !in PacketsBelow(n, batch);
  }

  ghost predicate Precedes(done: set<DummyPacket>, id: nat, batch: nat)
    requires batch > 0
  {
    id >= batch ==> PacketOf(id - batch, batch) in done
  }

  /** No two packets share a buffer slot. */
  ghost predicate OnePerSlot(flying: set<DummyPacket>, batch: nat) {
    && (forall p :: p in flying ==> p.slot < batch)
    && (forall p, q :: p in flying && q in flying && p != q ==> p.slot != q.slot)
  }

  ghost predicate InChain(p: DummyPacket, done: set<DummyPacket>, batch: nat, total: nat)
    requires batch > 0
  {
    p.id < total && p == PacketOf(p.id, batch) && Precedes(done, p.id, batch)
  }

  ghost predicate Reached(id: nat, flying: set<DummyPacket>, done: set<DummyPacket>, batch: nat)
    requires batch > 0
  {
    Precedes(done, id, batch) ==> PacketOf(id, batch) in flying || PacketOf(id, batch) in done
  }

  /** The packets in flight are the next ones of the unfinished chains; no two of them share a slot. */
  ghost predicate Flying(flying: set<DummyPacket>, done: set<DummyPacket>, batch: nat, total: nat)
    requires batch > 0
  {
    && (forall p :: p in flying || p in done ==> InChain(p, done, batch, total))
    && flying !! done
    && OnePerSlot(flying, batch)
    && (forall id :: 0 <= id < total ==> Reached(id, flying, done, batch))
  }

  /** What takes the place of a received packet. */
  ghost function Successor(p: DummyPacket, batch: nat, total: nat): set<DummyPacket> {
    if p.id + batch < total then {DummyPacket(p.id + batch, p.slot)} else {}
  }

  lemma SuccessorIsNew(flying: set<DummyPacket>, done: set<DummyPacket>, batch: nat, total: nat, p: DummyPacket)
    requires 0 < batch <= total && Flying(flying, done, batch, total) && p in flying
    ensures var next := DummyPacket(p.id + batch, p.slot);
            next == PacketOf(p.id + batch, batch) && next !in done && next !in flying
  {
    assert InChain(p, done, batch, total);
    var next := DummyPacket(p.id + batch, p.slot);
    assert PacketOf(next.id - batch, batch) == p;
    assert !InChain(next, done, batch, total);
  }

  lemma FlyingAdvances(flying: set<DummyPacket>, done: set<DummyPacket>, batch: nat, total: nat, p: DummyPacket)
    requires 0 < batch <= total && Flying(flying, done, batch, total) && p in flying
    ensures Flying(flying - {p} + Successor(p, batch, total), done + {p}, batch, total)
    ensures Successor(p, batch, total) !! flying && Successor(p, batch, total) !! done
  {
    SuccessorIsNew(flying, done, batch, total, p);
    var flying', done' := flying - {p} + Successor(p, batch, total), done + {p};
    forall q | q in flying' || q in done'
      ensures InChain(q, done', batch, total)
    {
      if q in Successor(p, batch, total) {
        assert PacketOf(q.id - batch, batch) == p;
      } else {
        assert InChain(q, done, batch, total);
      }
    }
    forall id | 0 <= id < total
      ensures Reached(id, flying', done', batch)
    {
      assert Reached(id, flying, done, batch);
      if Precedes(done', id, batch) && !Precedes(done, id, batch) {
        assert PacketOf(id - batch, batch) == p;
      }
    }
  }

  lemma FlyingStart(batch: nat, total: nat)
    requires 0 < batch <= total
    ensures Flying(PacketsBelow(batch, batch), {}, batch, total)
  {
  }

  /** When nothing is in flight, every packet is done. */
  lemma NoneFlying(done: set<DummyPacket>, batch: nat, total: nat)
    requires batch > 0 && Flying({}, done, batch, total)
    ensures done == PacketsBelow(total, batch)
  {
    forall id | 0 <= id < total
      ensures PacketOf(id, batch) in done
    {
      ChainDone(done, batch, total, id);
    }
    assert forall p :: p in done ==> InChain(p, done, batch, total);
    assert PacketsBelow(total, batch) <= done;
  }

  lemma {:induction false} ChainDone(done: set<DummyPacket>, batch: nat, total: nat, id: nat)
    requires batch > 0 && Flying({}, done, batch, total) && id < total
    ensures PacketOf(id, batch) in done
  {
    if id >= batch {
      ChainDone(done, batch, total, id - batch);
    }
    assert Reached(id, {}, done, batch);
  }

  /** When as many packets are done as there are, nothing is in flight. */
  lemma AllDone(flying: set<DummyPacket>, done: set<DummyPacket>, batch: nat, total: nat)
    requires batch > 0 && Flying(flying, done, batch, total)
    ensures |done| <= total
    ensures |done| == total <==> flying == {}
    ensures |done| == total ==> done == PacketsBelow(total, batch)
  {
    var all := PacketsBelow(total, batch);
    assert forall p :: p in flying || p in done ==> InChain(p, done, batch, total) && p in all;
    SubsetSize(done, all);
    if flying == {} {
      NoneFlying(done, batch, total);
    } else {
      var p :| p in flying;
      assert p in all && p !in done;
    }
  }

  // ---------- The worker thread and its backend ----------

  class DummyWorkerThread<F(0, !new), S(0, !new)> {
    const job: Job<F, S>
    /** The tensors of the job slice; they may be the same. */
    const input: array<F>
    const output: array<F>
    /** The buffers of the outstanding packets: their entries and their exponents, by slot. */
    const entries: array2<Word>
    const extra: array<Exponent>
    /** scaling_factors_ of the prepostprocessor. */
    const factors: array<S>
    /** pending_packets_ of the backend. */
    var pending: seq<DummyPacket>
    /** Everything sent and received so far. */
    ghost var sent: multiset<DummyPacket>
    ghost var received: multiset<DummyPacket>

    ghost predicate Shape()
    {
      && job.Valid()
      && input.Length == output.Length == job.numel
      && entries.Length0 == extra.Length == job.maxOutstanding && entries.Length1 == job.packetNumel
      && factors.Length == job.MainPackets()
      && {extra as object, factors as object} !! {input as object, output as object}
      && extra as object != factors as object
    }

    constructor (job: Job<F, S>, input: array<F>, output: array<F>)
      requires job.Valid() && input.Length == output.Length == job.numel
      ensures Shape() && this.job == job && this.input == input && this.output == output
      ensures fresh(entries) && fresh(extra) && fresh(factors)
      ensures pending == [] && sent == received == multiset{}
    {
      this.job, this.input, this.output := job, input, output;
      entries := new Word[job.maxOutstanding, job.packetNumel];
      extra := new Exponent[job.maxOutstanding];
      factors := new S[job.MainPackets()];
      pending, sent, received := [], multiset{}, multiset{};
    }

    /** What the current input and factors put on the wire for an element. */
    ghost function Loaded(b: nat, j: nat): Word
      requires Shape() && j < job.Length(b) && b < job.MainPackets()
      reads input, factors
    {
      job.BlocksApart(b, b, j);
      match job.codec
      case Int32(load, _) => load(input[job.At(b, j)])
      case Float32(_, _, quantize, _) => quantize(input[job.At(b, j)], factors[b])
    }

    /** The loop of PreprocessSingle over the elements of a block. */
    method LoadBlock(b: nat, slot: nat)
      requires Shape() && b < job.MainPackets() && slot < job.Batch()
      modifies entries
      ensures forall s, j :: 0 <= s < entries.Length0 && 0 <= j < entries.Length1 && s != slot ==>
                entries[s, j] == old(entries[s, j])
      ensures forall j :: 0 <= j < job.Length(b) ==> entries[slot, j] == ByteSwap(Loaded(b, j))
    {
      job.BatchFits();
      job.MainBlocks(b);
      var start := b * job.packetNumel;
      job.StartClosed(b);
      var count := if job.packetNumel < job.numel - start then job.packetNumel else job.numel - start;
      for i := 0 to count
        invariant forall s, j :: 0 <= s < entries.Length0 && 0 <= j < entries.Length1 && s != slot ==>
                    entries[s, j] == old(entries[s, j])
        invariant forall j :: 0 <= j < i ==> entries[slot, j] == ByteSwap(Loaded(b, j))
      {
        if job.codec.Float32? {
          entries[slot, i] := ByteSwap(job.codec.quantize(input[start + i], factors[b]));
        } else {
          entries[slot, i] := ByteSwap(job.codec.load(input[start + i]));
        }
      }
    }

    /** Fills a buffer slot for packet id: the entries of the block it carries and the exponent of the
        block one batch ahead. */
    method PreprocessSingle(id: nat, slot: nat)
      requires Shape() && id < job.TotalPackets() && slot < job.Batch()
      modifies entries, extra
      ensures forall s, j :: 0 <= s < entries.Length0 && 0 <= j < entries.Length1 && s != slot ==>
                entries[s, j] == old(entries[s, j])
      ensures forall s :: 0 <= s < extra.Length && s != slot ==> extra[s] == old(extra[s])
      ensures id >= job.Shift() ==> id - job.Shift() < job.MainPackets()
      ensures id >= job.Shift() ==> forall j :: 0 <= j < job.Length(id - job.Shift()) ==>
                entries[slot, j] == ByteSwap(Loaded(id - job.Shift(), j))
      ensures job.codec.Float32? && id < job.MainPackets() ==>
                extra[slot] == job.codec.exponentOf(job.Block(input[..], id))
    {
      job.BatchFits();
      if job.codec.Float32? {
        if id >= job.Batch() {
          LoadBlock(id - job.Batch(), slot);
        }
        if id < job.MainPackets() {
          job.MainBlocks(id);
          var start := id * job.packetNumel;
          job.StartClosed(id);
          var count := if job.packetNumel < job.numel - start then job.packetNumel else job.numel - start;
          extra[slot] := job.codec.exponentOf(input[start..start + count]);
          assert input[..][start..start + count] == input[start..start + count];
        }
      } else {
        LoadBlock(id, slot);
      }
    }

    /** What an entry turns into in the output tensor. */
    function Unloaded(entry: Word, b: nat): F
      requires Shape() && b < job.MainPackets()
      reads factors
    {
      match job.codec
      case Int32(_, store) => store(ByteSwap(entry))
      case Float32(_, _, _, dequantize) => dequantize(ByteSwap(entry), factors[b])
    }

    /** The loop of PostprocessSingle over the elements of a block. */
    method UnloadBlock(b: nat, slot: nat)
      requires Shape() && b < job.MainPackets() && slot < job.Batch()
      modifies output
      ensures forall j :: 0 <= j < job.Length(b) ==> output[job.At(b, j)] == old(Unloaded(entries[slot, j], b))
      ensures forall i :: 0 <= i < job.numel && !(0 <= i - job.Start(b) < job.Length(b)) ==> output[i] == old(output[i])
    {
      job.BatchFits();
      job.MainBlocks(b);
      var start := b * job.packetNumel;
      job.StartClosed(b);
      var count := if job.packetNumel < job.numel - start then job.packetNumel else job.numel - start;
      for i := 0 to count
        invariant forall j :: 0 <= j < i ==> output[start + j] == old(Unloaded(entries[slot, j], b))
        invariant forall k :: 0 <= k < job.numel && !(start <= k < start + count) ==> output[k] == old(output[k])
      {
        if job.codec.Float32? {
          output[start + i] := job.codec.dequantize(ByteSwap(entries[slot, i]), factors[b]);
        } else {
          output[start + i] := job.codec.store(ByteSwap(entries[slot, i]));
        }
      }
    }

    /** Moves the block of packet id to the output and keeps the factor of the block one batch ahead. */
    method PostprocessSingle(id: nat, slot: nat)
      requires Shape() && id < job.TotalPackets() && slot < job.Batch()
      modifies output, factors
      ensures id >= job.Shift() ==> forall j: nat :: j < job.Length(id - job.Shift()) ==> UnloadedAt(id, slot, j)
      ensures forall i: nat :: i < job.numel ==> OutputKept(id, i)
      ensures forall k: nat :: k < factors.Length ==> FactorStored(id, slot, k)
    {
      job.BatchFits();
      if job.codec.Float32? {
        if id >= job.Batch() {
          UnloadBlock(id - job.Batch(), slot);
        }
        if id < job.MainPackets() {
          factors[id] := job.codec.factor(extra[slot]);
        }
      } else {
        UnloadBlock(id, slot);
      }
    }

    /** The backend's stand-in for the switch: multiplies every entry by the number of workers. */
    method ProcessPacket(p: DummyPacket)
      requires Shape() && p.slot < job.Batch()
      modifies entries
      ensures forall s, j :: 0 <= s < entries.Length0 && 0 <= j < entries.Length1 ==>
                entries[s, j] == if s == p.slot then Multiplied(old(entries[s, j]), job.numWorkers)
                                 else old(entries[s, j])
    {
      job.BatchFits();
      for i := 0 to job.packetNumel
        invariant forall s, j :: 0 <= s < entries.Length0 && 0 <= j < entries.Length1 ==>
                    entries[s, j] == if s == p.slot && j < i then Multiplied(old(entries[s, j]), job.numWorkers)
                                     else old(entries[s, j])
      {
        entries[p.slot, i] := ByteSwap(entries[p.slot, i]);
        entries[p.slot, i] := entries[p.slot, i] * job.numWorkers % WORD_MODULUS;
        entries[p.slot, i] := ByteSwap(entries[p.slot, i]);
      }
    }

    // ---------- What the loop keeps ----------

    ghost predicate EntryAt(original: seq<F>, p: DummyPacket, processed: bool, j: nat)
      requires Shape() && |original| == job.numel && p.slot < job.Batch()
      requires p.id >= job.Shift() && j < job.Length(p.id - job.Shift())
      reads entries
    {
      entries[p.slot, j] == job.Entry(original, p.id - job.Shift(), j, processed)
    }

    /** The buffer slot of p holds what its packet carries. */
    ghost predicate Filled(original: seq<F>, p: DummyPacket, processed: bool)
      requires Shape() && |original| == job.numel && p.slot < job.Batch()
      reads entries, extra
    {
      && (p.id >= job.Shift() ==>
            forall j: nat :: j < job.Length(p.id - job.Shift()) ==> EntryAt(original, p, processed, j))
      && (job.codec.Float32? && p.id < job.MainPackets() ==>
            extra[p.slot] == job.codec.exponentOf(job.Block(original, p.id)))
    }

    /** Block b has been moved to the output. */
    ghost predicate Written(done: set<DummyPacket>, b: nat)
      requires job.Valid() && job.Batch() > 0
    {
      PacketOf(b + job.Shift(), job.Batch()) in done
    }

    ghost predicate ElementAt(original: seq<F>, done: set<DummyPacket>, b: nat, j: nat)
      requires Shape() && |original| == job.numel && job.Batch() > 0 && j < job.Length(b)
      reads input, output
    {
      job.BlocksApart(b, b, j);
      if Written(done, b) then output[job.At(b, j)] == job.Reduced(original, b, j)
      else input[job.At(b, j)] == original[job.At(b, j)]
    }

    ghost predicate FactorAt(original: seq<F>, done: set<DummyPacket>, b: nat)
      requires Shape() && |original| == job.numel && job.Batch() > 0 && job.codec.Float32? && b < job.MainPackets()
      reads factors
    {
      PacketOf(b, job.Batch()) in done ==> factors[b] == job.Factor(original, b)
    }

    /** Blocks that have been moved are reduced, the others are as they were, even if the output tensor is
        the input tensor; the factors of the received exponents are in place. */
    ghost predicate Tensors(original: seq<F>, done: set<DummyPacket>)
      requires Shape() && |original| == job.numel && job.Batch() > 0
      reads input, output, factors
    {
      && (forall b, j: nat :: 0 <= b < job.MainPackets() && j < job.Length(b) ==> ElementAt(original, done, b, j))
      && (job.codec.Float32? ==> forall b :: 0 <= b < job.MainPackets() ==> FactorAt(original, done, b))
    }

    lemma TensorsStart(original: seq<F>)
      requires Shape() && original == input[..] && job.Batch() > 0
      ensures Tensors(original, {})
    {
    }

    /** What is loaded for a packet that may be created is the quantized original, and not overwritten. */
    lemma LoadsOriginal(original: seq<F>, done: set<DummyPacket>, id: nat, j: nat)
      requires Shape() && |original| == job.numel && job.Batch() > 0 && Tensors(original, done)
      requires job.Shift() <= id < job.TotalPackets() && Precedes(done, id, job.Batch())
      requires PacketOf(id, job.Batch()) !in done && j < job.Length(id - job.Shift())
      ensures Loaded(id - job.Shift(), j) == job.Quantized(original, id - job.Shift(), j)
    {
      var b := id - job.Shift();
      assert ElementAt(original, done, b, j) && !Written(done, b);
      if job.codec.Float32? {
        assert FactorAt(original, done, b);
      }
    }

    /** Nor is the block one batch ahead, whose exponent is computed. */
    lemma BlockIsOriginal(original: seq<F>, done: set<DummyPacket>, id: nat)
      requires Shape() && |original| == job.numel && job.Batch() > 0 && Tensors(original, done)
      requires job.codec.Float32? && id < job.MainPackets() && PacketOf(id + job.Batch(), job.Batch()) !in done
      ensures job.Block(input[..], id) == job.Block(original, id)
    {
      job.MainBlocks(id);
      forall j | 0 <= j < job.Length(id)
        ensures job.Block(input[..], id)[j] == job.Block(original, id)[j]
      {
        job.BlocksApart(id, id, j);
        assert ElementAt(original, done, id, j) && !Written(done, id);
      }
    }

    /** The buffers of all slots but one are as before. */
    twostate predicate OthersKept(new slot: nat)
      requires Shape()
      reads entries, extra
    {
      && (forall s, j :: 0 <= s < entries.Length0 && 0 <= j < entries.Length1 && s != slot ==>
            entries[s, j] == old(entries[s, j]))
      && (forall s :: 0 <= s < extra.Length && s != slot ==> extra[s] == old(extra[s]))
    }

    /** A pass over one slot leaves the other slots' packets alone. */
    twostate lemma OtherKept(new original: seq<F>, new slot: nat, new p: DummyPacket, new processed: bool)
      requires Shape() && |original| == job.numel && OthersKept(slot)
      requires p.slot < job.Batch() && p.slot != slot && old(Filled(original, p, processed))
      ensures Filled(original, p, processed)
    {
      if p.id >= job.Shift() {
        forall j: nat | j < job.Length(p.id - job.Shift())
          ensures EntryAt(original, p, processed, j)
        {
          assert old(EntryAt(original, p, processed, j));
        }
      }
    }

    /** What PreprocessSingle leaves in a slot is what the packet has to carry. */
    lemma CreatedIsFilled(original: seq<F>, done: set<DummyPacket>, p: DummyPacket)
      requires Shape() && |original| == job.numel && job.Batch() > 0 && Tensors(original, done)
      requires p.id < job.TotalPackets() && MayCreate(done, p.id, job.Batch()) && p.slot < job.Batch()
      requires p.id >= job.Shift() ==> p.id - job.Shift() < job.MainPackets()
      requires p.id >= job.Shift() ==> forall j :: 0 <= j < job.Length(p.id - job.Shift()) ==>
                 entries[p.slot, j] == ByteSwap(Loaded(p.id - job.Shift(), j))
      requires job.codec.Float32? && p.id < job.MainPackets() ==>
                 extra[p.slot] == job.codec.exponentOf(job.Block(input[..], p.id))
      ensures Filled(original, p, false)
    {
      if p.id >= job.Shift() {
        forall j: nat | j < job.Length(p.id - job.Shift())
          ensures EntryAt(original, p, false, j)
        {
          LoadsOriginal(original, done, p.id, j);
        }
      }
      if job.codec.Float32? && p.id < job.MainPackets() {
        BlockIsOriginal(original, done, p.id);
      }
    }

    /** What PostprocessSingle did for packet id in a slot, element by element. */
    twostate predicate UnloadedAt(new id: nat, new slot: nat, new j: nat)
      requires Shape() && slot < job.Batch() && job.Shift() <= id < job.TotalPackets()
      requires j < job.Length(id - job.Shift())
      reads output
    {
      job.BlocksApart(id - job.Shift(), id - job.Shift(), j);
      output[job.At(id - job.Shift(), j)] == old(Unloaded(entries[slot, j], id - job.Shift()))
    }

    twostate predicate OutputKept(new id: nat, new i: nat)
      requires Shape() && i < job.numel
      reads output
    {
      output[i] == old(output[i])
      || (id >= job.Shift() && 0 <= i - job.Start(id - job.Shift()) < job.Length(id - job.Shift()))
    }

    twostate predicate FactorStored(new id: nat, new slot: nat, new k: nat)
      requires Shape() && slot < job.Batch() && k < factors.Length
      reads factors
    {
      factors[k] == if job.codec.Float32? && k == id then job.codec.factor(old(extra[slot])) else old(factors[k])
    }

    /** Postprocessing a processed packet writes its block and no other. */
    twostate lemma BlockWritten(new original: seq<F>, new done: set<DummyPacket>, new p: DummyPacket)
      requires Shape() && |original| == job.numel && job.Batch() > 0 && old(Tensors(original, done))
      requires p.id < job.TotalPackets() && p == PacketOf(p.id, job.Batch())
      requires Precedes(done, p.id, job.Batch()) && old(Filled(original, p, true))
      requires p.id >= job.Shift() ==> forall j: nat ::
                 j < job.Length(p.id - job.Shift()) ==> UnloadedAt(p.id, p.slot, j)
      requires forall i: nat :: i < job.numel ==> OutputKept(p.id, i)
      requires input != output ==> forall i :: 0 <= i < job.numel ==> input[i] == old(input[i])
      requires forall k: nat :: k < factors.Length ==> FactorStored(p.id, p.slot, k)
      ensures Tensors(original, done + {p})
    {
      forall b, j: nat | 0 <= b < job.MainPackets() && j < job.Length(b)
        ensures ElementAt(original, done + {p}, b, j)
      {
        if p.id == b + job.Shift() {
          OwnElement(original, done, p, j);
        } else {
          OtherElement(original, done, p, b, j);
        }
      }
      if job.codec.Float32? {
        forall b | 0 <= b < job.MainPackets()
          ensures FactorAt(original, done + {p}, b)
        {
          assert old(FactorAt(original, done, b)) && FactorStored(p.id, p.slot, b);
        }
      }
    }

    /** What is unloaded from the slot of a processed packet is the reduced element. */
    twostate lemma OwnElement(new original: seq<F>, new done: set<DummyPacket>, new p: DummyPacket, new j: nat)
      requires Shape() && |original| == job.numel && job.Batch() > 0 && old(Tensors(original, done))
      requires job.Shift() <= p.id < job.TotalPackets() && p == PacketOf(p.id, job.Batch())
      requires j < job.Length(p.id - job.Shift()) && UnloadedAt(p.id, p.slot, j)
      requires Precedes(done, p.id, job.Batch()) && old(Filled(original, p, true))
      ensures ElementAt(original, done + {p}, p.id - job.Shift(), j)
    {
      var b := p.id - job.Shift();
      assert old(EntryAt(original, p, true, j));
      job.EntryUnloads(original, b, j);
      if job.codec.Float32? {
        assert old(FactorAt(original, done, b));
      }
    }

    twostate lemma OtherIndexKept(new id: nat, new b: nat, new j: nat)
      requires Shape() && b < job.MainPackets() && j < job.Length(b) && id != b + job.Shift()
      requires forall i: nat :: i < job.numel ==> OutputKept(id, i)
      ensures job.At(b, j) < job.numel && output[job.At(b, j)] == old(output[job.At(b, j)])
    {
      job.BlocksApart(b, b, j);
      assert OutputKept(id, job.At(b, j));
      OtherBlock(id, b, j);
    }

    twostate lemma OtherElement(new original: seq<F>, new done: set<DummyPacket>, new p: DummyPacket,
                                new b: nat, new j: nat)
      requires Shape() && |original| == job.numel && job.Batch() > 0 && old(Tensors(original, done))
      requires b < job.MainPackets() && j < job.Length(b) && p.id != b + job.Shift()
      requires forall i: nat :: i < job.numel ==> OutputKept(p.id, i)
      requires input != output ==> forall i :: 0 <= i < job.numel ==> input[i] == old(input[i])
      ensures ElementAt(original, done + {p}, b, j)
    {
      assert old(ElementAt(original, done, b, j));
      assert Written(done + {p}, b) == Written(done, b);
      OtherIndexKept(p.id, b, j);
    }

    /** The elements of other blocks are not in the range that packet id's block occupies. */
    lemma OtherBlock(id: nat, b: nat, j: nat)
      requires job.Valid() && b < job.MainPackets() && j < job.Length(b) && id != b + job.Shift()
      ensures !(id >= job.Shift() && 0 <= job.At(b, j) - job.Start(id - job.Shift()) < job.Length(id - job.Shift()))
    {
      if id >= job.Shift() {
        job.BlocksApart(b, id - job.Shift(), j);
      }
    }

    // ---------- Sending and receiving ----------

    /** Sending nothing is a fatal error, so the caller must not. */
    method SendBurst(packets: seq<DummyPacket>)
      requires |packets| > 0
      modifies this`pending, this`sent
      ensures pending == old(pending) + packets
      ensures sent == old(sent) + multiset(packets)
    {
      for i := 0 to |packets|
        invariant pending == old(pending) + packets[..i]
        invariant sent == old(sent) + multiset(packets[..i])
      {
        pending := pending + [packets[i]];
        sent := sent + multiset{packets[i]};
        assert packets[..i + 1] == packets[..i] + [packets[i]];
      }
      assert packets[..|packets|] == packets;
    }

    /** Takes one pending packet, as the backend returns it. */
    method ReceiveOne(i: nat, ghost original: seq<F>, ghost flying: set<DummyPacket>, ghost burst: seq<DummyPacket>)
      returns (p: DummyPacket)
      requires Shape() && |original| == job.numel && i < |pending| && OnePerSlot(flying, job.Batch())
      requires multiset(pending) + multiset(burst) == multiset(flying)
      requires forall q :: q in flying ==> Filled(original, q, q in burst)
      modifies this`pending, this`received, entries
      ensures p == old(pending)[i] && pending == old(pending)[..i] + old(pending)[i + 1..]
      ensures multiset(pending) + multiset(burst + [p]) == multiset(flying)
      ensures forall q :: q in flying ==> Filled(original, q, q in burst + [p])
      ensures received == old(received) + multiset{p}
    {
      p := pending[i];
      var rest := pending[..i] + pending[i + 1..];
      assert pending == pending[..i] + [p] + pending[i + 1..];
      assert multiset(rest) + multiset{p} + multiset(burst) == multiset(flying);
      assert p in multiset(flying) && p !in burst by {
        assert multiset(flying)[p] == 1;
      }
      ProcessPacket(p);
      forall q | q in flying
        ensures Filled(original, q, q in burst + [p])
      {
        if q == p {
          ProcessingFills(original, p);
        } else {
          OtherKept(original, p.slot, q, q in burst);
        }
      }
      received := received + multiset{p};
      pending := rest;
    }

    /** Receiving when nothing is pending is a fatal error, so the caller must not. How many packets
        arrive, and which, is arbitrary. */
    method ReceiveBurst(ghost original: seq<F>, ghost flying: set<DummyPacket>) returns (burst: seq<DummyPacket>)
      requires Shape() && |original| == job.numel && |pending| > 0 && OnePerSlot(flying, job.Batch())
      requires multiset(pending) == multiset(flying) && forall p :: p in flying ==> Filled(original, p, false)
      modifies this`pending, this`received, entries
      ensures multiset(pending) + multiset(burst) == multiset(flying)
      ensures forall p :: p in flying ==> Filled(original, p, p in burst)
      ensures received == old(received) + multiset(burst)
    {
      burst := [];
      var count: nat :| count <= |pending|;
      for k := 0 to count
        invariant |pending| + k == |old(pending)|
        invariant multiset(pending) + multiset(burst) == multiset(flying)
        invariant forall p :: p in flying ==> Filled(original, p, p in burst)
        invariant received == old(received) + multiset(burst)
      {
        var i: nat :| i < |pending|;
        var p := ReceiveOne(i, original, flying, burst);
        burst := burst + [p];
      }
    }

    twostate lemma ProcessingFills(new original: seq<F>, new p: DummyPacket)
      requires Shape() && |original| == job.numel && p.slot < job.Batch() && old(Filled(original, p, false))
      requires forall j :: 0 <= j < entries.Length1 ==>
                 entries[p.slot, j] == Multiplied(old(entries[p.slot, j]), job.numWorkers)
      requires extra[p.slot] == old(extra[p.slot])
      ensures Filled(original, p, true)
    {
      if p.id >= job.Shift() {
        forall j: nat | j < job.Length(p.id - job.Shift())
          ensures EntryAt(original, p, true, j)
        {
          assert old(EntryAt(original, p, false, j));
        }
      }
    }

    // ---------- The worker loop ----------

    /** Creates packet id in its slot of the buffers. */
    method CreatePacket(id: nat, ghost original: seq<F>, ghost done: set<DummyPacket>) returns (p: DummyPacket)
      requires Shape() && |original| == job.numel && job.Batch() > 0 && Tensors(original, done)
      requires id < job.TotalPackets() && MayCreate(done, id, job.Batch())
      modifies entries, extra
      ensures p == PacketOf(id, job.Batch()) && p.slot < job.Batch()
      ensures Filled(original, p, false) && OthersKept(p.slot)
    {
      p := DummyPacket(id, id % job.Batch());
      SlotIsRemainder(id, job.Batch());
      PreprocessSingle(p.id, p.slot);
      CreatedIsFilled(original, done, p);
    }

    /** What the loop does with one received packet: unloads it and reuses it for its successor, if there is one. */
    method HandlePacket(p: DummyPacket, ghost original: seq<F>, ghost done: set<DummyPacket>)
      returns (next: seq<DummyPacket>)
      requires Shape() && |original| == job.numel && job.Batch() > 0
      requires InChain(p, done, job.Batch(), job.TotalPackets())
      requires MayCreate(done + {p}, p.id + job.Batch(), job.Batch())
      requires PacketOf(p.id + job.Batch(), job.Batch()) == DummyPacket(p.id + job.Batch(), p.slot)
      requires Tensors(original, done) && p.slot < job.Batch() && Filled(original, p, true)
      modifies output, factors, entries, extra
      ensures Tensors(original, done + {p}) && OthersKept(p.slot)
      ensures multiset(next) == multiset(Successor(p, job.Batch(), job.TotalPackets()))
      ensures forall q :: q in next ==> q.slot == p.slot && Filled(original, q, false)
    {
      PostprocessSingle(p.id, p.slot);
      BlockWritten(original, done, p);
      next := [];
      var id := p.id + job.Batch();
      if id < job.TotalPackets() {
        var q := CreatePacket(id, original, done + {p});
        next := [q];
      }
    }

    /** Packets 0, 1, 2, ... have been created, one in each slot. */
    ghost predicate Created(original: seq<F>, first: seq<DummyPacket>)
      requires Shape() && |original| == job.numel && |first| <= job.Batch()
      reads entries, extra
    {
      forall k :: 0 <= k < |first| ==> first[k] == DummyPacket(k, k) && Filled(original, first[k], false)
    }

    /** Creates the next packet of the first batch. */
    method ExtendFirstBatch(ghost original: seq<F>, first: seq<DummyPacket>) returns (p: DummyPacket)
      requires Shape() && |original| == job.numel && Tensors(original, {})
      requires |first| < job.Batch() && Created(original, first)
      modifies entries, extra
      ensures p == PacketOf(|first|, job.Batch()) && Created(original, first + [p])
    {
      p := CreatePacket(|first|, original, {});
      forall k | 0 <= k < |first|
        ensures Filled(original, first[k], false)
      {
        OtherKept(original, p.slot, first[k], false);
      }
    }

    /** Creates the first batch. */
    method CreateFirstBatch(ghost original: seq<F>) returns (first: seq<DummyPacket>)
      requires Shape() && original == input[..]
      modifies entries, extra
      ensures |first| == job.Batch() > 0 && Created(original, first)
      ensures multiset(first) == multiset(PacketsBelow(job.Batch(), job.Batch()))
    {
      job.BatchFits();
      TensorsStart(original);
      first := [];
      while |first| < job.Batch()
        invariant |first| <= job.Batch() && Created(original, first) && Tensors(original, {})
        invariant multiset(first) == multiset(PacketsBelow(|first|, job.Batch()))
      {
        PacketsBelowNext(|first|, job.Batch());
        var p := ExtendFirstBatch(original, first);
        first := first + [p];
      }
    }

    ghost predicate Accounted(rest: seq<DummyPacket>, toSend: seq<DummyPacket>, flying: set<DummyPacket>,
                              done: set<DummyPacket>)
      reads this
    {
      Accounts(pending, rest, toSend, sent, received, flying, done)
    }

    /** The state while the packets in `rest` have been received but not handled. */
    ghost predicate Consistent(original: seq<F>, rest: seq<DummyPacket>, flying: set<DummyPacket>,
                               done: set<DummyPacket>)
      requires Shape() && |original| == job.numel
      reads input, output, factors, entries, extra
    {
      && 0 < job.Batch() <= job.TotalPackets()
      && Flying(flying, done, job.Batch(), job.TotalPackets()) && Tensors(original, done)
      && forall q :: q in flying ==> q.slot < job.Batch() && Filled(original, q, q in rest)
    }

    /** One turn of the inner loop. */
    method HandleNext(rest: seq<DummyPacket>, toSend: seq<DummyPacket>, ghost original: seq<F>,
                      ghost flying: set<DummyPacket>, ghost done: set<DummyPacket>)
      returns (toSend': seq<DummyPacket>, ghost flying': set<DummyPacket>, ghost done': set<DummyPacket>)
      requires Shape() && |original| == job.numel && |rest| > 0
      requires Accounted(rest, toSend, flying, done) && Consistent(original, rest, flying, done)
      modifies output, factors, entries, extra
      ensures Accounted(rest[1..], toSend', flying', done') && Consistent(original, rest[1..], flying', done')
    {
      ghost var successor := Successor(rest[0], job.Batch(), job.TotalPackets());
      var p := rest[0];
      FirstOnly(pending, rest, toSend, flying);
      MayReuse(flying, done, job.Batch(), job.TotalPackets(), p);
      assert InChain(p, done, job.Batch(), job.TotalPackets());
      var next := HandlePacket(p, original, done);
      toSend' := toSend + next;
      flying', done' := flying - {p} + successor, done + {p};
      FlyingAdvances(flying, done, job.Batch(), job.TotalPackets(), p);
      AccountsAdvance(pending, rest, toSend, sent, received, flying, done, p, next, successor);
      ConsistentAfter(original, rest, flying, done, p, next, successor);
    }

    /** What handling packet p leaves consistent. */
    twostate lemma ConsistentAfter(new original: seq<F>, new rest: seq<DummyPacket>, new flying: set<DummyPacket>,
                                   new done: set<DummyPacket>, new p: DummyPacket, new next: seq<DummyPacket>,
                                   new successor: set<DummyPacket>)
      requires Shape() && |original| == job.numel && old(Consistent(original, rest, flying, done))
      requires |rest| > 0 && p == rest[0] && p in flying && p !in rest[1..] && successor !! flying
      requires (forall q :: q in rest ==> q in flying) && OthersKept(p.slot) && Tensors(original, done + {p})
      requires multiset(next) == multiset(successor)
      requires forall q :: q in next ==> q.slot == p.slot && Filled(original, q, false)
      requires Flying(flying - {p} + successor, done + {p}, job.Batch(), job.TotalPackets())
      ensures Consistent(original, rest[1..], flying - {p} + successor, done + {p})
    {
      SameMembers(next, successor);
      StillFilled(original, rest, flying, p, next, successor);
    }

    /** The inner loop: handles the received packets one after another. */
    method HandleBurst(burst: seq<DummyPacket>, ghost original: seq<F>, ghost flying: set<DummyPacket>,
                       ghost done: set<DummyPacket>)
      returns (toSend: seq<DummyPacket>, ghost flying': set<DummyPacket>, ghost done': set<DummyPacket>)
      requires Shape() && |original| == job.numel
      requires Accounted(burst, [], flying, done) && Consistent(original, burst, flying, done)
      modifies output, factors, entries, extra
      ensures Accounted([], toSend, flying', done') && Consistent(original, [], flying', done')
    {
      toSend, flying', done' := [], flying, done;
      var rest := burst;
      while |rest| > 0
        invariant Accounted(rest, toSend, flying', done') && Consistent(original, rest, flying', done')
      {
        toSend, flying', done' := HandleNext(rest, toSend, original, flying', done');
        rest := rest[1..];
      }
    }

    /** Receives a burst. There is something to receive as long as not every packet has been received. */
    method Receive(ghost original: seq<F>, ghost flying: set<DummyPacket>, ghost done: set<DummyPacket>)
      returns (burst: seq<DummyPacket>)
      requires Shape() && |original| == job.numel && |received| != job.TotalPackets()
      requires Accounted([], [], flying, done) && Consistent(original, [], flying, done)
      modifies this`pending, this`received, entries
      ensures Accounted(burst, [], flying, done) && Consistent(original, burst, flying, done)
      ensures |received| == |old(received)| + |burst|
    {
      SomethingPending(pending, sent, received, flying, done, job.Batch(), job.TotalPackets());
      burst := ReceiveBurst(original, flying);
      AccountsReceive(old(pending), old(received), pending, burst, sent, received, flying, done);
    }

    /** One turn of the worker loop: how many packets it has received. */
    method Turn(ghost original: seq<F>, ghost flying: set<DummyPacket>, ghost done: set<DummyPacket>)
      returns (count: nat, ghost flying': set<DummyPacket>, ghost done': set<DummyPacket>)
      requires Shape() && |original| == job.numel && |received| != job.TotalPackets()
      requires Accounted([], [], flying, done) && Consistent(original, [], flying, done)
      modifies this`pending, this`sent, this`received, output, factors, entries, extra
      ensures Accounted([], [], flying', done') && Consistent(original, [], flying', done')
      ensures |received| == |old(received)| + count
    {
      flying', done' := flying, done;
      var burst := Receive(original, flying, done);
      count := |burst|;
      if |burst| == 0 {
        return;
      }
      var toSend;
      toSend, flying', done' := HandleBurst(burst, original, flying, done);
      SendAll(toSend, flying', done');
    }

    /** Sends the created packets, if there are any. */
    method SendAll(toSend: seq<DummyPacket>, ghost flying: set<DummyPacket>, ghost done: set<DummyPacket>)
      requires Accounted([], toSend, flying, done)
      modifies this`pending, this`sent
      ensures Accounted([], [], flying, done)
    {
      if |toSend| == 0 {
        return;
      }
      AccountsSend(pending, toSend, sent, received, flying, done);
      SendBurst(toSend);
    }

    ghost predicate ReducedAt(original: seq<F>, b: nat, j: nat)
      requires Shape() && |original| == job.numel && j < job.Length(b)
      reads output
    {
      job.BlocksApart(b, b, j);
      output[job.At(b, j)] == job.Reduced(original, b, j)
    }

    /** Every element of the output is the reduction of the same element of the tensor `original`. */
    ghost predicate Reduced(original: seq<F>)
      requires Shape() && |original| == job.numel
      reads output
    {
      forall b, j: nat :: 0 <= b < job.MainPackets() && j < job.Length(b) ==> ReducedAt(original, b, j)
    }

    /** For integers: every element is multiplied by the number of workers, modulo 2^32. */
    lemma EveryInteger(original: seq<F>, i: nat)
      requires Shape() && |original| == job.numel && Reduced(original) && job.codec.Int32? && i < job.numel
      ensures output[i] == job.codec.store(job.codec.load(original[i]) * job.numWorkers % WORD_MODULUS)
    {
      var b, j := job.BlocksCover(i);
      assert ReducedAt(original, b, j);
    }

    /** For floats: every element is dequantized from the multiple of its quantized value, with the factor
        of the block it is in. */
    lemma EveryFloat(original: seq<F>, i: nat) returns (b: nat)
      requires Shape() && |original| == job.numel && Reduced(original) && job.codec.Float32? && i < job.numel
      ensures b < job.MainPackets() && job.Start(b) <= i < job.Start(b) + job.packetNumel
      ensures var factor := job.Factor(original, b);
              output[i]
              == job.codec.dequantize(job.codec.quantize(original[i], factor) * job.numWorkers % WORD_MODULUS, factor)
    {
      var j;
      b, j := job.BlocksCover(i);
      assert ReducedAt(original, b, j);
    }

    /** The worker loop on one job slice, until everything has been received or the context has stopped
        running, which happens after `polls` turns. Every packet is sent and received at most once. When
        all have been received, each has been sent and received once, and the output is the reduction
        of the original input, also if the two tensors are one. */
    method AllReduce(polls: nat) returns (count: nat)
      requires Shape() && pending == [] && sent == received == multiset{}
      modifies this`pending, this`sent, this`received, output, factors, entries, extra
      ensures count == |received| <= job.TotalPackets() && job.Batch() > 0
      ensures received <= sent <= multiset(PacketsBelow(job.TotalPackets(), job.Batch()))
      ensures count == job.TotalPackets() ==>
                sent == received == multiset(PacketsBelow(job.TotalPackets(), job.Batch()))
      ensures count == job.TotalPackets() ==> Reduced(old(input[..]))
    {
      ghost var original, flying, done := input[..], {}, {};
      flying := Start(original);
      count := 0;
      var left := polls;
      while count != job.TotalPackets() && left > 0
        invariant count == |received|
        invariant Accounted([], [], flying, done) && Consistent(original, [], flying, done)
        decreases left
      {
        var more;
        more, flying, done := Turn(original, flying, done);
        count := count + more;
        left := left - 1;
      }
      Finished(original, flying, done);
    }

    lemma Finished(original: seq<F>, flying: set<DummyPacket>, done: set<DummyPacket>)
      requires Shape() && |original| == job.numel
      requires Accounted([], [], flying, done) && Consistent(original, [], flying, done)
      ensures |received| <= job.TotalPackets()
      ensures received <= sent <= multiset(PacketsBelow(job.TotalPackets(), job.Batch()))
      ensures |received| == job.TotalPackets() ==>
                sent == received == multiset(PacketsBelow(job.TotalPackets(), job.Batch())) && Reduced(original)
    {
      AccountsFinish(pending, sent, received, flying, done, job.Batch(), job.TotalPackets());
      if |received| == job.TotalPackets() {
        AllWritten(original, done);
      }
    }

    /** Creates and sends the first batch. */
    method Start(ghost original: seq<F>) returns (ghost flying: set<DummyPacket>)
      requires Shape() && pending == [] && sent == received == multiset{} && original == input[..]
      modifies this`pending, this`sent, entries, extra
      ensures Accounted([], [], flying, {}) && Consistent(original, [], flying, {})
    {
      var first := CreateFirstBatch(original);
      SendBurst(first);
      flying := PacketsBelow(job.Batch(), job.Batch());
      TensorsStart(original);
      Started(original, first);
    }

    lemma AllWritten(original: seq<F>, done: set<DummyPacket>)
      requires Shape() && |original| == job.numel && job.Batch() > 0 && Tensors(original, done)
      requires done == PacketsBelow(job.TotalPackets(), job.Batch())
      ensures Reduced(original)
    {
      forall b, j: nat | 0 <= b < job.MainPackets() && j < job.Length(b)
        ensures ReducedAt(original, b, j)
      {
        assert ElementAt(original, done, b, j);
        assert PacketOf(b + job.Shift(), job.Batch()) in done;
      }
    }

    lemma Started(original: seq<F>, first: seq<DummyPacket>)
      requires Shape() && |original| == job.numel && job.Batch() > 0 && Tensors(original, {})
      requires pending == [] + first && sent == multiset{} + multiset(first) && received == multiset{}
      requires multiset(first) == multiset(PacketsBelow(job.Batch(), job.Batch()))
      requires |first| == job.Batch() && Created(original, first)
      ensures Accounted([], [], PacketsBelow(job.Batch(), job.Batch()), {})
      ensures Consistent(original, [], PacketsBelow(job.Batch(), job.Batch()), {})
    {
      job.BatchFits();
      FlyingStart(job.Batch(), job.TotalPackets());
      SameMembers(first, PacketsBelow(job.Batch(), job.Batch()));
    }

    twostate lemma StillFilled(new original: seq<F>, new rest: seq<DummyPacket>, new flying: set<DummyPacket>,
                               new p: DummyPacket, new next: seq<DummyPacket>, new successor: set<DummyPacket>)
      requires Shape() && |original| == job.numel && OthersKept(p.slot) && OnePerSlot(flying, job.Batch())
      requires |rest| > 0 && p == rest[0] && p in flying && p !in rest[1..] && successor !! flying
      requires forall q :: q in rest ==> q in flying
      requires forall q :: q in flying ==> old(Filled(original, q, q in rest))
      requires forall q :: q in successor ==> q in next
      requires forall q :: q in next ==> q.slot == p.slot && Filled(original, q, false)
      ensures forall q :: q in flying - {p} + successor ==> q.slot < job.Batch() && Filled(original, q, q in rest[1..])
    {
      forall q | q in flying - {p} + successor
        ensures q.slot < job.Batch() && Filled(original, q, q in rest[1..])
      {
        if q in successor {
          assert q !in rest[1..];
        } else {
          assert rest == [p] + rest[1..];
          OtherKept(original, p.slot, q, q in rest);
        }
      }
    }
  }

  /** Who holds which packets: those in flight are pending in the backend, received but not handled yet,
      or about to be sent; each packet is in one place only. The handled ones are done. */
  ghost predicate Accounts(pending: seq<DummyPacket>, rest: seq<DummyPacket>, toSend: seq<DummyPacket>,
                           sent: multiset<DummyPacket>, received: multiset<DummyPacket>,
                           flying: set<DummyPacket>, done: set<DummyPacket>)
  {
    && multiset(pending) + multiset(rest) + multiset(toSend) == multiset(flying)
    && sent + multiset(toSend) == multiset(done) + multiset(flying)
    && received == multiset(done) + multiset(rest)
  }

  lemma SomethingPending(pending: seq<DummyPacket>, sent: multiset<DummyPacket>, received: multiset<DummyPacket>,
                         flying: set<DummyPacket>, done: set<DummyPacket>, batch: nat, total: nat)
    requires batch > 0 && Flying(flying, done, batch, total)
    requires Accounts(pending, [], [], sent, received, flying, done) && |received| != total
    ensures |pending| > 0 && multiset(pending) == multiset(flying)
  {
    AllDone(flying, done, batch, total);
    assert |multiset(pending)| == |multiset(flying)| == |flying|;
    assert |received| == |done|;
  }

  lemma AccountsReceive(pending: seq<DummyPacket>, received: multiset<DummyPacket>, pending': seq<DummyPacket>,
                        burst: seq<DummyPacket>, sent: multiset<DummyPacket>, received': multiset<DummyPacket>,
                        flying: set<DummyPacket>, done: set<DummyPacket>)
    requires Accounts(pending, [], [], sent, received, flying, done)
    requires multiset(pending') + multiset(burst) == multiset(flying) && received' == received + multiset(burst)
    ensures Accounts(pending', burst, [], sent, received', flying, done)
    ensures |received'| == |received| + |burst|
  {
  }

  lemma AccountsSend(pending: seq<DummyPacket>, toSend: seq<DummyPacket>, sent: multiset<DummyPacket>,
                     received: multiset<DummyPacket>, flying: set<DummyPacket>, done: set<DummyPacket>)
    requires Accounts(pending, [], toSend, sent, received, flying, done)
    ensures Accounts(pending + toSend, [], [], sent + multiset(toSend), received, flying, done)
  {
  }

  lemma AccountsFinish(pending: seq<DummyPacket>, sent: multiset<DummyPacket>, received: multiset<DummyPacket>,
                       flying: set<DummyPacket>, done: set<DummyPacket>, batch: nat, total: nat)
    requires batch > 0 && Flying(flying, done, batch, total)
    requires Accounts(pending, [], [], sent, received, flying, done)
    ensures |received| <= total && received <= sent <= multiset(PacketsBelow(total, batch))
    ensures |received| == total ==>
              done == PacketsBelow(total, batch) && sent == received == multiset(PacketsBelow(total, batch))
  {
    AllDone(flying, done, batch, total);
    assert |received| == |multiset(done)| == |done|;
    assert sent == multiset(done) + multiset(flying) == multiset(done + flying);
    assert forall p :: p in flying || p in done ==> InChain(p, done, batch, total) && p in PacketsBelow(total, batch);
  }

  lemma SameMembers(packets: seq<DummyPacket>, members: set<DummyPacket>)
    requires multiset(packets) == multiset(members)
    ensures forall q :: q in members <==> q in packets
  {
    assert forall q :: q in packets <==> q in multiset(packets);
  }

  lemma Moved(d: multiset<DummyPacket>, m: multiset<DummyPacket>, x: multiset<DummyPacket>, s: multiset<DummyPacket>)
    requires x <= m
    ensures (d + x) + (m - x + s) == d + m + s
  {
  }

  lemma AccountsAdvance(pending: seq<DummyPacket>, rest: seq<DummyPacket>, toSend: seq<DummyPacket>,
                        sent: multiset<DummyPacket>, received: multiset<DummyPacket>,
                        flying: set<DummyPacket>, done: set<DummyPacket>,
                        p: DummyPacket, next: seq<DummyPacket>, successor: set<DummyPacket>)
    requires Accounts(pending, rest, toSend, sent, received, flying, done)
    requires |rest| > 0 && p == rest[0] && p in flying && p !in done
    requires multiset(next) == multiset(successor) && successor !! flying
    ensures Accounts(pending, rest[1..], toSend + next, sent, received, flying - {p} + successor, done + {p})
  {
    assert rest == [p] + rest[1..];
    assert multiset(flying - {p} + successor) == multiset(flying) - multiset{p} + multiset(successor);
    assert multiset(done + {p}) == multiset(done) + multiset{p};
    Moved(multiset(done), multiset(flying), multiset{p}, multiset(successor));
    assert sent + multiset(toSend + next) == sent + multiset(toSend) + multiset(next);
  }

  /** The first packet of a burst is nowhere else. */
  lemma FirstOnly(pending: seq<DummyPacket>, rest: seq<DummyPacket>, toSend: seq<DummyPacket>, flying: set<DummyPacket>)
    requires |rest| > 0 && multiset(pending) + multiset(rest) + multiset(toSend) == multiset(flying)
    ensures multiset(rest) == multiset{rest[0]} + multiset(rest[1..])
    ensures rest[0] in flying && rest[0] !in rest[1..]
    ensures forall q :: q in rest ==> q in flying
  {
    assert rest == [rest[0]] + rest[1..];
    assert multiset(flying)[rest[0]] >= 1;
    forall q | q in rest
      ensures q in flying
    {
      assert multiset(flying)[q] >= multiset(rest)[q] >= 1;
    }
  }

  /** Packet id may be created: what precedes it is done, it is not, and neither is what it precedes. */
  ghost predicate MayCreate(done: set<DummyPacket>, id: nat, batch: nat)
    requires batch > 0
  {
    Precedes(done, id, batch) && PacketOf(id, batch) !in done && PacketOf(id + batch, batch) !in done
  }

  /** A received packet's successor may be created: nothing that it reads has been overwritten. */
  lemma MayReuse(flying: set<DummyPacket>, done: set<DummyPacket>, batch: nat, total: nat, p: DummyPacket)
    requires 0 < batch <= total && Flying(flying, done, batch, total) && p in flying
    ensures MayCreate(done + {p}, p.id + batch, batch)
    ensures PacketOf(p.id + batch, batch) == DummyPacket(p.id + batch, p.slot)
  {
    SuccessorIsNew(flying, done, batch, total, p);
    assert InChain(p, done, batch, total);
    var id := p.id + batch;
    assert PacketOf(id - batch, batch) == p;
    var after := PacketOf(id + batch, batch);
    assert PacketOf(after.id - batch, batch) !in done;
    assert !InChain(after, done, batch, total);
  }
}
