/** The ingress pipeline of the switch, for 256-byte packets: the register actions of the P4 controls
    on the register arrays, and the proof that they do to a slot what Slots says. */
module SwitchPipeline {
  import opened Slots
  import opened Bitmaps
  import opened NextStepTable

  const REGISTER_SIZE := 16384

  datatype BitmapPair = BitmapPair(first: Bitmap, second: Bitmap)
  datatype ValuePair = ValuePair(first: Word, second: Word)
  datatype ExponentPair = ExponentPair(first: Exponent, second: Exponent)

  /** The fields of switchml_md (and worker_bitmap) that the controls below read and write. */
  datatype Metadata = Metadata(packetType: PacketType, poolIndex: nat, numWorkers: nat, workerBitmap: Bitmap,
                               before: Bitmap, mapResult: Bitmap, flag: nat, e0: Exponent, e1: Exponent)

  function SetBit(poolIndex: nat): bool {
    poolIndex % 2 == 1
  }

  function Updated(pair: BitmapPair, bit: bool, worker: Bitmap): BitmapPair {
    if bit then BitmapPair(And(pair.first, Not(worker)), Or(pair.second, worker))
    else BitmapPair(Or(pair.first, worker), And(pair.second, Not(worker)))
  }

  /** The row of the tables `sum` and `exponent_max` that a packet hits. */
  datatype Row = Write | Accumulate | Read

  function RowOf(md: Metadata): Row {
    RowFor(md.before, md.mapResult)
  }

  function RowFor(before: Bitmap, mapResult: Bitmap): Row {
    if IsZero(before) then Write else if IsZero(mapResult) then Accumulate else Read
  }

  /** What a row does to the payload a set holds. */
  function RowPayload(was: Payload, sent: Payload, row: Row): Payload {
    match row
    case Write => sent
    case Accumulate => Combine(was, sent)
    case Read => was
  }

  function Stored(pair: ValuePair, v: ValuePair, row: Row): ValuePair {
    match row
    case Write => v
    case Accumulate => ValuePair((pair.first + v.first) % WORD_MODULUS, (pair.second + v.second) % WORD_MODULUS)
    case Read => pair
  }

  function StoredExponents(pair: ExponentPair, e: ExponentPair, row: Row): ExponentPair {
    match row
    case Write => e
    case Accumulate => ExponentPair(Max(pair.first, e.first), Max(pair.second, e.second))
    case Read => pair
  }

  /** The tables' rows, chosen by worker_bitmap_before and map_result, are the cases of ConsumeMine. */
  lemma RowsAreConsume(was: SetRegisters, now: SetRegisters, before: Bitmap, worker: nat, numWorkers: nat, flag: nat,
                       p: Payload)
    requires worker < WIDTH && numWorkers > 0
    requires was.bitmap == Members(before) && now.bitmap == Members(Or(before, Bit(worker)))
    requires var mapResult := And(before, Bit(worker));
             && flag == (if numWorkers == 1 then (if IsZero(mapResult) then 1 else 0) else was.count)
             && now.count == (if !IsZero(mapResult) then was.count else CountAfter(was.count, numWorkers))
             && now.values == RowPayload(was.values, p, RowFor(before, mapResult))
    ensures ConsumeMine(was, numWorkers, worker, p)
         == (now, Meta(flag, !IsZero(And(before, Bit(worker))), now.values.d1, now.values.e0))
  {
    BitOperations(before, worker);
  }

  class Pipeline {
    /** worker_bitmap, indexed by pool_index[14:1]. */
    const bitmaps: array<BitmapPair>
    /** workers_count, indexed by pool_index; only the first half of each pair is used. */
    const counts: array<nat>
    /** values of the 32 Processor instances, each indexed by pool_index. */
    const values: array2<ValuePair>
    /** exponents, indexed by pool_index. */
    const exponents: array<ExponentPair>
    const nextStep: NextStepSelector

    ghost predicate Valid()
      reads this, nextStep
    {
      && bitmaps.Length == REGISTER_SIZE / 2
      && counts.Length == exponents.Length == values.Length1 == REGISTER_SIZE
      && values.Length0 == LANES
      && nextStep.table == DEFAULT_ENTRIES
    }

    /** All registers are 0, as after a reset. */
    ghost predicate Cleared()
      requires Valid()
      reads this, nextStep, bitmaps, counts, values, exponents
    {
      && (forall i :: 0 <= i < bitmaps.Length ==> IsZero(bitmaps[i].first) && IsZero(bitmaps[i].second))
      && (forall i :: 0 <= i < REGISTER_SIZE ==> counts[i] == 0 && exponents[i] == ExponentPair(0, 0))
      && (forall k, i :: 0 <= k < LANES && 0 <= i < REGISTER_SIZE ==> values[k, i] == ValuePair(0, 0))
    }

    constructor ()
      ensures Valid() && Cleared()
      ensures fresh(bitmaps) && fresh(counts) && fresh(values) && fresh(exponents) && fresh(nextStep)
    {
      bitmaps := new BitmapPair[REGISTER_SIZE / 2](i => BitmapPair(NoBits(), NoBits()));
      counts := new nat[REGISTER_SIZE](i => 0);
      values := new ValuePair[LANES, REGISTER_SIZE]((k, i) => ValuePair(0, 0));
      exponents := new ExponentPair[REGISTER_SIZE](i => ExponentPair(0, 0));
      nextStep := new NextStepSelector();
    }

    /** One half of what the first n Processor instances hold for pool index p. */
    ghost function HalfAt(p: nat, second: bool, n: nat): (h: seq<Word>)
      requires Valid() && p < REGISTER_SIZE && n <= LANES
      reads this, nextStep, values
      ensures |h| == n
      ensures forall k :: 0 <= k < n ==> h[k] == if second then values[k, p].second else values[k, p].first
    {
      if n == 0 then []
      else HalfAt(p, second, n - 1) + [if second then values[n - 1, p].second else values[n - 1, p].first]
    }

    ghost function ValuesAt(p: nat): Payload
      requires Valid() && p < REGISTER_SIZE
      reads this, nextStep, values, exponents
    {
      Payload(HalfAt(p, false, LANES), HalfAt(p, true, LANES), exponents[p].first, exponents[p].second)
    }

    /** The set of pool index p. */
    ghost function SetAt(p: nat): SetRegisters
      requires Valid() && p < REGISTER_SIZE
      reads this, nextStep, bitmaps, counts, values, exponents
    {
      SetRegisters(Members(if SetBit(p) then bitmaps[p / 2].second else bitmaps[p / 2].first), counts[p], ValuesAt(p))
    }

    /** Slot i of the pool: pool indices 2i and 2i + 1. */
    ghost function SlotAt(i: nat): Slot
      requires Valid() && i < REGISTER_SIZE / 2
      reads this, nextStep, bitmaps, counts, values, exponents
    {
      Slot(SetAt(2 * i), SetAt(2 * i + 1))
    }

    /** UpdateAndCheckWorkerBitmap on a CONSUME0 packet. */
    method UpdateAndCheckWorkerBitmap(md: Metadata) returns (md': Metadata)
      requires Valid() && md.packetType == CONSUME0 && md.poolIndex < REGISTER_SIZE
      modifies bitmaps
      ensures bitmaps[..] == old(bitmaps[..])[md.poolIndex / 2
                  := Updated(old(bitmaps[md.poolIndex / 2]), SetBit(md.poolIndex), md.workerBitmap)]
      ensures md'.before == (if SetBit(md.poolIndex) then old(bitmaps[md.poolIndex / 2].second)
                             else old(bitmaps[md.poolIndex / 2].first))
      ensures md' == md.(before := md'.before, mapResult := And(md'.before, md.workerBitmap))
    {
      var i := md.poolIndex / 2;
      var pair := bitmaps[i];
      md' := md;
      if md.poolIndex % 2 == 0 {
        md' := md'.(before := pair.first);
        bitmaps[i] := BitmapPair(Or(pair.first, md.workerBitmap), And(pair.second, Not(md.workerBitmap)));
      } else {
        md' := md'.(before := pair.second);
        bitmaps[i] := BitmapPair(And(pair.first, Not(md.workerBitmap)), Or(pair.second, md.workerBitmap));
      }
      md' := md'.(mapResult := And(md'.before, md'.workerBitmap));
    }

    /** The register action workers_count_action. */
    method CountDown(p: nat, numWorkers: nat) returns (read: nat)
      requires Valid() && p < REGISTER_SIZE && numWorkers > 0
      modifies counts
      ensures read == old(counts[p])
      ensures counts[..] == old(counts[..])[p := CountAfter(old(counts[p]), numWorkers)]
    {
      read := counts[p];
      if counts[p] == 0 {
        counts[p] := numWorkers - 1;
      } else {
        counts[p] := counts[p] - 1;
      }
    }

    /** WorkersCounter on a CONSUME0 packet. */
    method CountWorkers(md: Metadata) returns (md': Metadata)
      requires Valid() && md.packetType == CONSUME0 && md.poolIndex < REGISTER_SIZE && md.numWorkers > 0
      modifies counts
      ensures counts[..] == if !IsZero(md.mapResult) then old(counts[..])
                            else old(counts[..])[md.poolIndex := CountAfter(old(counts[md.poolIndex]), md.numWorkers)]
      ensures md' == md.(flag := if md.numWorkers == 1 then (if IsZero(md.mapResult) then 1 else 0)
                                 else old(counts[md.poolIndex]))
    {
      var flag;
      if md.numWorkers == 1 && IsZero(md.mapResult) {
        flag := CountDown(md.poolIndex, md.numWorkers);
        flag := 1;
      } else if md.numWorkers == 1 {
        flag := 0;
      } else if IsZero(md.mapResult) {
        flag := CountDown(md.poolIndex, md.numWorkers);
      } else {
        flag := counts[md.poolIndex];
      }
      md' := md.(flag := flag);
    }

    /** Exponents: CONSUME0 packets write or accumulate both and read the first; HARVEST7 packets read the second. */
    method ApplyExponents(md: Metadata) returns (md': Metadata)
      requires Valid() && md.poolIndex < REGISTER_SIZE
      requires md.packetType == CONSUME0 || md.packetType == HARVEST7
      modifies exponents
      ensures md.packetType == HARVEST7 ==>
                exponents[..] == old(exponents[..]) && md' == md.(e1 := old(exponents[md.poolIndex]).second)
      ensures md.packetType == CONSUME0 ==>
                var was := old(exponents[md.poolIndex]);
                var now := StoredExponents(was, ExponentPair(md.e0, md.e1), RowOf(md));
                exponents[..] == old(exponents[..])[md.poolIndex := now] && md' == md.(e0 := now.first)
    {
      var p := md.poolIndex;
      if md.packetType == CONSUME0 {
        if IsZero(md.before) {
          exponents[p] := ExponentPair(md.e0, md.e1);
        } else if IsZero(md.mapResult) {
          exponents[p] := ExponentPair(Max(exponents[p].first, md.e0), Max(exponents[p].second, md.e1));
        }
        md' := md.(e0 := exponents[p].first);
      } else {
        md' := md.(e1 := exponents[p].second);
      }
    }

    /** Processor number k on a CONSUME0 packet: writes or adds both values and reads the second. */
    method ConsumeValues(k: nat, value0: Word, value1: Word, md: Metadata) returns (value1': Word)
      requires Valid() && k < LANES && md.packetType == CONSUME0 && md.poolIndex < REGISTER_SIZE
      modifies values
      ensures forall j, i :: 0 <= j < LANES && 0 <= i < REGISTER_SIZE ==>
                values[j, i] == if j == k && i == md.poolIndex
                                then Stored(old(values[j, i]), ValuePair(value0, value1), RowOf(md))
                                else old(values[j, i])
      ensures value1' == values[k, md.poolIndex].second
    {
      var p := md.poolIndex;
      if IsZero(md.before) {
        values[k, p] := ValuePair(value0, value1);
      } else if IsZero(md.mapResult) {
        values[k, p] := ValuePair((values[k, p].first + value0) % WORD_MODULUS,
                                  (values[k, p].second + value1) % WORD_MODULUS);
      }
      value1' := values[k, p].second;
    }

    /** The 32 Processor instances, one after another, on a CONSUME0 packet. */
    method ConsumeAllValues(d0: Vector, d1: Vector, md: Metadata) returns (d1': Vector)
      requires Valid() && md.packetType == CONSUME0 && md.poolIndex < REGISTER_SIZE
      modifies values
      ensures forall k, i :: 0 <= k < LANES && 0 <= i < REGISTER_SIZE ==>
                values[k, i] == if i == md.poolIndex
                                then Stored(old(values[k, i]), ValuePair(d0[k], d1[k]), RowOf(md))
                                else old(values[k, i])
      ensures d1' == ValuesAt(md.poolIndex).d1
    {
      d1' := d1;
      for n := 0 to LANES
        invariant forall k, i :: 0 <= k < LANES && 0 <= i < REGISTER_SIZE ==>
                    values[k, i] == if k < n && i == md.poolIndex
                                    then Stored(old(values[k, i]), ValuePair(d0[k], d1[k]), RowOf(md))
                                    else old(values[k, i])
        invariant forall k :: 0 <= k < n ==> d1'[k] == values[k, md.poolIndex].second
      {
        var v := ConsumeValues(n, d0[n], d1[n], md);
        d1' := d1'[n := v];
      }
    }

    /** The 32 Processor instances on a HARVEST7 packet: each reads its first value. */
    method HarvestAllValues(md: Metadata) returns (d0: Vector)
      requires Valid() && md.packetType == HARVEST7 && md.poolIndex < REGISTER_SIZE
      ensures forall k :: 0 <= k < LANES ==> d0[k] == values[k, md.poolIndex].first
    {
      d0 := ZERO.d0;
      for n := 0 to LANES
        invariant forall k :: 0 <= k < n ==> d0[k] == values[k, md.poolIndex].first
      {
        d0 := d0[n := values[n, md.poolIndex].first];
      }
    }

    /** A cleared slot is the one the protocol starts from. */
    lemma ClearedSlot(i: nat)
      requires Valid() && Cleared() && i < REGISTER_SIZE / 2
      ensures SlotAt(i) == EMPTY_SLOT
    {
      BitOperations(bitmaps[i].first, 0);
      BitOperations(bitmaps[i].second, 0);
      ClearedValues(2 * i);
      ClearedValues(2 * i + 1);
    }

    lemma ClearedValues(p: nat)
      requires Valid() && Cleared() && p < REGISTER_SIZE
      ensures ValuesAt(p) == ZERO
    {
      assert HalfAt(p, false, LANES) == ZERO.d0 && HalfAt(p, true, LANES) == ZERO.d1;
    }

    twostate lemma SameValues(new p: nat)
      requires old(Valid()) && Valid() && p < REGISTER_SIZE
      requires forall k :: 0 <= k < LANES ==> values[k, p] == old(values[k, p])
      requires exponents[p] == old(exponents[p])
      ensures ValuesAt(p) == old(ValuesAt(p))
    {
      assert HalfAt(p, false, LANES) == old(HalfAt(p, false, LANES));
      assert HalfAt(p, true, LANES) == old(HalfAt(p, true, LANES));
    }

    /** The three rows of the tables `sum` and `exponent_max` write, combine and keep the payload of the set. */
    twostate lemma ConsumedValues(new p: nat, new sent: Payload, new row: Row)
      requires old(Valid()) && Valid() && p < REGISTER_SIZE
      requires forall k :: 0 <= k < LANES ==>
                 values[k, p] == Stored(old(values[k, p]), ValuePair(sent.d0[k], sent.d1[k]), row)
      requires exponents[p] == StoredExponents(old(exponents[p]), ExponentPair(sent.e0, sent.e1), row)
      ensures ValuesAt(p) == RowPayload(old(ValuesAt(p)), sent, row)
    {
      var h0, h1 := HalfAt(p, false, LANES), HalfAt(p, true, LANES);
      match row
      case Write => assert h0 == sent.d0 && h1 == sent.d1;
      case Accumulate =>
        assert h0 == AddVectors(old(ValuesAt(p)).d0, sent.d0) && h1 == AddVectors(old(ValuesAt(p)).d1, sent.d1);
      case Read => SameValues(p);
    }

    /** What the four stages of a CONSUME0 packet do, register by register. */
    twostate predicate StagesDone(md: Metadata, md': Metadata, d0: Vector, d1: Vector, d1': Vector)
      requires old(Valid()) && Valid() && md.poolIndex < REGISTER_SIZE && md.numWorkers > 0
      reads this, nextStep, bitmaps, counts, values, exponents
    {
      var p, i := md.poolIndex, md.poolIndex / 2;
      && bitmaps[i] == Updated(old(bitmaps[i]), SetBit(p), md.workerBitmap)
      && md'.before == (if SetBit(p) then old(bitmaps[i].second) else old(bitmaps[i].first))
      && md'.mapResult == And(md'.before, md.workerBitmap)
      && md'.flag == (if md.numWorkers == 1 then (if IsZero(md'.mapResult) then 1 else 0) else old(counts[p]))
      && counts[p] == (if !IsZero(md'.mapResult) then old(counts[p]) else CountAfter(old(counts[p]), md.numWorkers))
      && ValuesAt(p) == RowPayload(old(ValuesAt(p)), Payload(d0, d1, md.e0, md.e1), RowOf(md'))
      && md'.e0 == ValuesAt(p).e0 && d1' == ValuesAt(p).d1
    }

    /** Every register but those of pool index p, and the bitmaps of its slot, is as before. */
    twostate predicate OthersKept(p: nat)
      requires old(Valid()) && Valid()
      reads this, nextStep, bitmaps, counts, values, exponents
    {
      && (forall i :: 0 <= i < REGISTER_SIZE / 2 && i != p / 2 ==> bitmaps[i] == old(bitmaps[i]))
      && (forall q :: 0 <= q < REGISTER_SIZE && q != p ==>
            counts[q] == old(counts[q]) && exponents[q] == old(exponents[q]))
      && (forall k, q :: 0 <= k < LANES && 0 <= q < REGISTER_SIZE && q != p ==> values[k, q] == old(values[k, q]))
    }

    /** The bitmap, counter, exponent and value stages on a CONSUME0 packet. */
    method ConsumeStages(md: Metadata, d0: Vector, d1: Vector) returns (md': Metadata, d1': Vector)
      requires Valid() && md.packetType == CONSUME0 && md.poolIndex < REGISTER_SIZE && md.numWorkers > 0
      modifies bitmaps, counts, values, exponents
      ensures Valid() && StagesDone(md, md', d0, d1, d1') && OthersKept(md.poolIndex)
    {
      md' := UpdateAndCheckWorkerBitmap(md);
      md' := CountWorkers(md');
      md' := ApplyExponents(md');
      d1' := ConsumeAllValues(d0, d1, md');
      ConsumedValues(md.poolIndex, Payload(d0, d1, md.e0, md.e1), RowOf(md'));
    }

    twostate lemma OtherSlotsKept(new p: nat)
      requires old(Valid()) && Valid() && p < REGISTER_SIZE && OthersKept(p)
      ensures forall i: nat :: i < REGISTER_SIZE / 2 && i != p / 2 ==> SlotAt(i) == old(SlotAt(i))
    {
      forall i: nat | i < REGISTER_SIZE / 2 && i != p / 2
        ensures SlotAt(i) == old(SlotAt(i))
      {
        SameValues(2 * i);
        SameValues(2 * i + 1);
      }
    }

    /** The pool index of the other set of the slot. */
    function Twin(p: nat): nat {
      if SetBit(p) then p - 1 else p + 1
    }

    /** The bitmap of the packet's pool index. */
    twostate lemma MineMarked(new p: nat, new worker: Bitmap, new before: Bitmap)
      requires old(Valid()) && Valid() && p < REGISTER_SIZE
      requires bitmaps[p / 2] == Updated(old(bitmaps[p / 2]), SetBit(p), worker)
      requires before == if SetBit(p) then old(bitmaps[p / 2].second) else old(bitmaps[p / 2].first)
      ensures old(SetAt(p)).bitmap == Members(before) && SetAt(p).bitmap == Members(Or(before, worker))
    {
    }

    /** The registers of the packet's pool index. */
    twostate lemma MineConsumed(new md: Metadata, new md': Metadata, new d0: Vector, new d1: Vector, new d1': Vector,
        new worker: nat)
      requires old(Valid()) && Valid() && md.poolIndex < REGISTER_SIZE && md.numWorkers > 0
      requires worker < MAX_WORKERS && md.workerBitmap == Bit(worker)
      requires StagesDone(md, md', d0, d1, d1')
      ensures ConsumeMine(old(SetAt(md.poolIndex)), md.numWorkers, worker, Payload(d0, d1, md.e0, md.e1))
           == (SetAt(md.poolIndex), Meta(md'.flag, !IsZero(md'.mapResult), d1', md'.e0))
    {
      MineMarked(md.poolIndex, md.workerBitmap, md'.before);
      var was, now := old(SetAt(md.poolIndex)), SetAt(md.poolIndex);
      assert was.count == old(counts[md.poolIndex]) && now.count == counts[md.poolIndex];
      RowsAreConsume(was, now, md'.before, worker, md.numWorkers, md'.flag, Payload(d0, d1, md.e0, md.e1));
    }

    /** The registers of the other set of the slot. */
    twostate lemma TwinConsumed(new p: nat, new worker: nat)
      requires old(Valid()) && Valid() && p < REGISTER_SIZE && worker < MAX_WORKERS
      requires bitmaps[p / 2] == Updated(old(bitmaps[p / 2]), SetBit(p), Bit(worker)) && OthersKept(p)
      ensures Twin(p) < REGISTER_SIZE && Twin(p) / 2 == p / 2
      ensures SetAt(Twin(p)) == ConsumeOther(old(SetAt(Twin(p))), worker)
    {
      var i := p / 2;
      BitOperations(old(bitmaps[i].first), worker);
      BitOperations(old(bitmaps[i].second), worker);
      SameValues(Twin(p));
    }

    /** Slot p / 2 by the pool index of one of its sets. */
    twostate lemma SlotOf(new p: nat)
      requires old(Valid()) && Valid() && p < REGISTER_SIZE
      ensures Twin(p) < REGISTER_SIZE
      ensures SlotAt(p / 2).Get(SetBit(p)) == SetAt(p) && SlotAt(p / 2).Get(!SetBit(p)) == SetAt(Twin(p))
      ensures old(SlotAt(p / 2).Get(SetBit(p)) == SetAt(p) && SlotAt(p / 2).Get(!SetBit(p)) == SetAt(Twin(p)))
    {
      var i := p / 2;
      if SetBit(p) {
        assert p == 2 * i + 1;
      } else {
        assert p == 2 * i;
      }
    }

    lemma SlotFromSets(slot: Slot, bit: bool, mine: SetRegisters, other: SetRegisters)
      requires slot.Get(bit) == mine && slot.Get(!bit) == other
      ensures forall was: Slot :: slot == was.Put(bit, mine).Put(!bit, other)
    {
    }

    twostate lemma StagesAreConsume(new md: Metadata, new md': Metadata, new d0: Vector, new d1: Vector,
        new d1': Vector, new worker: nat)
      requires old(Valid()) && Valid() && md.poolIndex < REGISTER_SIZE && md.numWorkers > 0
      requires worker < MAX_WORKERS && md.workerBitmap == Bit(worker)
      requires StagesDone(md, md', d0, d1, d1') && OthersKept(md.poolIndex)
      ensures var (slot', meta) := Consume(old(SlotAt(md.poolIndex / 2)), md.numWorkers, worker, SetBit(md.poolIndex),
                                           Payload(d0, d1, md.e0, md.e1));
              SlotAt(md.poolIndex / 2) == slot' && Meta(md'.flag, !IsZero(md'.mapResult), d1', md'.e0) == meta
    {
      var p := md.poolIndex;
      MineConsumed(md, md', d0, d1, d1', worker);
      TwinConsumed(p, worker);
      SlotOf(p);
      SlotFromSets(SlotAt(p / 2), SetBit(p), SetAt(p), SetAt(Twin(p)));
    }

    /** Ingress.apply on a CONSUME0 packet of the worker whose bit is in the metadata, from the bitmap check to
        the next step. The packet's slot becomes what Consume says, and no other slot changes. */
    method IngressConsume(md: Metadata, d0: Vector, d1: Vector, worker: nat)
      returns (md': Metadata, d1': Vector, next: Decision)
      requires Valid() && md.packetType == CONSUME0 && md.poolIndex < REGISTER_SIZE && md.numWorkers > 0
      requires worker < MAX_WORKERS && md.workerBitmap == Bit(worker)
      modifies bitmaps, counts, values, exponents
      ensures Valid()
      ensures var (slot', meta) := Consume(old(SlotAt(md.poolIndex / 2)), md.numWorkers, worker, SetBit(md.poolIndex),
                                           Payload(d0, d1, md.e0, md.e1));
              && SlotAt(md.poolIndex / 2) == slot'
              && Meta(md'.flag, !IsZero(md'.mapResult), d1', md'.e0) == meta
              && next == AfterConsume(meta.flag, meta.seen)
      ensures forall i: nat :: i < REGISTER_SIZE / 2 && i != md.poolIndex / 2 ==> SlotAt(i) == old(SlotAt(i))
    {
      md', d1' := ConsumeStages(md, d0, d1);
      next := nextStep.Select(CONSUME0, md'.flag, !IsZero(md'.mapResult));
      StagesAreConsume(md, md', d0, d1, d1', worker);
      OtherSlotsKept(md.poolIndex);
    }

    /** Ingress.apply on a HARVEST7 packet: the first half of the sum, the second exponent, and the next step. */
    method IngressHarvest(md: Metadata) returns (md': Metadata, d0: Vector, next: Decision)
      requires Valid() && md.packetType == HARVEST7 && md.poolIndex < REGISTER_SIZE
      modifies exponents
      ensures Valid() && exponents[..] == old(exponents[..])
      ensures forall i: nat :: i < REGISTER_SIZE / 2 ==> SlotAt(i) == old(SlotAt(i))
      ensures md' == md.(e1 := md'.e1) && (d0, md'.e1) == Harvested(SlotAt(md.poolIndex / 2), SetBit(md.poolIndex))
      ensures next == AfterHarvest(md.flag, !IsZero(md.mapResult))
    {
      md' := ApplyExponents(md);
      d0 := HarvestAllValues(md');
      next := nextStep.Select(HARVEST7, md'.flag, !IsZero(md'.mapResult));
      OtherSlotsKept(md.poolIndex);
      HarvestedSlot(md.poolIndex, d0);
    }

    twostate lemma HarvestedSlot(new p: nat, new d0: Vector)
      requires old(Valid()) && Valid() && p < REGISTER_SIZE
      requires bitmaps[..] == old(bitmaps[..]) && counts[..] == old(counts[..]) && exponents[..] == old(exponents[..])
      requires forall k, q :: 0 <= k < LANES && 0 <= q < REGISTER_SIZE ==> values[k, q] == old(values[k, q])
      requires forall k :: 0 <= k < LANES ==> d0[k] == values[k, p].first
      ensures SlotAt(p / 2) == old(SlotAt(p / 2))
      ensures (d0, exponents[p].second) == Harvested(SlotAt(p / 2), SetBit(p))
    {
      var i := p / 2;
      assert forall q :: 0 <= q < REGISTER_SIZE ==> exponents[q] == old(exponents[..])[q];
      assert bitmaps[i] == old(bitmaps[..])[i];
      assert counts[2 * i] == old(counts[..])[2 * i] && counts[2 * i + 1] == old(counts[..])[2 * i + 1];
      SameValues(2 * i);
      SameValues(2 * i + 1);
      assert d0 == ValuesAt(p).d0;
      assert p == 2 * i + if SetBit(p) then 1 else 0;
    }
  }
}
