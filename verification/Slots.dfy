/** The state of one aggregation slot of the switch and what one packet does to it.

    A slot has two sets of registers, picked by the lowest bit of the pool index.
    For each set the switch keeps a bitmap of the workers that contributed, a
    countdown counter, one accumulator per value and two exponent accumulators.
    This module says what the two pipeline passes compute, with bitmaps as sets
    of worker ids; SwitchPipeline refines it with the registers of the P4 program. */
module Slots {

  const MAX_WORKERS := 32

  /** Instances of the Processor control, value00 to value31; each handles one value of d0 and one of d1. */
  const LANES := 32

  const WORD_MODULUS := 0x1_0000_0000

  /** bit<32>: a register value; addition wraps. */
  type Word = x: int | 0 <= x < WORD_MODULUS

  /** int<8> */
  type Exponent = x: int | -128 <= x < 128

  type Vector = v: seq<Word> | |v| == LANES witness seq(LANES, i => 0)

  /** Two halves of 128 bytes and two exponents: what a 256-byte packet carries. */
  datatype Payload = Payload(d0: Vector, d1: Vector, e0: Exponent, e1: Exponent)

  const ZERO: Payload := Payload(seq(LANES, i => 0), seq(LANES, i => 0), 0, 0)

  function Max(a: Exponent, b: Exponent): Exponent {
    if a < b then b else a
  }

  function AddVectors(a: Vector, b: Vector): Vector {
    seq(LANES, i requires 0 <= i < LANES => (a[i] + b[i]) % WORD_MODULUS)
  }

  /** Lane-wise wrapping sum, and maximum of the exponents. */
  function Combine(a: Payload, b: Payload): Payload {
    Payload(AddVectors(a.d0, b.d0), AddVectors(a.d1, b.d1), Max(a.e0, b.e0), Max(a.e1, b.e1))
  }

  /** The registers of one set. */
  datatype SetRegisters = SetRegisters(bitmap: set<nat>, count: nat, values: Payload)

  datatype Slot = Slot(zero: SetRegisters, one: SetRegisters) {
    function Get(bit: bool): SetRegisters {
      if bit then one else zero
    }

    function Put(bit: bool, r: SetRegisters): Slot {
      if bit then this.(one := r) else this.(zero := r)
    }
  }

  const EMPTY_SLOT: Slot := Slot(SetRegisters({}, 0, ZERO), SetRegisters({}, 0, ZERO))

  /** What the packet carries from the CONSUME0 pass to the next-step table and, when recirculated,
      to the HARVEST7 pass: the first-last flag, whether the bitmap already had the worker's bit,
      and the parts of the sum that CONSUME0 can read. */
  datatype Meta = Meta(flag: nat, seen: bool, d1: Vector, e0: Exponent)

  datatype Decision = Recirculate | FinishConsume | Broadcast | Retransmit | Drop

  function CountAfter(count: nat, numWorkers: nat): nat
    requires numWorkers > 0
  {
    if count == 0 then numWorkers - 1 else count - 1
  }

  /** What a CONSUME0 pass does to the set named in the packet, and what it reads. */
  function ConsumeMine(mine: SetRegisters, numWorkers: nat, worker: nat, p: Payload): (SetRegisters, Meta)
    requires numWorkers > 0
  {
    var seen := worker in mine.bitmap;
    var flag := if numWorkers == 1 then (if seen then 0 else 1) else mine.count;
    var values := if mine.bitmap == {} then p else if !seen then Combine(mine.values, p) else mine.values;
    var count := if seen then mine.count else CountAfter(mine.count, numWorkers);
    (SetRegisters(mine.bitmap + {worker}, count, values), Meta(flag, seen, values.d1, values.e0))
  }

  /** What it does to the other set. */
  function ConsumeOther(other: SetRegisters, worker: nat): SetRegisters {
    other.(bitmap := other.bitmap - {worker})
  }

  /** The CONSUME0 pass. */
  function Consume(slot: Slot, numWorkers: nat, worker: nat, bit: bool, p: Payload): (Slot, Meta)
    requires numWorkers > 0
  {
    var (mine', meta) := ConsumeMine(slot.Get(bit), numWorkers, worker, p);
    (slot.Put(bit, mine').Put(!bit, ConsumeOther(slot.Get(!bit), worker)), meta)
  }

  /** The first half of the sum and the second exponent, as the HARVEST7 pass reads them. */
  function Harvested(slot: Slot, bit: bool): (Vector, Exponent) {
    (slot.Get(bit).values.d0, slot.Get(bit).values.e1)
  }

  function AfterConsume(flag: nat, seen: bool): Decision {
    if flag == 1 then Recirculate
    else if !seen then FinishConsume
    else if flag == 0 then Recirculate
    else Drop
  }

  function AfterHarvest(flag: nat, seen: bool): Decision {
    if flag == 1 && !seen then Broadcast
    else if flag == 0 && seen then Retransmit
    else Drop
  }
}
