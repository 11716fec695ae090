/** One job slice of the dummy all-reduce: how the tensor is cut into packets, what each packet carries,
    and what has to end up in the output. */
module AllReduceJobs {
  import opened Basics
  import opened Slots

  const ELEMENT_SIZE := 4

  /** htonl and ntohl on a little-endian host, and the backend's SWAP_INT32. */
  function ByteSwap(w: Word): Word {
    (w % 0x100) * 0x100_0000 + (w / 0x100 % 0x100) * 0x1_0000 + (w / 0x1_0000 % 0x100) * 0x100 + w / 0x100_0000
  }

  /** The bytes of a word, from its value. */
  lemma Bytes(w: Word, b0: nat, b1: nat, b2: nat, b3: nat)
    requires b0 < 0x100 && b1 < 0x100 && b2 < 0x100 && b3 < 0x100
    requires w == b0 + 0x100 * (b1 + 0x100 * (b2 + 0x100 * b3))
    ensures ByteSwap(w) == b3 + 0x100 * (b2 + 0x100 * (b1 + 0x100 * b0))
  {
    LowByte(w, b0, b1 + 0x100 * (b2 + 0x100 * b3));
    LowByte(w / 0x100, b1, b2 + 0x100 * b3);
    LowByte(w / 0x100 / 0x100, b2, b3);
    assert w / 0x1_0000 == w / 0x100 / 0x100;
    assert w / 0x100_0000 == w / 0x100 / 0x100 / 0x100;
  }

  lemma LowByte(w: nat, b: nat, rest: nat)
    requires b < 0x100 && w == b + 0x100 * rest
    ensures w % 0x100 == b && w / 0x100 == rest
  {
  }

  lemma ByteSwapTwice(w: Word)
    ensures ByteSwap(ByteSwap(w)) == w
  {
    var q1 := w / 0x100;
    var q2 := q1 / 0x100;
    var b0, b1, b2, b3 := w % 0x100, q1 % 0x100, q2 % 0x100, q2 / 0x100;
    assert w == b0 + 0x100 * (b1 + 0x100 * (b2 + 0x100 * b3));
    Bytes(w, b0, b1, b2, b3);
    Bytes(ByteSwap(w), b3, b2, b1, b0);
  }

  lemma RoundUp(n: nat, d: nat, b: nat)
    requires d > 0 && n > 0
    ensures b < (n + d - 1) / d <==> b * d < n
  {
    var top := n + d - 1;
    var m := top / d;
    assert top == m * d + top % d;
    if b < m {
      Steps(b, m, d);
    } else {
      Steps(m, b + 1, d);
    }
  }

  /** What the backend does to an entry: a 32-bit multiplication in host byte order. */
  function Multiplied(entry: Word, numWorkers: nat): Word {
    ByteSwap(ByteSwap(entry) * numWorkers % WORD_MODULUS)
  }

  /** The data types of a job, with the per-element arithmetic of the prepostprocessor. */
  datatype Codec<!F, !S> =
    | Int32(load: F -> Word, store: Word -> F)
    | Float32(exponentOf: seq<F> -> Exponent, factor: Exponent -> S, quantize: (F, S) -> Word,
              dequantize: (Word, S) -> F)

  datatype Job<!F, !S> = Job(codec: Codec<F, S>, numel: nat, packetNumel: nat, maxOutstanding: nat, numWorkers: nat) {
    predicate Valid() {
      numel > 0 && packetNumel > 0 && maxOutstanding > 0
    }

    /** SetupJobSlice: the tensor's bytes over a packet's bytes, rounded up. */
    function MainPackets(): (m: nat)
      requires Valid()
    {
      (numel * ELEMENT_SIZE + packetNumel * ELEMENT_SIZE - 1) / (packetNumel * ELEMENT_SIZE)
    }

    function Batch(): nat
      requires Valid()
    {
      if maxOutstanding < MainPackets() then maxOutstanding else MainPackets()
    }

    /** How far a packet's id is ahead of the block it carries: floats need an extra batch for the exponents. */
    function Shift(): nat
      requires Valid()
    {
      if codec.Float32? then Batch() else 0
    }

    function TotalPackets(): nat
      requires Valid()
    {
      MainPackets() + Shift()
    }

    /** Where block b starts. */
    function Start(b: nat): nat {
      if b == 0 then 0 else Start(b - 1) + packetNumel
    }

    lemma {:induction false} StartClosed(b: nat)
      ensures Start(b) == b * packetNumel
    {
      if b > 0 {
        StartClosed(b - 1);
        assert (b - 1) * packetNumel + packetNumel == b * packetNumel;
      }
    }

    lemma {:induction false} StartsApart(b: nat, c: nat)
      requires b < c
      ensures Start(b) + packetNumel <= Start(c)
    {
      if b < c - 1 {
        StartsApart(b, c - 1);
      }
    }

    /** Element j of block b. */
    function At(b: nat, j: nat): nat {
      Start(b) + j
    }

    function Length(b: nat): nat {
      if Start(b) >= numel then 0
      else if packetNumel < numel - Start(b) then packetNumel
      else numel - Start(b)
    }

    /** The blocks of the main packets are the non-empty ones. */
    lemma MainBlocks(b: nat)
      requires Valid()
      ensures b < MainPackets() <==> Start(b) < numel
      ensures b < MainPackets() <==> Length(b) > 0
    {
      RoundUp(numel * ELEMENT_SIZE, packetNumel * ELEMENT_SIZE, b);
      StartClosed(b);
      assert b * (packetNumel * ELEMENT_SIZE) == b * packetNumel * ELEMENT_SIZE;
    }

    lemma BatchFits()
      requires Valid()
      ensures 0 < Batch() <= MainPackets() && Batch() <= maxOutstanding
    {
      MainBlocks(0);
    }

    /** Different blocks do not overlap, and each is inside the tensor. */
    lemma BlocksApart(b: nat, c: nat, j: nat)
      requires j < Length(b)
      ensures At(b, j) < numel
      ensures b != c ==> !(Start(c) <= At(b, j) < Start(c) + Length(c))
    {
      if b < c {
        StartsApart(b, c);
      } else if c < b {
        StartsApart(c, b);
      }
    }

    /** Every element is in exactly one block. */
    lemma BlocksCover(i: nat) returns (b: nat, j: nat)
      requires Valid() && i < numel
      ensures b < MainPackets() && j < Length(b) && i == At(b, j)
    {
      b, j := i / packetNumel, i % packetNumel;
      assert i == b * packetNumel + j;
      StartClosed(b);
      MainBlocks(b);
    }

    ghost function Block(input: seq<F>, b: nat): seq<F>
      requires |input| == numel
    {
      if Start(b) < numel then input[Start(b)..Start(b) + Length(b)] else []
    }

    /** The scaling factor of a block. */
    ghost function Factor(input: seq<F>, b: nat): S
      requires |input| == numel && codec.Float32?
    {
      codec.factor(codec.exponentOf(Block(input, b)))
    }

    /** The integer that stands for an element on the wire, in host byte order. */
    ghost function Quantized(input: seq<F>, b: nat, j: nat): Word
      requires |input| == numel && j < Length(b)
    {
      BlocksApart(b, b, j);
      match codec
      case Int32(load, _) => load(input[At(b, j)])
      case Float32(_, _, quantize, _) => quantize(input[At(b, j)], Factor(input, b))
    }

    /** What the all-reduce has to return for an element: every worker contributed the same tensor. */
    ghost function Reduced(input: seq<F>, b: nat, j: nat): F
      requires |input| == numel && j < Length(b)
    {
      var sum := Quantized(input, b, j) * numWorkers % WORD_MODULUS;
      match codec
      case Int32(_, store) => store(sum)
      case Float32(_, _, _, dequantize) => dequantize(sum, Factor(input, b))
    }

    /** An entry of block b in a buffer, before and after the backend has processed it. */
    ghost function Entry(input: seq<F>, b: nat, j: nat, processed: bool): Word
      requires |input| == numel && j < Length(b)
    {
      var e := ByteSwap(Quantized(input, b, j));
      if processed then Multiplied(e, numWorkers) else e
    }

    /** Byte order cancels out: a processed entry unloads to the reduced element. */
    lemma EntryUnloads(input: seq<F>, b: nat, j: nat)
      requires |input| == numel && j < Length(b)
      ensures ByteSwap(Entry(input, b, j, true)) == Quantized(input, b, j) * numWorkers % WORD_MODULUS
    {
      ByteSwapTwice(Quantized(input, b, j));
      ByteSwapTwice(Quantized(input, b, j) * numWorkers % WORD_MODULUS);
    }
  }
}
