/** The worker bitmaps of the switch: bit<32> with its bitwise operations, bit by bit. */
module Bitmaps {

  const WIDTH := 32

  type Bitmap = b: seq<bool> | |b| == WIDTH witness seq(WIDTH, i => false)

  function NoBits(): Bitmap {
    seq(WIDTH, i => false)
  }

  predicate IsZero(b: Bitmap) {
    forall i :: 0 <= i < WIDTH ==> !b[i]
  }

  function Or(a: Bitmap, b: Bitmap): Bitmap {
    seq(WIDTH, i requires 0 <= i < WIDTH => a[i] || b[i])
  }

  function And(a: Bitmap, b: Bitmap): Bitmap {
    seq(WIDTH, i requires 0 <= i < WIDTH => a[i] && b[i])
  }

  function Not(a: Bitmap): Bitmap {
    seq(WIDTH, i requires 0 <= i < WIDTH => !a[i])
  }

  /** 1 << w */
  function Bit(w: nat): Bitmap
    requires w < WIDTH
  {
    seq(WIDTH, i => i == w)
  }

  function MembersBelow(b: Bitmap, k: nat): (s: set<nat>)
    requires k <= WIDTH
    ensures forall w: nat :: w in s <==> w < k && b[w]
  {
    if k == 0 then {} else MembersBelow(b, k - 1) + if b[k - 1] then {k - 1} else {}
  }

  /** The workers whose bit is set. */
  function Members(b: Bitmap): set<nat> {
    MembersBelow(b, WIDTH)
  }

  /** Setting a worker's bit, clearing it and testing it, on sets. */
  lemma BitOperations(b: Bitmap, w: nat)
    requires w < WIDTH
    ensures Members(Or(b, Bit(w))) == Members(b) + {w}
    ensures Members(And(b, Not(Bit(w)))) == Members(b) - {w}
    ensures IsZero(And(b, Bit(w))) <==> w !in Members(b)
    ensures IsZero(b) <==> Members(b) == {}
  {
    if w in Members(b) {
      assert And(b, Bit(w))[w];
    }
    if Members(b) == {} {
      forall i | 0 <= i < WIDTH
        ensures !b[i]
      {
        assert i !in Members(b);
      }
    }
  }
}
