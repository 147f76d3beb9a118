/**
 * The bit arithmetic of a relay update: the masks for one output bit and the
 * new output-latch byte computed from the byte read back from the chip.
 */
module Latch {

  /** Position of an output inside one 8-bit half of the port. */
  type BitIndex = k: bv8 | k < 8

  /** Bit i of b is set. */
  predicate Bit(b: bv8, i: BitIndex)
  {
    (b >> i) & 1 == 1
  }

  /** The mask with only bit k set. */
  function SetMask(k: BitIndex): (m: bv8)
    ensures Bit(m, k)
    ensures forall i: BitIndex :: i != k ==> !Bit(m, i)
  {
    1 << k
  }

  /** The mask with every bit but k set: the set mask with all eight bits flipped. */
  function ClearMask(k: BitIndex): (m: bv8)
    ensures m == !SetMask(k)
    ensures m & SetMask(k) == 0 && m | SetMask(k) == 0xFF
  {
    SetMask(k) ^ 0xFF
  }

  /**
   * The latch byte after driving output k: bit k is on exactly when value is
   * nonzero, and the other seven bits are those of prev.
   */
  function NewLatch(prev: bv8, k: BitIndex, value: bv8): (next: bv8)
    ensures Bit(next, k) <==> value != 0
    ensures forall i: BitIndex :: i != k ==> (Bit(next, i) <==> Bit(prev, i))
  {
    if value == 0 then prev & ClearMask(k) else prev | SetMask(k)
  }

  /** Only the last update of an output matters; in particular an update is idempotent. */
  lemma NewLatchLastWins(prev: bv8, k: BitIndex, first: bv8, second: bv8)
    ensures NewLatch(NewLatch(prev, k, first), k, second) == NewLatch(prev, k, second)
    ensures NewLatch(NewLatch(prev, k, first), k, first) == NewLatch(prev, k, first)
  {
  }

  /** Switching an output on and then off restores a byte in which it was off. */
  lemma OnThenOffRestores(prev: bv8, k: BitIndex)
    requires !Bit(prev, k)
    ensures NewLatch(NewLatch(prev, k, 1), k, 0) == prev
  {
  }

  /** Two worked bytes: output 3 on and off from 0x00, and output 5 off from 0xA0. */
  lemma LatchExamples()
    ensures NewLatch(0x00, 3, 1) == 0x08 && NewLatch(0x08, 3, 0) == 0x00
    ensures NewLatch(0xA0, 5, 0) == 0x80
  {
  }
}
