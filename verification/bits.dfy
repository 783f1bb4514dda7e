/** Bit-level views of the unsigned words the decoder works with. Bits are
    counted from the least significant end, as the decoder's masks do. */
module Bits {

  /** Bit k of a 16-bit value is set. */
  predicate Bit16(x: bv16, k: bv8)
    requires k < 16
  {
    (x >> k) & 1 == 1
  }

  /** Bit k of a 32-bit word is set. */
  predicate Bit32(x: bv32, k: bv8)
    requires k < 32
  {
    (x >> k) & 1 == 1
  }

  /** The unsigned value of a 32-bit word, summed bit by bit from the least
      significant end. Lengths and offsets are natural numbers; this is how
      a length word read from a record becomes one. */
  function WordValue(w: bv32): (v: nat)
    ensures v % 2 == 1 <==> Bit32(w, 0)
    ensures v == 0 <==> w == 0
    decreases w
  {
    if w == 0 then 0
    else (if w & 1 == 1 then 1 else 0) + 2 * WordValue(w >> 1)
  }
}
