/** The power-of-two helpers of cldm_algo.c, on 32-bit words. */
module Bits {
  function Smear(x: bv32): bv32 {
    var a := x | (x >> 1);
    var b := a | (a >> 2);
    var c := b | (b >> 4);
    var d := c | (c >> 8);
    d | (d >> 16)
  }

  /** cldm_flp232 */
  function Flp232(x: bv32): bv32 { var s := Smear(x); s - (s >> 1) }

  /** cldm_clp232 */
  function Clp232(x: bv32): bv32 { Smear(x - 1) + 1 }

  predicate PowerOfTwo(x: bv32) { x != 0 && x & (x - 1) == 0 }

  /** The largest power of two not above `x`. */
  lemma FlpIsFloor(x: bv32)
    requires x != 0
    ensures PowerOfTwo(Flp232(x)) && Flp232(x) <= x && x - Flp232(x) < Flp232(x)
  {
  }

  /** The smallest power of two not below `x`, as long as one fits; otherwise it wraps to zero. */
  lemma ClpIsCeiling(x: bv32)
    ensures 1 <= x <= 0x8000_0000 ==>
      PowerOfTwo(Clp232(x)) && x <= Clp232(x) && Clp232(x) >> 1 < x
    ensures x == 0 || x > 0x8000_0000 ==> Clp232(x) == 0
  {
  }
}
