/** Integer facts the solver does not find on its own, stated once for every module. */
module Arith {
  /** Multiplying by a non-negative factor keeps the order. */
  lemma MulMonotone(x: int, y: int, z: int)
    requires z >= 0
    ensures x >= y ==> x * z >= y * z
  {
  }
}
