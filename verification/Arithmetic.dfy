/** What several components need about 32-bit counters and products. */
module Arithmetic {
  const UINT32 := 0x1_0000_0000

  lemma MulMonotone(a: int, b: int, w: nat)
    ensures a >= b ==> a * w >= b * w
  {
    assert a * w - b * w == (a - b) * w;
  }
}
