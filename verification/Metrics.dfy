/** The 64-bit link metrics of the routing layer and their arithmetic. */
module Metrics {
  const UINT64 := 0x1_0000_0000_0000_0000

  type NFMetric = m: nat | m < UINT64

  const INFINITE: NFMetric := 0xFFFF_FFFF_FFFF_FFFF

  /** The distance every node but the first starts from: INFINITE / 3. */
  const UNREACHED: NFMetric := 0x5555_5555_5555_5555

  /** Unsigned 64-bit addition, which wraps around. */
  function Plus(a: NFMetric, b: NFMetric): NFMetric {
    (a + b) % UINT64
  }

  /** The largest weight that can be added to any distance in use without wrapping. */
  const MAX_WEIGHT: NFMetric := 2 * UNREACHED

  /** Adding a weight to every distance in use is exact if and only if the weight is at most
      2 * (INFINITE / 3): the bound the correctness results below ask of an adjacency list. */
  lemma PlusExactIffBounded(w: NFMetric)
    ensures UNREACHED == INFINITE / 3
    ensures (forall d: NFMetric | d <= UNREACHED :: Plus(d, w) == d + w) <==> w <= MAX_WEIGHT
  {
    if w > MAX_WEIGHT {
      assert Plus(UNREACHED, w) != UNREACHED + w;
    }
  }
}
