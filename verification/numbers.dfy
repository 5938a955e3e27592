/** Powers of two and 32-bit machine arithmetic. */
module Numbers {

  const WRAP: nat := 0x1_0000_0000

  function Pow2(n: nat): nat { if n == 0 then 1 else 2 * Pow2(n - 1) }

  /** Whole turns of the counter do not show. */
  lemma WholeTurns(a: int, k: int)
    ensures (a + WRAP * k) % WRAP == a % WRAP
  {
  }

  /** A 32-bit decimal accumulator holds the true number modulo 2^32. */
  lemma AccumulatorWraps(x: nat, d: nat)
    ensures ((x % WRAP) * 10 + d) % WRAP == (10 * x + d) % WRAP
  {
    var q, r := x / WRAP, x % WRAP;
    assert 10 * x + d == (10 * r + d) + WRAP * (10 * q);
    WholeTurns(10 * r + d, 10 * q);
  }
}
