/** Facts about division and powers of two that the solver does not find by
    itself. */
module Arith {

  lemma MulAtLeast(a: int, d: int)
    requires a >= 1 && d > 0
    ensures a * d >= d
  {
    assert a * d == (a - 1) * d + d;
  }

  lemma MulSub(a: int, b: int, d: int)
    ensures (a - b) * d == a * d - b * d
  {
  }

  /** Quotient and remainder are unique. */
  lemma DivUnique(x: int, d: int, q: int, r: int)
    requires d > 0 && 0 <= r < d && x == q * d + r
    ensures x / d == q && x % d == r
  {
    var k := x / d;
    MulSub(q, k, d);
    if q > k {
      MulAtLeast(q - k, d);
    } else if k > q {
      MulSub(k, q, d);
      MulAtLeast(k - q, d);
    }
  }

  lemma ModStep(n: nat, step: int)
    requires step > 0
    ensures (n + step) % step == n % step
  {
    assert (n / step + 1) * step == n / step * step + step;
    DivUnique(n + step, step, n / step + 1, n % step);
  }

  lemma DivMod(v: nat, p: nat)
    requires p > 0
    ensures v / p >= 0 && 0 <= v % p < p && v == v % p + v / p * p
  {
  }

  function Pow2(k: nat): (p: nat)
    ensures p > 0
  {
    if k == 0 then 1 else 2 * Pow2(k - 1)
  }

}
