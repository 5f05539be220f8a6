/** Facts about natural numbers. */
module Arithmetic {
  /** The range of a 32-bit counter. */
  const U32: nat := 0x1_0000_0000

  function Max(a: nat, b: nat): nat {
    if a < b then b else a
  }

  /** `k` times `n`, added up one by one. */
  function Times(k: nat, n: nat): nat {
    if k == 0 then 0 else Times(k - 1, n) + n
  }

  lemma {:induction false} TimesIsProduct(k: nat, n: nat)
    ensures Times(k, n) == k * n
  {
    if k > 0 {
      TimesIsProduct(k - 1, n);
    }
  }

  lemma MulPositive(a: nat, b: nat)
    requires 0 < a && 0 < b
    ensures 0 < a * b
  {
  }

  lemma MulMonotone(a: nat, b: nat, u: nat)
    requires a <= b
    ensures a * u <= b * u
  {
  }

  lemma Unfold(k: nat, n: nat)
    requires 0 < k
    ensures (k - 1) * n + n == k * n
  {
  }
}
