/** Multiplication by repeated addition, for proofs by induction on a count. */
module Multiples {

  /** k copies of x added up. */
  function Times(k: nat, x: int): int {
    if k == 0 then 0 else Times(k - 1, x) + x
  }

  lemma {:induction false} TimesIsProduct(k: nat, x: int)
    ensures Times(k, x) == k * x
    ensures x >= 0 ==> Times(k, x) >= 0
    decreases k
  {
    if k > 0 {
      TimesIsProduct(k - 1, x);
      assert k * x == (k - 1) * x + x;
    }
  }
}
