/** Powers of two. */
module Powers {

  function Pow2(k: nat): (p: nat)
    ensures p > 0
  {
    if k == 0 then 1 else 2 * Pow2(k - 1)
  }

  lemma {:induction false} Pow2Grows(low: nat, high: nat)
    requires low < high
    ensures Pow2(low) < Pow2(high)
  {
    if low + 1 < high {
      Pow2Grows(low, high - 1);
    }
  }

  /** `n & (n - 1) == 0` for a positive `n`. */
  predicate IsPowerOfTwo(n: int) {
    n == 1 || (n > 1 && n % 2 == 0 && IsPowerOfTwo(n / 2))
  }

  lemma {:induction false} PowerOfTwoHeight(n: int) returns (k: nat)
    requires IsPowerOfTwo(n)
    ensures n == Pow2(k)
  {
    if n == 1 {
      k := 0;
    } else {
      var h := PowerOfTwoHeight(n / 2);
      k := h + 1;
    }
  }
}
