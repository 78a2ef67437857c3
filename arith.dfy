/** Integer facts about Euclidean division that the grid code relies on. */
module Arith {

  lemma MulBounds(d: int, b: int)
    requires b > 0
    ensures d >= 1 ==> d * b >= b
    ensures d <= -1 ==> d * b <= -b
    ensures d == 0 ==> d * b == 0
  {
  }

  /** Quotient and remainder are determined by any decomposition n == q * b + r with 0 <= r < b. */
  lemma DivModUnique(n: int, b: int, q: int, r: int)
    requires b > 0 && 0 <= r < b && n == q * b + r
    ensures n / b == q && n % b == r
  {
    var q0, r0 := n / b, n % b;
    assert n == q0 * b + r0;
    var d := q - q0;
    assert d * b == r0 - r by { assert q * b - q0 * b == (q - q0) * b; }
    MulBounds(d, b);
  }

  /** A positive product of natural numbers has positive factors. */
  lemma PositiveFactors(a: nat, b: nat)
    requires a * b > 0
    ensures a > 0 && b > 0
  {
  }

  lemma NaturalProduct(a: nat, b: nat)
    ensures a * b >= 0
  {
  }
}
