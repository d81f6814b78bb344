/** Integer facts about division, remainder and products that the index
    arithmetic of the transform relies on. */
module Arith {

  /** a / d and a % d as functions of their own, so that the verifier treats a
      compound divisor such as 2 * half as one term. */
  function Quotient(a: nat, d: nat): nat
    requires d >= 1
  {
    a / d
  }

  function Remainder(a: nat, d: nat): (r: nat)
    requires d >= 1
    ensures r < d
  {
    a % d
  }

  lemma QuotientRemainder(a: nat, d: nat)
    requires d >= 1
    ensures a == Quotient(a, d) * d + Remainder(a, d)
  {
  }

  /** Quotient and remainder are determined by any decomposition a == q * d + r. */
  lemma DivModUnique(a: nat, d: nat, q: nat, r: nat)
    requires d > 0 && r < d && a == q * d + r
    ensures Quotient(a, d) == q && Remainder(a, d) == r
  {
    var q0, r0 := a / d, a % d;
    assert a == q0 * d + r0;
    if q0 < q {
      assert (q - q0) * d >= d by { MulAtLeast(q - q0, d); }
    } else if q0 > q {
      assert (q0 - q) * d >= d by { MulAtLeast(q0 - q, d); }
    }
  }

  lemma MulAtLeast(k: int, d: int)
    requires k >= 1 && d > 0
    ensures k * d >= d
  {
  }

  lemma MulLess(a: int, b: int, d: int)
    requires 0 <= a < b && d > 0
    ensures a * d < b * d
  {
  }

  lemma MulLessEq(a: int, b: int, d: int)
    requires 0 <= a <= b && d >= 0
    ensures a * d <= b * d
  {
  }

  lemma MulDouble(a: int, b: int)
    ensures a * (2 * b) == 2 * (b * a)
  {
  }

  lemma MulTwiceLeft(a: int, b: int)
    ensures (2 * a) * b == 2 * (a * b)
  {
  }
}
