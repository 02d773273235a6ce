/** Products of reals, kept out of the larger proofs. */
module Reals {

  lemma Scale(x: real, y: real, n: real)
    requires x <= y && n >= 0.0
    ensures x * n <= y * n
  {
  }

  lemma NonNegativeProduct(x: real, y: real)
    requires x >= 0.0 && y >= 0.0
    ensures x * y >= 0.0
  {
  }

  lemma PositiveProduct(x: real, y: real)
    requires x > 0.0 && y > 0.0
    ensures x * y > 0.0 && -x * y < 0.0
  {
  }

  lemma Compare(x: real, y: real, n: real)
    requires n > 0.0
    ensures x >= y <==> x * n >= y * n
  {
    if x > y {
      assert (x - y) * n > 0.0;
    }
    if x < y {
      assert (y - x) * n > 0.0;
    }
  }
}
