/** Powers of two, as the exponential delays use them. */
module Arithmetic {

  function Pow2(n: nat): (r: int)
    ensures 1 <= r
  {
    if n == 0 then 1 else 2 * Pow2(n - 1)
  }

  lemma {:induction false} Pow2Monotone(a: nat, b: nat)
    requires a <= b
    ensures Pow2(a) <= Pow2(b)
  {
    if a < b {
      Pow2Monotone(a, b - 1);
    }
  }

  lemma ScaleMonotone(base: nat, x: nat, y: nat)
    requires x <= y
    ensures base * x <= base * y
  {
  }

  lemma DoubledProduct(base: int, n: nat)
    ensures base * Pow2(n + 1) == 2 * (base * Pow2(n))
  {
    var p := Pow2(n);
    assert Pow2(n + 1) == 2 * p;
    assert base * (2 * p) == 2 * (base * p);
  }

  lemma ScaledOnce(base: int)
    ensures base * Pow2(0) == base
  {
    assert Pow2(0) == 1;
  }
}
