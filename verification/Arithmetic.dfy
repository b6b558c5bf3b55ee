/** Division facts that the solver needs to be told. */
module Arithmetic {
  lemma DivMod(n: nat, d: nat, q: nat, r: nat)
    requires d > 0 && n == q * d + r && r < d
    ensures n / d == q && n % d == r
  {
    NoMultiple(q - n / d, d, n % d - r);
  }

  lemma MultipleFar(k: int, d: int)
    requires d > 0
    ensures k >= 1 ==> k * d >= d
    ensures k <= -1 ==> k * d <= -d
  {
    if k >= 1 {
      assert (k - 1) * d >= 0;
    } else if k <= -1 {
      assert (-k - 1) * d >= 0;
    }
  }

  lemma NoMultiple(k: int, d: int, x: int)
    requires d > 0 && k * d == x && -d < x < d
    ensures k == 0
  {
    MultipleFar(k, d);
  }

  lemma MultipleMod(r: nat, d: nat)
    requires d > 0
    ensures r * d % d == 0 && r * d / d == r
  {
    DivMod(r * d, d, r, 0);
  }
}
