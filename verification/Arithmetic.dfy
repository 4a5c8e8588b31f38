/** Products and quotients that the solver does not work out on its own. */
module Arithmetic {

  lemma {:induction false} MulBound(d: nat, k: int)
    ensures k >= 1 ==> d * k >= d
    ensures k <= -1 ==> d * k + d <= 0
    decreases if k < 0 then -k else k
  {
    if k > 1 {
      MulBound(d, k - 1);
      assert d * k == d * (k - 1) + d;
    } else if k < -1 {
      MulBound(d, k + 1);
      assert d * k == d * (k + 1) - d;
    }
  }

  lemma DivUnique(n: int, d: nat, q: int, r: nat)
    requires d >= 1 && n == d * q + r && r < d
    ensures n / d == q && n % d == r
  {
    var k := q - n / d;
    assert d * k == d * q - d * (n / d);
    assert n == d * (n / d) + n % d;
    MulBound(d, k);
  }
}
