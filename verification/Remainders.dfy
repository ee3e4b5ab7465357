/** Quotients and remainders. */
module Remainders {

  lemma TimesAtLeast(k: int, x: nat)
    requires k >= 1
    ensures k * x >= x
  {
  }

  lemma DivModUnique(a: int, x: nat, q: int, r: nat)
    requires r < x && a == q * x + r
    ensures a % x == r && a / x == q
  {
    var d := a / x;
    var k := q - d;
    assert a == d * x + a % x;
    assert k * x == q * x - d * x;
    if k >= 1 {
      TimesAtLeast(k, x);
    } else if k <= -1 {
      TimesAtLeast(-k, x);
    }
  }
}
