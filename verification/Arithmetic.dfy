/** Facts about quotients and remainders by an arbitrary divisor. */
module Arithmetic {

  lemma Multiple(d: nat, e: int)
    ensures e >= 1 ==> d * e >= d
    ensures e == 0 ==> d * e == 0
    ensures e <= -1 ==> d * e <= 0 - d
  {
    if e >= 1 {
      assert d * (e - 1) >= 0;
    } else if e <= -1 {
      assert d * (-1 - e) >= 0;
    }
  }

  lemma OneMore(d: nat, q: nat)
    ensures d * (q + 1) == d * q + d
  {
  }

  lemma ModOf(x: nat, d: nat, q: nat, r: nat)
    requires r < d && x == d * q + r
    ensures x % d == r && x / d == q
  {
    assert d * (x / d - q) == r - x % d;
    Multiple(d, x / d - q);
  }
}
