/** Division facts the models share. */
module Arithmetic {

  /** Quotient and remainder are unique. */
  lemma {:induction false} Quotient(n: int, d: int, q: int, r: int)
    requires 0 <= r < d && n == q * d + r
    ensures n / d == q && n % d == r
  {
    var e := n / d - q;
    assert n == d * (n / d) + n % d;
    assert d * e == r - n % d by {
      assert d * e == d * (n / d) - d * q;
    }
    Multiples(d, e);
  }

  lemma Multiples(d: int, e: int)
    requires d >= 0
    ensures (e >= 1 ==> d * e >= d) && (e <= -1 ==> d * e <= -d)
  {
  }
}
