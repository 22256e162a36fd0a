/** Division facts the solver does not find by itself. */
module Arithmetic {

  lemma NextMultiple(a: nat, b: nat, d: nat)
    ensures a < b ==> a * d + d <= b * d
  {
    if a < b {
      assert (a + 1) * d <= b * d;
    }
  }

  lemma Quotient(n: nat, d: nat, q: nat, r: nat)
    requires d > 0 && n == q * d + r && r < d
    ensures n / d == q && n % d == r
  {
    NextMultiple(n / d, q, d);
    NextMultiple(q, n / d, d);
  }
}
