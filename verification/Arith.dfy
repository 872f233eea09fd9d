/** Division facts that the solver needs spelled out when the divisor is not a literal. */
module Arith {

  lemma Euclid(x: nat, d: nat)
    requires d > 0
    ensures x == x / d * d + x % d && 0 <= x % d < d
  {
  }

  /** Quotient and remainder, as numbers of their own. */
  lemma Quotient(x: nat, d: nat) returns (q: nat, r: nat)
    requires d > 0
    ensures x == q * d + r && r < d && r == x % d && q == x / d
  {
    q, r := x / d, x % d;
    Euclid(x, d);
  }

  lemma MultipleAtLeast(k: int, d: nat)
    requires k > 0
    ensures k * d >= d
  {
    assert k * d == d + (k - 1) * d;
  }

  lemma DivMod(x: nat, d: nat, q: nat, r: nat)
    requires r < d && x == q * d + r
    ensures x / d == q && x % d == r
  {
    var p := x / d;
    Euclid(x, d);
    assert (p - q) * d == p * d - q * d;
    assert (q - p) * d == q * d - p * d;
    if q < p {
      MultipleAtLeast(p - q, d);
    } else if p < q {
      MultipleAtLeast(q - p, d);
    }
  }

  lemma ModSubtract(n: nat, d: nat)
    requires d > 0 && n >= d
    ensures n % d == (n - d) % d
  {
    var q := (n - d) / d;
    Euclid(n - d, d);
    assert (q + 1) * d == q * d + d;
    DivMod(n, d, q + 1, (n - d) % d);
  }
}
