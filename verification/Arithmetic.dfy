/**
 Quotient and remainder for a modulus that is not a constant.
 */
module Arithmetic {

  lemma DivModUnique(m: nat, q: int, r: int, x: int)
    requires m > 0 && x == q * m + r && 0 <= r < m
    ensures x % m == r && x / m == q
  {
    SmallMultiple(m, q - x / m, x % m - r);
  }

  lemma SmallMultiple(m: int, k: int, d: int)
    requires m > 0 && k * m == d && -m < d < m
    ensures d == 0 && k == 0
  {
    MultiplesGrow(m, k);
  }

  lemma MultiplesGrow(m: int, k: int)
    requires m > 0
    ensures k >= 1 ==> k * m >= m
    ensures k <= -1 ==> k * m <= -m
  {
  }

  lemma OneLap(m: nat, x: int)
    requires m > 0
    ensures (x + m) % m == x % m
  {
    DivModUnique(m, x / m + 1, x % m, x + m);
  }

  /** The remainder by twice a number. */
  lemma ModDouble(v: nat, p: nat)
    requires p > 0
    ensures v % (2 * p) == v / p % 2 * p + v % p
  {
    var q, r := v / p, v % p;
    var h, b := q / 2, q % 2;
    Distribute(h, b, p);
    DivModUnique(2 * p, h, b * p + r, v);
  }

  lemma Distribute(h: nat, b: nat, p: nat)
    requires b <= 1
    ensures (2 * h + b) * p == h * (2 * p) + b * p && b * p <= p
  {
  }
}
