/** Division with remainder, for divisors that are not literals. */
module Arith {

  lemma ProductMonotone(x: nat, a: nat, b: nat)
    requires a <= b
    ensures x * a <= x * b
  {
  }

  lemma AtLeastOne(p: nat, k: nat)
    requires k >= 1
    ensures p * k >= p
  {
  }

  /** Quotient and remainder are unique. */
  lemma DivUnique(x: nat, p: nat, q: nat, r: nat)
    requires p > 0 && r < p && x == p * q + r
    ensures x / p == q && x % p == r
  {
    var q', r' := x / p, x % p;
    assert x == p * q' + r';
    assert p * (q - q') == p * q - p * q' && p * (q' - q) == p * q' - p * q;
    if q' < q {
      AtLeastOne(p, q - q');
    } else if q < q' {
      AtLeastOne(p, q' - q);
    }
  }

  lemma DivOfSum(q: nat, b: nat, p: nat)
    requires p > 0
    ensures (p * q + b) / p == q + b / p && (p * q + b) % p == b % p
  {
    var d := b / p;
    assert b == p * d + b % p;
    assert p * q + b == p * (q + d) + b % p;
    DivUnique(p * q + b, p, q + d, b % p);
  }

  /** Dividing a sum in two stages, carrying the remainder. */
  lemma DivModCarry(a: nat, c: nat, p: nat)
    requires p > 0
    ensures (a + c) / p == a / p + (a % p + c) / p
    ensures (a + c) % p == (a % p + c) % p
  {
    var q := a / p;
    assert a == p * q + a % p;
    var b := a % p + c;
    assert a + c == p * q + b;
    DivOfSum(q, b, p);
  }
}
