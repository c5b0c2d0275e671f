/**
 Quotients and remainders of numbers that are not constants.
 */
module Division {
  lemma Multiple(b: int, q: int)
    requires b > 0
    ensures q > 0 ==> b * q >= b
    ensures q < 0 ==> b * q <= -b
  {}

  lemma DivisionIsUnique(x: nat, b: nat, q: nat, r: nat)
    requires b > 0 && r < b && x == b * q + r
    ensures x / b == q && x % b == r
  {
    Multiple(b, q - x / b);
    assert b * (q - x / b) == x % b - r;
  }

  lemma QuotientOf(x: nat, b: nat)
    requires b > 0
    ensures x == b * (x / b) + x % b && x % b < b
  {}

  lemma Factored(c: nat, b: nat, q: nat, r: nat)
    ensures c * (b * q + r) == (c * b) * q + c * r
  {}

  lemma LessTimes(c: nat, r: nat, b: nat)
    requires c > 0 && r < b
    ensures c * r < c * b
  {
    Multiple(c, b - r);
    assert c * (b - r) == c * b - c * r;
  }

  /** A common factor does not change a quotient. */
  lemma CommonFactor(a: nat, b: nat, c: nat)
    requires b > 0 && c > 0 && c * b > 0
    ensures c * a / (c * b) == a / b
  {
    QuotientOf(a, b);
    Factored(c, b, a / b, a % b);
    LessTimes(c, a % b, b);
    DivisionIsUnique(c * a, c * b, a / b, c * (a % b));
  }

  /** x * p / q, rounded down. */
  function Ratio(x: nat, p: nat, q: nat): nat
    requires q > 0
  {
    var product: nat := x * p;
    product / q
  }

  lemma RatioIs(x: nat, p: nat, q: nat)
    requires q > 0
    ensures q * Ratio(x, p, q) <= x * p < q * Ratio(x, p, q) + q
  {
    QuotientOf(x * p, q);
  }

  lemma RatioUp(x: nat, p: nat, s: nat, product: nat)
    requires p > 0 && product == p * s
    ensures Ratio(x, product, p) == x * s
  {
    assert x * product == p * (x * s) + 0;
    DivisionIsUnique(x * product, p, x * s, 0);
  }

  lemma RatioDown(x: nat, p: nat, s: nat, q: nat, r: nat)
    requires p > 0 && s > 0 && p * s > 0 && x == q * s + r && r < s
    ensures Ratio(x, p, p * s) == q
  {
    DivisionIsUnique(x, s, q, r);
    CommonFactor(x, s, p);
  }

  lemma Regrouped(x: nat, a: nat, b: nat)
    ensures (x * a) * b == a * (x * b)
  {}

  lemma RatioOfMultiple(x: nat, c: nat, p: nat, q: nat)
    requires c > 0 && q > 0 && c * q > 0
    ensures Ratio(x * c, p, c * q) == Ratio(x, p, q)
  {
    Regrouped(x, c, p);
    CommonFactor(x * p, q, c);
  }
}
