/**
 Powers of ten, as token amounts are scaled by.
 */
module DecimalPowers {
  function Pow10(n: nat): (p: nat)
    ensures p > 0
  {
    if n == 0 then 1 else 10 * Pow10(n - 1)
  }

  lemma Powers()
    ensures Pow10(0) == 1 && Pow10(1) == 10 && Pow10(3) == 1_000 && Pow10(6) == 1_000_000
  {
    assert Pow10(3) == 1_000;
  }

  lemma {:induction false} Pow10Sum(a: nat, b: nat)
    ensures Pow10(a + b) == Pow10(a) * Pow10(b)
    decreases b
  {
    if b > 0 {
      Pow10Sum(a, b - 1);
      Tenfold(Pow10(a), Pow10(b - 1));
    }
  }

  lemma Tenfold(a: nat, p: nat)
    ensures a * (10 * p) == 10 * (a * p)
  {}
}
