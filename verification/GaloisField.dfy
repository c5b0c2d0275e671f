/**
 The field GF(256) that Reed-Solomon coding works in: bytes as polynomials over GF(2),
 multiplied modulo x^8 + x^4 + x^3 + x^2 + 1 (0x11d), with x as the generator.

 Addition is exclusive or. Multiplication is defined here from the polynomials alone;
 the logarithm tables the encoder multiplies with are proved against it in `ReedSolomonCode`.
 */
module GaloisField {
  import opened Bits

  // ── Exclusive or ───────────────────────────────────────────────────────────

  /** Exclusive or of two non-negative integers, bit by bit. */
  function Xor(a: nat, b: nat): nat {
    if a == 0 && b == 0 then 0
    else (if a % 2 != b % 2 then 1 else 0) + 2 * Xor(a / 2, b / 2)
  }

  lemma {:induction false} XorZero(a: nat)
    ensures Xor(a, 0) == a && Xor(0, a) == a
  {
    if a != 0 { XorZero(a / 2); }
  }

  lemma {:induction false} XorSelf(a: nat)
    ensures Xor(a, a) == 0
  {
    if a != 0 { XorSelf(a / 2); }
  }

  lemma {:induction false} XorCommutes(a: nat, b: nat)
    ensures Xor(a, b) == Xor(b, a)
  {
    if a != 0 || b != 0 { XorCommutes(a / 2, b / 2); }
  }

  /** The lowest bit of an exclusive or, and the bits above it. */
  lemma XorHalves(a: nat, b: nat)
    ensures Xor(a, b) / 2 == Xor(a / 2, b / 2)
    ensures Xor(a, b) % 2 == (if a % 2 != b % 2 then 1 else 0)
  {}

  lemma {:induction false} XorAssociates(a: nat, b: nat, c: nat)
    ensures Xor(Xor(a, b), c) == Xor(a, Xor(b, c))
    decreases a + b + c
  {
    if a != 0 || b != 0 || c != 0 {
      XorAssociates(a / 2, b / 2, c / 2);
      XorHalves(a, b);
      XorHalves(b, c);
      XorHalves(Xor(a, b), c);
      XorHalves(a, Xor(b, c));
    }
  }

  predicate PowerOfTwo(p: nat) {
    p == 1 || (p > 0 && p % 2 == 0 && PowerOfTwo(p / 2))
  }

  /** The highest bit of an exclusive or. */
  lemma {:induction false} XorTop(a: nat, b: nat, p: nat)
    requires a < 2 * p && b < 2 * p && PowerOfTwo(p)
    ensures Xor(a, b) < 2 * p
    ensures Xor(a, b) < p <==> (a < p <==> b < p)
  {
    if p > 1 {
      XorTop(a / 2, b / 2, p / 2);
      XorHalves(a, b);
    }
  }

  // ── Addition ───────────────────────────────────────────────────────────────

  /** Addition in the field, and subtraction too: exclusive or. */
  function Add(a: Byte, b: Byte): Byte {
    XorTop(a, b, 128);
    Xor(a, b)
  }

  lemma AddLaws(a: Byte, b: Byte)
    ensures Add(a, b) == Add(b, a)
    ensures Add(a, 0) == a && Add(0, a) == a && Add(a, a) == 0
  {
    XorCommutes(a, b);
    XorZero(a);
    XorSelf(a);
  }

  lemma AddAssociates(a: Byte, b: Byte, c: Byte)
    ensures Add(Add(a, b), c) == Add(a, Add(b, c))
  {
    XorAssociates(a, b, c);
  }

  lemma AddCancels(a: Byte, b: Byte)
    ensures Add(a, b) == 0 <==> a == b
    ensures Add(Add(a, b), b) == a
  {
    AddAssociates(a, b, b);
    AddLaws(a, b);
    AddLaws(b, b);
  }

  lemma AddSwap(a: Byte, b: Byte, c: Byte, d: Byte)
    ensures Add(Add(a, b), Add(c, d)) == Add(Add(a, c), Add(b, d))
  {
    AddAssociates(a, b, Add(c, d));
    AddAssociates(b, c, d);
    AddLaws(b, c);
    AddAssociates(c, b, d);
    AddAssociates(a, c, Add(b, d));
  }

  // ── Multiplication ─────────────────────────────────────────────────────────

  /** A polynomial times x: shifted up, and reduced by 0x11d when x^8 appears. */
  function TimesX(a: Byte): Byte {
    XorTop(2 * a, 0x11d, 256);
    if 2 * a >= 256 then Xor(2 * a, 0x11d) else 2 * a
  }

  /** One term of a product: the multiplicand where the multiplier has its bit. */
  function Term(a: Byte, bit: bool): Byte {
    if bit then a else 0
  }

  /** The product of two polynomials, reduced: a sum of a·x^i over the bits i of b. */
  function Mul(a: Byte, b: Byte): Byte
    decreases b
  {
    if b == 0 then 0 else Add(Term(a, b % 2 == 1), Mul(TimesX(a), b / 2))
  }

  lemma TimesXAdd(a: Byte, b: Byte)
    ensures TimesX(Add(a, b)) == Add(TimesX(a), TimesX(b))
  {
    var u, v, m := 2 * a, 2 * b, 0x11d;
    XorTop(a, b, 128);
    XorHalves(u, v);
    assert 2 * Add(a, b) == Xor(u, v);
    // The modulus is taken away from both, from one, or from neither.
    XorAssociates(u, v, m);
    XorCommutes(v, m);
    XorAssociates(u, m, v);
    XorAssociates(Xor(u, m), v, m);
    XorAssociates(Xor(u, v), m, m);
    XorSelf(m);
    XorZero(Xor(u, v));
    assert Xor(Xor(u, m), Xor(v, m)) == Xor(u, v);
  }

  lemma TimesXZero(a: Byte)
    ensures TimesX(a) == 0 <==> a == 0
  {
    if 2 * a >= 256 && Xor(2 * a, 0x11d) == 0 {
      XorHalves(2 * a, 0x11d);
    }
  }

  /** The lowest bit of a polynomial, and x times the rest. */
  lemma Halve(b: Byte)
    ensures b == Add(Term(1, b % 2 == 1), TimesX(b / 2))
  {
    var h := b / 2;
    XorHalves(b % 2, 2 * h);
    XorZero(h);
  }

  lemma TermAdd(a: Byte, b: Byte, bit: bool)
    ensures Term(Add(a, b), bit) == Add(Term(a, bit), Term(b, bit))
    ensures TimesX(Term(a, bit)) == Term(TimesX(a), bit)
  {}

  lemma {:induction false} MulAddLeft(a: Byte, b: Byte, c: Byte)
    ensures Mul(Add(a, b), c) == Add(Mul(a, c), Mul(b, c))
    decreases c
  {
    if c == 0 {
      AddLaws(0, 0);
    } else {
      var bit := c % 2 == 1;
      MulAddLeft(TimesX(a), TimesX(b), c / 2);
      TimesXAdd(a, b);
      TermAdd(a, b, bit);
      AddSwap(Term(a, bit), Term(b, bit), Mul(TimesX(a), c / 2), Mul(TimesX(b), c / 2));
    }
  }

  lemma {:induction false} MulTimesXLeft(a: Byte, b: Byte)
    ensures Mul(TimesX(a), b) == TimesX(Mul(a, b))
    decreases b
  {
    if b == 0 {
      TimesXZero(0);
    } else {
      MulTimesXLeft(TimesX(a), b / 2);
      TermAdd(a, a, b % 2 == 1);
      TimesXAdd(Term(a, b % 2 == 1), Mul(TimesX(a), b / 2));
    }
  }

  lemma {:induction false} MulZeroLeft(b: Byte)
    ensures Mul(0, b) == 0
    decreases b
  {
    if b != 0 { MulZeroLeft(b / 2); }
  }

  /** The product by halves of the multiplier, with the factor x outside. */
  lemma MulHalve(a: Byte, b: Byte)
    ensures Mul(a, b) == Add(Term(a, b % 2 == 1), TimesX(Mul(a, b / 2)))
  {
    MulTimesXLeft(a, b / 2);
    TimesXZero(0);
    AddLaws(0, 0);
  }

  lemma {:induction false} MulOneLeft(b: Byte)
    ensures Mul(1, b) == b
    decreases b
  {
    if b != 0 {
      Halve(b);
      MulOneLeft(b / 2);
      MulHalve(1, b);
    }
  }

  /** Multiplying by a polynomial with the lowest bit split off, on the left. */
  lemma MulHalveLeft(a: Byte, b: Byte)
    ensures Mul(a, b) == Add(Term(b, a % 2 == 1), TimesX(Mul(a / 2, b)))
  {
    Halve(a);
    MulAddLeft(Term(1, a % 2 == 1), TimesX(a / 2), b);
    MulOneLeft(b);
    MulZeroLeft(b);
    MulTimesXLeft(a / 2, b);
  }

  lemma {:induction false} MulCommutes(a: Byte, b: Byte)
    ensures Mul(a, b) == Mul(b, a)
    decreases a
  {
    if a == 0 {
      MulZeroLeft(b);
    } else {
      MulHalveLeft(a, b);
      MulCommutes(a / 2, b);
      MulHalve(b, a);
    }
  }

  lemma MulAddRight(a: Byte, b: Byte, c: Byte)
    ensures Mul(a, Add(b, c)) == Add(Mul(a, b), Mul(a, c))
  {
    MulAddLeft(b, c, a);
    MulCommutes(b, a);
    MulCommutes(c, a);
    MulCommutes(Add(b, c), a);
  }

  lemma MulTimesXRight(a: Byte, b: Byte)
    ensures Mul(a, TimesX(b)) == TimesX(Mul(a, b))
  {
    MulCommutes(a, TimesX(b));
    MulTimesXLeft(b, a);
    MulCommutes(a, b);
  }

  lemma MulTerm(a: Byte, c: Byte, bit: bool)
    ensures Mul(Term(a, bit), c) == Term(Mul(a, c), bit)
    ensures Mul(c, Term(a, bit)) == Term(Mul(c, a), bit)
  {
    MulZeroLeft(c);
  }

  lemma {:induction false} MulAssociates(a: Byte, b: Byte, c: Byte)
    ensures Mul(Mul(a, b), c) == Mul(a, Mul(b, c))
    decreases b
  {
    if b == 0 {
      MulZeroLeft(c);
    } else {
      MulAssociates(a, b / 2, c);
      MulAssociatesStep(a, b, c);
    }
  }

  lemma MulAssociatesStep(a: Byte, b: Byte, c: Byte)
    requires Mul(Mul(a, b / 2), c) == Mul(a, Mul(b / 2, c))
    ensures Mul(Mul(a, b), c) == Mul(a, Mul(b, c))
  {
    var bit, rest := b % 2 == 1, b / 2;
    MulHalve(a, b);
    MulAddLeft(Term(a, bit), TimesX(Mul(a, rest)), c);
    MulTerm(a, c, bit);
    MulTimesXLeft(Mul(a, rest), c);

    MulHalveLeft(b, c);
    MulAddRight(a, Term(c, bit), TimesX(Mul(rest, c)));
    MulTerm(c, a, bit);
    MulTimesXRight(a, Mul(rest, c));
  }
}
