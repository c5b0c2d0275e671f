/**
 The powers of x in GF(256): x has order exactly 255, so its powers below that are all the
 nonzero bytes, each once. That is what makes a logarithm table possible and exact.
 */
module GfPowers {
  import opened Bits
  import opened GaloisField
  import opened SetSizes

  /** x^i. */
  function Exp(i: nat): Byte {
    if i == 0 then 1 else TimesX(Exp(i - 1))
  }

  lemma {:induction false} ExpAdd(i: nat, j: nat)
    ensures Mul(Exp(i), Exp(j)) == Exp(i + j)
    decreases j
  {
    if j == 0 {
      MulCommutes(Exp(i), 1);
      MulOneLeft(Exp(i));
    } else {
      ExpAdd(i, j - 1);
      MulTimesXRight(Exp(i), Exp(j - 1));
    }
  }

  lemma {:induction false} ExpNonzero(i: nat)
    ensures Exp(i) != 0
  {
    if i > 0 {
      ExpNonzero(i - 1);
      TimesXZero(Exp(i - 1));
    }
  }

  // ── Computing powers ───────────────────────────────────────────────────────

  function Strip(a: int, p: int): int {
    if a >= p then a - p else a
  }

  /** `TimesX` by comparisons only: bits 2, 3 and 4 flip, bit 0 is set and bit 8 is dropped. */
  function Next(a: int): int {
    if a < 128 then 2 * a else
      var low := Strip(Strip(Strip(a - 128, 64), 32), 16);
      2 * a - 227 - (if low >= 8 then 32 else 0) - (if Strip(low, 8) >= 4 then 16 else 0)
      - (if Strip(Strip(low, 8), 4) >= 2 then 8 else 0)
  }

  lemma StripLow(a: nat)
    requires 128 <= a < 256
    ensures Strip(Strip(Strip(a - 128, 64), 32), 16) == a % 16
  {
    var t := Strip(a - 128, 64);
    var u := Strip(t, 32);
    assert a % 16 == (a - 128) % 16;
    assert t % 16 == (a - 128) % 16;
    assert u % 16 == t % 16;
  }

  lemma NextLow(a: nat)
    requires 128 <= a < 256
    ensures Next(a) == 2 * a - 227 - 8 * (a % 16 / 2)
  {
    StripLow(a);
  }

  lemma XorStep(a: nat, b: nat, r: nat)
    requires Xor(a / 2, b / 2) == r
    ensures Xor(a, b) == (if a % 2 != b % 2 then 1 else 0) + 2 * r
  {}

  lemma XorEight(a: nat)
    requires 8 <= a < 16
    ensures Xor(a, 8) == a - 8
  {
    XorStep(a / 8, 1, 0);
    XorStep(a / 4, 2, Xor(a / 8, 1));
    XorStep(a / 2, 4, Xor(a / 4, 2));
    XorStep(a, 8, Xor(a / 2, 4));
  }

  lemma TimesXLow(a: Byte)
    requires a >= 128
    ensures TimesX(a) == 2 * a - 227 - 8 * (a / 2 % 8)
  {
    var h := a / 2;
    XorEight(h / 8);
    XorStep(h / 4, 17, h / 8 - 8);
    XorStep(h / 2, 35, Xor(h / 4, 17));
    XorStep(h, 71, Xor(h / 2, 35));
    assert Xor(h, 71) == h - 64 + 7 - 2 * (h % 8);
    XorStep(a, 142, Xor(h, 71));
    XorStep(2 * a, 285, Xor(a, 142));
  }

  lemma NextIsTimesX(a: Byte)
    ensures TimesX(a) == Next(a)
  {
    if a >= 128 {
      NextLow(a);
      TimesXLow(a);
      LowBits(a);
    }
  }

  /** The first powers double, and the eighth is where x^8 = x^4 + x^3 + x^2 + 1 comes in. */
  lemma FirstPowers()
    ensures Exp(0) == 1 && Exp(1) == 2 && Exp(2) == 4 && Exp(3) == 8 && Exp(4) == 16
    ensures Exp(5) == 32 && Exp(6) == 64 && Exp(7) == 128 && Exp(8) == 16 + 8 + 4 + 1
  {
    NextIsTimesX(1);
    NextIsTimesX(2);
    NextIsTimesX(4);
    NextIsTimesX(8);
    NextIsTimesX(16);
    NextIsTimesX(32);
    NextIsTimesX(64);
    NextIsTimesX(128);
    assert Exp(1) == 2 && Exp(2) == 4 && Exp(3) == 8 && Exp(4) == 16;
    assert Exp(5) == 32 && Exp(6) == 64 && Exp(7) == 128;
  }

  lemma LowBits(a: nat)
    ensures a / 2 % 8 == a % 16 / 2
  {}

  /** v times x, n times over. */
  function Run(v: int, n: nat): int
    decreases n
  {
    if n == 0 then v else Run(Next(v), n - 1)
  }

  lemma {:induction false} RunIsExp(i: nat, n: nat)
    ensures Run(Exp(i), n) == Exp(i + n)
    decreases n
  {
    if n > 0 {
      NextIsTimesX(Exp(i));
      RunIsExp(i + 1, n - 1);
    }
  }

  lemma Five(v: int, w: int, n: nat)
    requires n >= 5 && w == Next(Next(Next(Next(Next(v)))))
    ensures Run(v, n) == Run(w, n - 5)
  {
    var a := Next(v);
    var b := Next(a);
    var c := Next(b);
    assert Run(v, n) == Run(b, n - 2);
    assert Run(b, n - 2) == Run(Next(c), n - 4);
  }

  lemma Powers0To15(n: nat)
    requires n >= 15
    ensures Run(1, n) == Run(38, n - 15)
  {
    Five(1, 32, n); Five(32, 116, n - 5); Five(116, 38, n - 10);
  }

  lemma Powers15To50(n: nat)
    requires n >= 35
    ensures Run(38, n) == Run(5, n - 35)
  {
    Five(38, 180, n); Five(180, 3, n - 5); Five(3, 96, n - 10); Five(96, 156, n - 15);
    Five(156, 106, n - 20); Five(106, 193, n - 25); Five(193, 5, n - 30);
  }

  lemma Powers50To85(n: nat)
    requires n >= 35
    ensures Run(5, n) == Run(214, n - 35)
  {
    Five(5, 160, n); Five(160, 185, n - 5); Five(185, 190, n - 10); Five(190, 94, n - 15);
    Five(94, 15, n - 20); Five(15, 253, n - 25); Five(253, 214, n - 30);
  }

  lemma Powers85To130(n: nat)
    requires n >= 45
    ensures Run(214, n) == Run(46, n - 45)
  {
    Five(214, 223, n); Five(223, 226, n - 5); Five(226, 17, n - 10); Five(17, 26, n - 15);
    Five(26, 103, n - 20); Five(103, 124, n - 25); Five(124, 59, n - 30); Five(59, 51, n - 35);
    Five(51, 46, n - 40);
  }

  lemma Powers130To170(n: nat)
    requires n >= 40
    ensures Run(46, n) == Run(215, n - 40)
  {
    Five(46, 169, n); Five(169, 132, n - 5); Five(132, 77, n - 10); Five(77, 85, n - 15);
    Five(85, 114, n - 20); Five(114, 230, n - 25); Five(230, 145, n - 30); Five(145, 215, n - 35);
  }

  lemma Powers170To215(n: nat)
    requires n >= 45
    ensures Run(215, n) == Run(239, n - 45)
  {
    Five(215, 255, n); Five(255, 150, n - 5); Five(150, 55, n - 10); Five(55, 174, n - 15);
    Five(174, 100, n - 20); Five(100, 28, n - 25); Five(28, 167, n - 30); Five(167, 89, n - 35);
    Five(89, 239, n - 40);
  }

  lemma Powers215To255(n: nat)
    requires n >= 40
    ensures Run(239, n) == Run(1, n - 40)
  {
    Five(239, 172, n); Five(172, 36, n - 5); Five(36, 244, n - 10); Five(244, 235, n - 15);
    Five(235, 44, n - 20); Five(44, 233, n - 25); Five(233, 108, n - 30); Five(108, 1, n - 35);
  }

  /** The powers that decide the order of x. */
  lemma KeyPowers(i: nat)
    ensures i == 15 ==> Exp(i) == 38
    ensures i == 51 ==> Exp(i) == 10
    ensures i == 85 ==> Exp(i) == 214
    ensures i == 255 ==> Exp(i) == 1
  {
    RunIsExp(0, i);
    if i >= 15 { Powers0To15(i); }
    if i >= 50 { Powers15To50(i - 15); }
    if i >= 85 { Powers50To85(i - 50); }
    if i >= 255 {
      Powers85To130(i - 85);
      Powers130To170(i - 130);
      Powers170To215(i - 170);
      Powers215To255(i - 215);
    }
  }

  // ── The order of x ─────────────────────────────────────────────────────────

  lemma ExpPeriod(i: nat, j: nat)
    requires i == 255
    ensures Exp(i + j) == Exp(j)
  {
    KeyPowers(i);
    ExpAdd(i, j);
    MulOneLeft(Exp(j));
  }

  lemma {:induction false} ExpPeriods(m: nat, j: nat)
    ensures Exp(255 * m + j) == Exp(j)
  {
    if m > 0 {
      ExpPeriods(m - 1, j);
      ExpPeriod(255, 255 * (m - 1) + j);
    }
  }

  lemma OneMoreTime(k: nat, n: nat)
    requires Exp(k) == 1
    ensures Exp(k + n) == Exp(n)
  {
    ExpAdd(k, n);
    MulOneLeft(Exp(n));
  }

  lemma {:induction false} PowerOfOne(k: nat, m: nat)
    requires Exp(k) == 1
    ensures Exp(k * m) == 1
    decreases m
  {
    if m == 0 {
      assert k * m == 0;
    } else {
      var before := k * (m - 1);
      PowerOfOne(k, m - 1);
      OneMoreTime(k, before);
      assert k * m == k + before;
    }
  }

  lemma Rearrange(k: nat, p: nat, m: nat, s: nat, c: nat, r: nat, q: nat)
    requires k == p * c + r && p * m == 255 && r * s == p * q + 1
    ensures k * (m * s) == 255 * (c * s + q) + m
  {
    assert (p * c) * (m * s) == (p * m) * (c * s);
    assert r * (m * s) == m * (r * s);
    assert m * (p * q + 1) == (p * m) * q + m;
  }

  /** If x^k is one and s inverts k modulo p, for 255 = p·m, then x^m is one. */
  lemma OrderStep(k: nat, p: nat, m: nat, s: nat, c: nat, r: nat, q: nat)
    requires Exp(k) == 1 && p * m == 255 && k == p * c + r && r * s == p * q + 1
    ensures Exp(m) == 1
  {
    Rearrange(k, p, m, s, c, r, q);
    PowerOfOne(k, m * s);
    ExpPeriods(c * s + q, m);
  }

  lemma OrderBy3(k: nat, m: nat)
    requires Exp(k) == 1 && m == 85
    ensures k % 3 == 0
  {
    KeyPowers(m);
    match k % 3 {
      case 0 =>
      case 1 => OrderStep(k, 3, m, 1, k / 3, 1, 0);
      case _ => OrderStep(k, 3, m, 2, k / 3, 2, 1);
    }
  }

  lemma OrderBy5(k: nat, m: nat)
    requires Exp(k) == 1 && m == 51
    ensures k % 5 == 0
  {
    KeyPowers(m);
    match k % 5 {
      case 0 =>
      case 1 => OrderStep(k, 5, m, 1, k / 5, 1, 0);
      case 2 => OrderStep(k, 5, m, 3, k / 5, 2, 1);
      case 3 => OrderStep(k, 5, m, 2, k / 5, 3, 1);
      case _ => OrderStep(k, 5, m, 4, k / 5, 4, 3);
    }
  }

  lemma OrderBy17(k: nat, m: nat)
    requires Exp(k) == 1 && m == 15
    ensures k % 17 == 0
  {
    KeyPowers(m);
    match k % 17 {
      case 0 =>
      case 1 => OrderStep(k, 17, m, 1, k / 17, 1, 0);
      case 2 => OrderStep(k, 17, m, 9, k / 17, 2, 1);
      case 3 => OrderStep(k, 17, m, 6, k / 17, 3, 1);
      case 4 => OrderStep(k, 17, m, 13, k / 17, 4, 3);
      case 5 => OrderStep(k, 17, m, 7, k / 17, 5, 2);
      case 6 => OrderStep(k, 17, m, 3, k / 17, 6, 1);
      case 7 => OrderStep(k, 17, m, 5, k / 17, 7, 2);
      case 8 => OrderStep(k, 17, m, 15, k / 17, 8, 7);
      case 9 => OrderStep(k, 17, m, 2, k / 17, 9, 1);
      case 10 => OrderStep(k, 17, m, 12, k / 17, 10, 7);
      case 11 => OrderStep(k, 17, m, 14, k / 17, 11, 9);
      case 12 => OrderStep(k, 17, m, 10, k / 17, 12, 7);
      case 13 => OrderStep(k, 17, m, 4, k / 17, 13, 3);
      case 14 => OrderStep(k, 17, m, 11, k / 17, 14, 9);
      case 15 => OrderStep(k, 17, m, 8, k / 17, 15, 7);
      case _ => OrderStep(k, 17, m, 16, k / 17, 16, 15);
    }
  }

  lemma MultipleOf255(k: nat)
    requires k % 3 == 0 && k % 5 == 0 && k % 17 == 0
    ensures k == 0 || k >= 255
  {
    var a := k / 17;
    assert 2 * a == 3 * (k / 3 - 5 * a);
    assert 2 * a == 5 * (k / 5 - 3 * a);
  }

  /** No smaller power of x than the 255th is one. */
  lemma Order(k: nat)
    requires 0 < k < 255
    ensures Exp(k) != 1
  {
    if Exp(k) == 1 {
      OrderBy3(k, 85);
      OrderBy5(k, 51);
      OrderBy17(k, 15);
      MultipleOf255(k);
      assert false;
    }
  }

  lemma ExpInjective(i: nat, j: nat)
    requires i < j < 255
    ensures Exp(i) != Exp(j)
  {
    if Exp(i) == Exp(j) {
      var u := 255 - i;
      ExpAdd(i, u);
      ExpAdd(j, u);
      KeyPowers(i + u);
      ExpPeriod(i + u, j - i);
      Order(j - i);
      assert false;
    }
  }

  // ── Logarithms ─────────────────────────────────────────────────────────────

  /** i is the logarithm of v, to the base x. */
  ghost predicate IsLog(v: nat, i: nat) {
    i < 255 && Exp(i) == v
  }

  function Powers(n: nat): set<nat> {
    if n == 0 then {} else Powers(n - 1) + {Exp(n - 1)}
  }

  lemma {:induction false} PowersSize(n: nat)
    requires n <= 255
    ensures |Powers(n)| == n
    ensures forall v :: v in Powers(n) ==> 0 < v < 256 && exists i: nat :: i < n && IsLog(v, i)
  {
    if n > 0 {
      PowersSize(n - 1);
      ExpNonzero(n - 1);
      assert IsLog(Exp(n - 1), n - 1);
      if Exp(n - 1) in Powers(n - 1) {
        var i: nat :| i < n - 1 && IsLog(Exp(n - 1), i);
        ExpInjective(i, n - 1);
        assert false;
      }
    }
  }

  function Range(n: nat): set<nat> {
    if n == 0 then {} else Range(n - 1) + {n}
  }

  lemma {:induction false} RangeSize(n: nat)
    ensures |Range(n)| == n && forall v :: v in Range(n) <==> 0 < v <= n
  {
    if n > 0 { RangeSize(n - 1); }
  }

  /** A subset as large as the whole is the whole. */
  lemma FullSubset<T>(a: set<T>, b: set<T>)
    requires a <= b && |a| == |b|
    ensures a == b
  {
    if a != b {
      var x :| x in b && x !in a;
      SubsetSize(a, b - {x});
      assert false;
    }
  }

  /** Every nonzero byte is a power of x below 255. */
  lemma LogExists(v: Byte, n: nat)
    requires v != 0 && n == 255
    ensures exists i: nat :: IsLog(v, i)
  {
    PowersSize(n);
    RangeSize(n);
    FullSubset(Powers(n), Range(n));
    assert v in Powers(n);
  }

  ghost function Log(v: Byte): (i: nat)
    requires v != 0
    ensures IsLog(v, i)
  {
    LogExists(v, 255);
    var i: nat :| IsLog(v, i);
    i
  }

  /** The field has no zero divisors. */
  lemma MulNonzero(a: Byte, b: Byte)
    ensures Mul(a, b) == 0 <==> a == 0 || b == 0
  {
    MulZeroLeft(b);
    MulZeroLeft(a);
    MulCommutes(a, b);
    if a != 0 && b != 0 {
      ExpAdd(Log(a), Log(b));
      ExpNonzero(Log(a) + Log(b));
    }
  }
}
