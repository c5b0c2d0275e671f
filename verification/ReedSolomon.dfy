/**
 Reed-Solomon error correction, as the QR encoder computes it (packages/qr/src/index.ts):
 the generator polynomial, the remainder by a linear feedback shift register, and what the
 result is worth: every codeword vanishes at the generator's roots, so two different blocks
 of data are at least ecLength + 1 bytes apart once their error correction is added.
 */
module ReedSolomon {
  import opened Bits
  import opened GaloisField
  import opened GfPowers
  import opened Polynomials

  // ── What the encoder computes ──────────────────────────────────────────────

  /** p times (x + root). */
  function TimesRoot(p: Poly, root: Byte): Poly {
    Sum(p + [0], [0] + Scale(p, root))
  }

  /** The product of (x + x^i) for i below the degree. */
  function Generator(degree: nat): Poly {
    if degree == 0 then [1] else TimesRoot(Generator(degree - 1), Exp(degree - 1))
  }

  /** One step of the shift register: a data byte in, the register's new contents out. */
  function Shift(register: Poly, byte: Byte, generator: Poly): Poly
    requires |generator| == |register| + 1
  {
    if register == [] then []
    else Sum(register[1..] + [0], Scale(generator[1..], Add(byte, register[0])))
  }

  /** The error correction bytes of a block. */
  function Remainder(data: Poly, ecLength: nat): (r: Poly)
    ensures |r| == ecLength
  {
    GeneratorShape(ecLength);
    if data == [] then Zeros(ecLength)
    else Shift(Remainder(data[..|data| - 1], ecLength), data[|data| - 1], Generator(ecLength))
  }

  function Codeword(data: Poly, ecLength: nat): Poly {
    data + Remainder(data, ecLength)
  }

  // ── The generator ──────────────────────────────────────────────────────────

  lemma {:induction false} GeneratorShape(degree: nat)
    ensures |Generator(degree)| == degree + 1 && Generator(degree)[0] == 1
  {
    if degree > 0 {
      GeneratorShape(degree - 1);
      AddLaws(1, 0);
    }
  }

  lemma EvalTimesRoot(p: Poly, root: Byte, x: Byte)
    ensures Eval(TimesRoot(p, root), x) == Mul(Eval(p, x), Add(x, root))
  {
    var q := Scale(p, root);
    EvalSum(p + [0], [0] + q, x);
    EvalAppend(p, 0, x);
    AddLaws(Mul(Eval(p, x), x), 0);
    EvalPrepend(0, q, x);
    MulZeroLeft(Power(x, |q|));
    AddLaws(Eval(q, x), 0);
    EvalScale(p, root, x);
    MulAddRight(Eval(p, x), x, root);
  }

  ghost predicate IsRoot(p: Poly, x: Byte) {
    Eval(p, x) == 0
  }

  lemma TimesRootVanishes(p: Poly, root: Byte, x: Byte)
    requires IsRoot(p, x) || x == root
    ensures IsRoot(TimesRoot(p, root), x)
  {
    EvalTimesRoot(p, root, x);
    AddLaws(x, x);
    MulZeroLeft(Add(x, root));
    MulZeroLeft(Eval(p, x));
    MulCommutes(Eval(p, x), 0);
  }

  /** The roots of the generator: x^0 to x^(degree - 1). */
  lemma {:induction false} GeneratorRoots(degree: nat, i: nat)
    requires i < degree
    ensures IsRoot(Generator(degree), Exp(i))
  {
    if i < degree - 1 { GeneratorRoots(degree - 1, i); }
    TimesRootVanishes(Generator(degree - 1), Exp(degree - 1), Exp(i));
  }

  // ── Codewords vanish at the roots ──────────────────────────────────────────

  /** At a root of a monic polynomial, the other coefficients give x^degree. */
  lemma MonicTail(g: Poly, x: Byte)
    requires g != [] && g[0] == 1 && Eval(g, x) == 0
    ensures Eval(g[1..], x) == Power(x, |g| - 1)
  {
    var tail := g[1..];
    assert g == [1] + tail;
    EvalPrepend(1, tail, x);
    MulOneLeft(Power(x, |tail|));
    AddCancels(Power(x, |tail|), Eval(tail, x));
  }

  /** The register's value without its top byte, times x. */
  lemma EvalDropTop(register: Poly, x: Byte)
    requires register != []
    ensures Eval(register[1..] + [0], x)
         == Add(Mul(Eval(register, x), x), Mul(register[0], Power(x, |register|)))
  {
    var top, rest, n := register[0], register[1..], |register|;
    var low, high := Eval(rest, x), Mul(top, Power(x, n - 1));
    assert register == [top] + rest;
    EvalPrepend(top, rest, x);
    EvalAppend(rest, 0, x);
    AddLaws(Mul(low, x), 0);
    MulAddLeft(high, low, x);
    MulAssociates(top, Power(x, n - 1), x);
    AddLaws(Mul(high, x), Mul(low, x));
    AddCancels(Mul(low, x), Mul(high, x));
  }

  /** A register after a step, at a root: its value times x, plus the byte times x^n. */
  lemma EvalShift(register: Poly, byte: Byte, g: Poly, x: Byte)
    requires register != [] && |g| == |register| + 1 && g[0] == 1 && Eval(g, x) == 0
    ensures Eval(Shift(register, byte, g), x)
         == Add(Mul(Eval(register, x), x), Mul(byte, Power(x, |register|)))
  {
    var top, rest, tail := register[0], register[1..], g[1..];
    var xn := Power(x, |register|);
    var factor := Add(byte, top);
    MonicTail(g, x);
    EvalDropTop(register, x);
    EvalSum(rest + [0], Scale(tail, factor), x);
    EvalScale(tail, factor, x);
    MulCommutes(xn, factor);
    MulAddLeft(byte, top, xn);
    Rejoin(Mul(Eval(register, x), x), Mul(top, xn), Mul(byte, xn));
  }

  lemma Rejoin(a: Byte, b: Byte, c: Byte)
    ensures Add(Add(a, b), Add(c, b)) == Add(a, c)
  {
    AddSwap(a, b, c, b);
    AddLaws(b, b);
    AddLaws(Add(a, c), 0);
  }

  /** The register holds what the data so far, shifted up, leaves at every root. */
  lemma {:induction false} RemainderAtRoot(data: Poly, ecLength: nat, i: nat)
    requires i < ecLength
    ensures Eval(Remainder(data, ecLength), Exp(i)) == Mul(Eval(data, Exp(i)), Power(Exp(i), ecLength))
  {
    var x := Exp(i);
    var xn := Power(x, ecLength);
    if data == [] {
      EvalZeros(ecLength, x);
      MulZeroLeft(xn);
    } else {
      var m := |data| - 1;
      var u, c := Eval(data[..m], x), data[m];
      RemainderAtRoot(data[..m], ecLength, i);
      GeneratorShape(ecLength);
      GeneratorRoots(ecLength, i);
      EvalShift(Remainder(data[..m], ecLength), c, Generator(ecLength), x);
      MulAssociates(u, xn, x);
      MulCommutes(xn, x);
      MulAssociates(u, x, xn);
      MulAddLeft(Mul(u, x), c, xn);
    }
  }

  /** Every codeword is zero at each root of the generator: the syndromes a reader checks. */
  lemma CodewordAtRoots(data: Poly, ecLength: nat, i: nat)
    requires i < ecLength
    ensures Eval(Codeword(data, ecLength), Exp(i)) == 0
  {
    var x := Exp(i);
    EvalConcat(data, Remainder(data, ecLength), x);
    RemainderAtRoot(data, ecLength, i);
    AddLaws(Eval(Remainder(data, ecLength), x), 0);
  }
}
