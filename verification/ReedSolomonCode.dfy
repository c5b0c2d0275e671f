/**
 The encoder's own arithmetic: the EXP and LOG tables, multiplication through them, and the
 generator and remainder computed in place over byte arrays. Each method is proved to compute
 the polynomials of `ReedSolomon`.
 */
module ReedSolomonCode {
  import opened Bits
  import opened GaloisField
  import opened GfPowers
  import opened Polynomials
  import opened ReedSolomon

  /** The first n entries of a table of powers. */
  ghost predicate PowersTo(exp: array<Byte>, n: nat)
    reads exp
  {
    n <= exp.Length && forall i: nat {:trigger exp[i]} :: i < n ==> exp[i] == Exp(i)
  }

  /** A table of logarithms, right for the powers below n. */
  ghost predicate LogsTo(log: array<Byte>, n: nat)
    reads log
  {
    log.Length == 256 && forall v: nat, i: nat :: v < 256 && i < n && IsLog(v, i) ==> log[v] == i
  }

  class GfTables {
    const exp: array<Byte>
    const log: array<Byte>

    ghost predicate Valid()
      reads this, exp, log
    {
      exp.Length == 512 && PowersTo(exp, 512) && LogsTo(log, 255)
    }

    constructor ()
      ensures Valid() && fresh(exp) && fresh(log)
    {
      exp := new Byte[512](_ => 0);
      log := new Byte[256](_ => 0);
      new;
      FillTables(exp, log);
      for i := 255 to 512
        invariant PowersTo(exp, i) && LogsTo(log, 255)
      {
        exp[i] := exp[i - 255];
        ExpPeriod(255, i - 255);
      }
    }

    /** The logarithm table is right for every nonzero byte. */
    lemma LogTable(v: Byte)
      requires Valid() && v != 0
      ensures log[v] < 255 && Exp(log[v]) == v
    {
      assert IsLog(v, Log(v));
    }

    /** The product, by adding logarithms. */
    method Multiply(a: Byte, b: Byte) returns (product: Byte)
      requires Valid()
      ensures product == Mul(a, b)
    {
      if a == 0 || b == 0 {
        MulNonzero(a, b);
        return 0;
      }
      var sum: nat := log[a] as nat + log[b] as nat;
      product := exp[sum];
      LogTable(a);
      LogTable(b);
      ExpAdd(log[a], log[b]);
    }
  }

  /** The next power has no logarithm below it, so recording its own disturbs none. */
  lemma LogsExtend(log: array<Byte>, n: nat)
    requires n < 255 && LogsTo(log, n)
    ensures forall v: nat, i: nat :: v < 256 && i <= n && IsLog(v, i) ==> if v == Exp(n) then i == n else log[v] == i
  {
    forall v: nat, i: nat | v < 256 && i <= n && IsLog(v, i)
      ensures if v == Exp(n) then i == n else log[v] == i
    {
      if i < n { ExpInjective(i, n); }
    }
  }

  /** One round through the nonzero bytes, each power recorded with its logarithm. */
  method FillTables(exp: array<Byte>, log: array<Byte>)
    requires exp != log && exp.Length == 512 && log.Length == 256
    modifies exp, log
    ensures PowersTo(exp, 255) && LogsTo(log, 255)
  {
    var value := 1;
    for i := 0 to 255
      invariant value == Exp(i)
      invariant PowersTo(exp, i) && LogsTo(log, i)
    {
      LogsExtend(log, i);
      exp[i] := value;
      log[value] := i;
      value := TimesX(value);
    }
  }

  /** The generator polynomial, a factor at a time. */
  method GeneratorPolynomial(tables: GfTables, degree: nat) returns (poly: array<Byte>)
    requires tables.Valid() && degree <= 512
    ensures fresh(poly) && poly[..] == Generator(degree)
  {
    poly := new Byte[1](_ => 1);
    for i := 0 to degree
      invariant fresh(poly) && poly.Length == i + 1 && poly[..] == Generator(i)
    {
      poly := NextFactor(tables, poly, i);
    }
  }

  /** A product with x + root grows with its factor, a coefficient at a time. */
  lemma TimesRootStep(p: Poly, c: Byte, root: Byte)
    ensures |TimesRoot(p, root)| == |p| + 1
    ensures TimesRoot(p + [c], root)
         == TimesRoot(p, root)[..|p|] + [Add(TimesRoot(p, root)[|p|], c), Mul(c, root)]
  {
    var n := |p|;
    var carry := if n > 0 then Mul(p[n - 1], root) else 0;
    AddLaws(carry, c);
    AddLaws(carry, 0);
    AddLaws(Mul(c, root), 0);
  }

  method NextFactor(tables: GfTables, poly: array<Byte>, i: nat) returns (next: array<Byte>)
    requires tables.Valid() && i < 512
    ensures fresh(next) && next[..] == TimesRoot(poly[..], Exp(i))
  {
    var n := poly.Length;
    next := new Byte[n + 1](_ => 0);
    ghost var p, root := poly[..], Exp(i);
    AddLaws(0, 0);
    for j := 0 to n
      invariant poly[..] == p && tables.Valid()
      invariant next[..j + 1] == TimesRoot(p[..j], root)
      invariant forall k: nat :: j < k <= n ==> next[k] == 0
    {
      TimesRootStep(p[..j], p[j], root);
      assert p[..j + 1] == p[..j] + [p[j]];
      var product := tables.Multiply(poly[j], tables.exp[i]);
      AddLaws(product, 0);
      next[j] := Add(next[j], poly[j]);
      next[j + 1] := Add(next[j + 1], product);
    }
    assert p[..n] == p && next[..n + 1] == next[..];
  }

  /** One byte through the shift register, in place. */
  method ShiftIn(tables: GfTables, generator: array<Byte>, remainder: array<Byte>, byte: Byte)
    requires tables.Valid() && generator.Length == remainder.Length + 1
    requires remainder !in {generator, tables.exp, tables.log}
    modifies remainder
    ensures remainder[..] == Shift(old(remainder[..]), byte, generator[..])
  {
    var n := remainder.Length;
    ghost var r := remainder[..];
    var factor := Add(byte, if n > 0 then remainder[0] else 0);
    ghost var shifted := if n == 0 then [] else r[1..] + [0];
    // The bytes move up by one, and zero comes in below.
    forall k: nat | k + 1 < n { remainder[k] := remainder[k + 1]; }
    if n > 0 { remainder[n - 1] := 0; }
    assert remainder[..] == shifted;
    for i := 0 to n
      invariant tables.Valid()
      invariant forall k: nat :: k < i ==> remainder[k] == Add(shifted[k], Mul(generator[k + 1], factor))
      invariant forall k: nat :: i <= k < n ==> remainder[k] == shifted[k]
    {
      var product := tables.Multiply(generator[i + 1], factor);
      remainder[i] := Add(remainder[i], product);
    }
  }

  /** The error correction bytes of a block. */
  method ErrorCorrection(tables: GfTables, data: seq<Byte>, ecLength: nat) returns (remainder: array<Byte>)
    requires tables.Valid() && ecLength <= 512
    ensures fresh(remainder) && remainder[..] == Remainder(data, ecLength)
  {
    var generator := GeneratorPolynomial(tables, ecLength);
    GeneratorShape(ecLength);
    assert generator.Length == |generator[..]|;
    remainder := new Byte[ecLength](_ => 0);
    for i := 0 to |data|
      invariant tables.Valid() && generator[..] == Generator(ecLength)
      invariant remainder[..] == Remainder(data[..i], ecLength)
    {
      assert data[..i + 1][..i] == data[..i];
      ShiftIn(tables, generator, remainder, data[i]);
    }
    assert data[..|data|] == data;
  }
}
