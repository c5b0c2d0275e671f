/**
 Polynomials over GF(256), highest coefficient first, as Reed-Solomon codewords are written.
 */
module Polynomials {
  import opened Bits
  import opened GaloisField

  type Poly = seq<Byte>

  /** The value at x, by Horner's rule. */
  function Eval(p: Poly, x: Byte): Byte {
    if p == [] then 0 else Add(Mul(Eval(p[..|p| - 1], x), x), p[|p| - 1])
  }

  /** x to the n, by repeated multiplication. */
  function Power(x: Byte, n: nat): Byte {
    if n == 0 then 1 else Mul(Power(x, n - 1), x)
  }

  /** The sum of two polynomials of one length. */
  function Sum(p: Poly, q: Poly): (r: Poly)
    requires |p| == |q|
    ensures |r| == |p| && forall k :: 0 <= k < |p| ==> r[k] == Add(p[k], q[k])
  {
    seq(|p|, k requires 0 <= k < |p| => Add(p[k], q[k]))
  }

  function Scale(p: Poly, e: Byte): (r: Poly)
    ensures |r| == |p| && forall k :: 0 <= k < |p| ==> r[k] == Mul(p[k], e)
  {
    seq(|p|, k requires 0 <= k < |p| => Mul(p[k], e))
  }

  function Zeros(n: nat): (r: Poly)
    ensures |r| == n && forall k :: 0 <= k < n ==> r[k] == 0
  {
    seq(n, k => 0)
  }

  lemma EvalAppend(p: Poly, c: Byte, x: Byte)
    ensures Eval(p + [c], x) == Add(Mul(Eval(p, x), x), c)
  {
    assert (p + [c])[..|p|] == p;
  }

  lemma {:induction false} EvalSum(p: Poly, q: Poly, x: Byte)
    requires |p| == |q|
    ensures Eval(Sum(p, q), x) == Add(Eval(p, x), Eval(q, x))
  {
    if p == [] {
      AddLaws(0, 0);
    } else {
      var n := |p| - 1;
      EvalSum(p[..n], q[..n], x);
      assert Sum(p, q)[..n] == Sum(p[..n], q[..n]);
      var u, v := Eval(p[..n], x), Eval(q[..n], x);
      MulCommutes(Add(u, v), x);
      MulAddLeft(u, v, x);
      AddSwap(Mul(u, x), p[n], Mul(v, x), q[n]);
      AddSwap(Mul(u, x), Mul(v, x), p[n], q[n]);
    }
  }

  lemma {:induction false} EvalScale(p: Poly, e: Byte, x: Byte)
    ensures Eval(Scale(p, e), x) == Mul(Eval(p, x), e)
  {
    if p == [] {
      MulZeroLeft(e);
    } else {
      var n := |p| - 1;
      EvalScale(p[..n], e, x);
      assert Scale(p, e)[..n] == Scale(p[..n], e);
      var u := Eval(p[..n], x);
      MulAssociates(u, e, x);
      MulCommutes(e, x);
      MulAssociates(u, x, e);
      MulAddLeft(Mul(u, x), p[n], e);
    }
  }

  lemma {:induction false} EvalZeros(n: nat, x: Byte)
    ensures Eval(Zeros(n), x) == 0
  {
    if n > 0 {
      EvalZeros(n - 1, x);
      assert Zeros(n)[..n - 1] == Zeros(n - 1);
      MulZeroLeft(x);
      AddLaws(0, 0);
    }
  }

  lemma {:induction false} EvalConcat(p: Poly, q: Poly, x: Byte)
    ensures Eval(p + q, x) == Add(Mul(Eval(p, x), Power(x, |q|)), Eval(q, x))
    decreases |q|
  {
    var u := Eval(p, x);
    if q == [] {
      assert p + q == p;
      MulCommutes(u, 1);
      MulOneLeft(u);
      AddLaws(u, 0);
    } else {
      var n := |q| - 1;
      var c := q[n];
      var w := Mul(u, Power(x, n));
      var v := Eval(q[..n], x);
      EvalConcat(p, q[..n], x);
      assert p + q == (p + q[..n]) + [c];
      EvalAppend(p + q[..n], c, x);
      MulAddLeft(w, v, x);
      MulAssociates(u, Power(x, n), x);
      AddAssociates(Mul(w, x), Mul(v, x), c);
    }
  }

  lemma EvalPrepend(c: Byte, q: Poly, x: Byte)
    ensures Eval([c] + q, x) == Add(Mul(c, Power(x, |q|)), Eval(q, x))
  {
    EvalConcat([c], q, x);
    EvalAppend([], c, x);
    assert [] + [c] == [c];
    MulZeroLeft(x);
    AddLaws(c, 0);
  }
}
