/**
 How far apart Reed-Solomon codewords are. A nonzero polynomial of at most 255 coefficients
 that vanishes at x^0 to x^(n-1) has more than n nonzero coefficients. So codewords of
 different blocks differ in more than n places, and damage to at most n / 2 bytes of a
 codeword leaves only one block it can have come from.
 */
module MinimumDistance {
  import opened GaloisField
  import opened GfPowers
  import opened Polynomials
  import opened ReedSolomon
  import opened SetSizes

  /** The places where a polynomial is not zero. */
  function Support(p: Poly): set<nat> {
    set k: nat | k < |p| && p[k] != 0
  }

  /** The places where two blocks of bytes disagree. */
  function Differences(p: Poly, q: Poly): set<nat>
    requires |p| == |q|
  {
    set k: nat | k < |p| && p[k] != q[k]
  }

  /** p is zero at x^0 to x^(n - 1). */
  ghost predicate Vanishes(p: Poly, n: nat) {
    forall i: nat :: i < n ==> Eval(p, Exp(i)) == 0
  }

  function Degree(p: Poly, k: nat): nat
    requires k < |p|
  {
    |p| - 1 - k
  }

  // ── Removing one coefficient and one root ──────────────────────────────────

  /** p(x·y) as a polynomial in y, for the generator x of the field. */
  function Twist(p: Poly): (r: Poly)
    ensures |r| == |p|
  {
    seq(|p|, k requires 0 <= k < |p| => Mul(p[k], Exp(Degree(p, k))))
  }

  lemma {:induction false} EvalTwist(p: Poly, i: nat)
    ensures Eval(Twist(p), Exp(i)) == Eval(p, Exp(i + 1))
  {
    if p != [] {
      var n := |p| - 1;
      EvalTwist(p[..n], i);
      TwistInit(p);
      EvalScale(Twist(p[..n]), Exp(1), Exp(i));
      var u := Eval(p[..n], Exp(i + 1));
      MulAssociates(u, Exp(1), Exp(i));
      ExpAdd(1, i);
      TwistLast(p);
    }
  }

  lemma TwistLast(p: Poly)
    requires p != []
    ensures Twist(p)[|p| - 1] == p[|p| - 1]
  {
    MulCommutes(p[|p| - 1], 1);
    MulOneLeft(p[|p| - 1]);
  }

  lemma TwistInit(p: Poly)
    requires p != []
    ensures Twist(p)[..|p| - 1] == Scale(Twist(p[..|p| - 1]), Exp(1))
  {
    var n := |p| - 1;
    forall k: nat | k < n
      ensures Twist(p)[k] == Mul(Twist(p[..n])[k], Exp(1))
    {
      ExpAdd(n - 1 - k, 1);
      MulAssociates(p[k], Exp(n - 1 - k), Exp(1));
    }
  }

  /** p(x·y) + x^d·p(y): the coefficient of degree d goes, and so does one root. */
  function Cancel(p: Poly, d: nat): (r: Poly)
    ensures |r| == |p|
  {
    Sum(Twist(p), Scale(p, Exp(d)))
  }

  lemma CancelVanishes(p: Poly, d: nat, n: nat)
    requires Vanishes(p, n + 1)
    ensures Vanishes(Cancel(p, d), n)
  {
    forall i: nat | i < n
      ensures Eval(Cancel(p, d), Exp(i)) == 0
    {
      EvalSum(Twist(p), Scale(p, Exp(d)), Exp(i));
      EvalTwist(p, i);
      EvalScale(p, Exp(d), Exp(i));
      MulZeroLeft(Exp(d));
      AddLaws(0, 0);
    }
  }

  lemma CancelAt(p: Poly, k: nat, d: nat)
    requires k < |p| <= 255 && d < 255
    ensures Cancel(p, d)[k] == 0 <==> p[k] == 0 || Degree(p, k) == d
  {
    var e := Degree(p, k);
    MulAddRight(p[k], Exp(e), Exp(d));
    MulNonzero(p[k], Add(Exp(e), Exp(d)));
    AddCancels(Exp(e), Exp(d));
    if e < d { ExpInjective(e, d); }
    if d < e { ExpInjective(d, e); }
  }

  lemma CancelSupport(p: Poly, k: nat)
    requires k in Support(p) && |p| <= 255
    ensures Support(Cancel(p, Degree(p, k))) == Support(p) - {k}
  {
    forall j: nat | j < |p|
      ensures Cancel(p, Degree(p, k))[j] == 0 <==> p[j] == 0 || j == k
    {
      CancelAt(p, j, Degree(p, k));
    }
  }

  // ── Weight ─────────────────────────────────────────────────────────────────

  /** A polynomial of one term does not vanish at one. */
  lemma {:induction false} SingleTerm(p: Poly, k: nat)
    requires k < |p| && forall j: nat :: j < |p| && j != k ==> p[j] == 0
    ensures Eval(p, 1) == p[k]
  {
    var n := |p| - 1;
    var v := Eval(p[..n], 1);
    if k == n {
      assert p[..n] == Zeros(n);
      EvalZeros(n, 1);
    } else {
      SingleTerm(p[..n], k);
    }
    MulCommutes(v, 1);
    MulOneLeft(v);
    AddLaws(v, p[n]);
    AddLaws(p[n], v);
  }

  lemma NoSingleTerm(p: Poly, k: nat)
    requires k in Support(p) && Support(p) - {k} == {}
    ensures Eval(p, Exp(0)) != 0
  {
    forall j: nat | j < |p| && j != k ensures p[j] == 0 {
      assert j !in Support(p) - {k};
    }
    SingleTerm(p, k);
  }

  lemma {:induction false} MinimumWeight(p: Poly, n: nat)
    requires |p| <= 255 && Support(p) != {} && Vanishes(p, n)
    ensures |Support(p)| >= n + 1
    decreases n
  {
    var k :| k in Support(p);
    if n > 0 {
      var q := Cancel(p, Degree(p, k));
      CancelSupport(p, k);
      if Support(p) - {k} == {} {
        NoSingleTerm(p, k);
      } else {
        CancelVanishes(p, Degree(p, k), n - 1);
        MinimumWeight(q, n - 1);
      }
    }
  }

  // ── Distance ───────────────────────────────────────────────────────────────

  lemma DifferencesAreSupport(p: Poly, q: Poly)
    requires |p| == |q|
    ensures Differences(p, q) == Support(Sum(p, q))
  {
    forall k: nat | k < |p| ensures Sum(p, q)[k] == 0 <==> p[k] == q[k] {
      AddCancels(p[k], q[k]);
    }
  }

  /** Words of one length that vanish at the n roots are equal or differ in over n places. */
  lemma VanishingWordsDiffer(p: Poly, q: Poly, n: nat)
    requires |p| == |q| <= 255 && p != q && Vanishes(p, n) && Vanishes(q, n)
    ensures |Differences(p, q)| >= n + 1
  {
    DifferencesAreSupport(p, q);
    forall i: nat | i < n ensures Eval(Sum(p, q), Exp(i)) == 0 {
      EvalSum(p, q, Exp(i));
      AddLaws(0, 0);
    }
    var k :| 0 <= k < |p| && p[k] != q[k];
    assert k in Differences(p, q);
    MinimumWeight(Sum(p, q), n);
  }

  lemma CodewordVanishes(data: Poly, ecLength: nat)
    ensures Vanishes(Codeword(data, ecLength), ecLength)
  {
    forall i: nat | i < ecLength ensures Eval(Codeword(data, ecLength), Exp(i)) == 0 {
      CodewordAtRoots(data, ecLength, i);
    }
  }

  /** Codewords of different blocks of one length differ in more than ecLength places. */
  lemma CodewordDistance(a: Poly, b: Poly, ecLength: nat)
    requires |a| == |b| && a != b && |a| + ecLength <= 255
    ensures |Differences(Codeword(a, ecLength), Codeword(b, ecLength))| >= ecLength + 1
  {
    var u, v := Codeword(a, ecLength), Codeword(b, ecLength);
    CodewordVanishes(a, ecLength);
    CodewordVanishes(b, ecLength);
    assert u[..|a|] == a && v[..|b|] == b;
    VanishingWordsDiffer(u, v, ecLength);
  }

  /** The places from `from` on, n of them. */
  function Places(from: nat, n: nat): set<nat> {
    if n == 0 then {} else Places(from, n - 1) + {from + n - 1}
  }

  lemma {:induction false} PlacesSize(from: nat, n: nat)
    ensures |Places(from, n)| == n
    ensures forall k :: k in Places(from, n) <==> from <= k < from + n
  {
    if n > 0 { PlacesSize(from, n - 1); }
  }

  lemma SharedPrefixDiffers(data: Poly, u: Poly, v: Poly)
    requires |u| == |v|
    ensures |Differences(data + u, data + v)| <= |u|
  {
    PlacesSize(|data|, |u|);
    SubsetSize(Differences(data + u, data + v), Places(|data|, |u|));
  }

  /** The error correction bytes are the only ones that make every syndrome zero. */
  lemma RemainderUnique(data: Poly, ec: Poly)
    requires |data| + |ec| <= 255
    ensures Vanishes(data + ec, |ec|) <==> ec == Remainder(data, |ec|)
  {
    CodewordVanishes(data, |ec|);
    if Vanishes(data + ec, |ec|) && ec != Remainder(data, |ec|) {
      SharedPrefixDiffers(data, ec, Remainder(data, |ec|));
      assert (data + ec)[|data|..] == ec;
      assert Codeword(data, |ec|)[|data|..] == Remainder(data, |ec|);
      VanishingWordsDiffer(data + ec, Codeword(data, |ec|), |ec|);
      assert false;
    }
  }

  lemma Triangle(u: Poly, v: Poly, w: Poly)
    requires |u| == |v| == |w|
    ensures |Differences(u, v)| <= |Differences(w, u)| + |Differences(w, v)|
  {
    SubsetSize(Differences(u, v), Differences(w, u) + Differences(w, v));
  }

  /** A word within ecLength / 2 bytes of two codewords shows that they are one. */
  lemma DamageIsCorrectable(received: Poly, a: Poly, b: Poly, ecLength: nat)
    requires |a| == |b| && |received| == |a| + ecLength <= 255
    requires 2 * |Differences(received, Codeword(a, ecLength))| <= ecLength
    requires 2 * |Differences(received, Codeword(b, ecLength))| <= ecLength
    ensures a == b
  {
    Triangle(Codeword(a, ecLength), Codeword(b, ecLength), received);
    if a != b { CodewordDistance(a, b, ecLength); }
  }
}
