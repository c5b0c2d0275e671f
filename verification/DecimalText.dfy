/**
 Decimal digits and the numbers they write, with zeros dropped from either end.
 */
module DecimalText {
  import opened DecimalPowers

  predicate IsDigit(c: char) {
    '0' <= c <= '9'
  }

  predicate AllDigits(s: string) {
    forall i :: 0 <= i < |s| ==> IsDigit(s[i])
  }

  function Digit(c: char): (d: nat)
    requires IsDigit(c)
    ensures d < 10
  {
    (c - '0') as nat
  }

  lemma DigitsAre(c: char)
    ensures IsDigit(c) <==> c in "0123456789"
    ensures IsDigit(c) ==> "0123456789"[Digit(c)] == c
  {}

  /** The number a string of digits writes. */
  function Number(s: string): nat
    requires AllDigits(s)
  {
    if s == "" then 0 else 10 * Number(s[..|s| - 1]) + Digit(s[|s| - 1])
  }

  function Noughts(n: nat): (zeros: string)
    ensures |zeros| == n && AllDigits(zeros)
  {
    seq(n, _ => '0')
  }

  /** How many zeros there are in front. */
  function NoughtsInFront(s: string): (k: nat)
    ensures k <= |s| && (k < |s| ==> s[k] != '0')
    ensures forall j :: 0 <= j < k ==> s[j] == '0'
  {
    if s != "" && s[0] == '0' then 1 + NoughtsInFront(s[1..]) else 0
  }

  /** The place after the last one before n that is not a zero. */
  function BeforeNoughts(s: string, n: nat): (k: nat)
    requires n <= |s|
    ensures k <= n && (k > 0 ==> s[k - 1] != '0')
    ensures forall j :: k <= j < n ==> s[j] == '0'
  {
    if n > 0 && s[n - 1] == '0' then BeforeNoughts(s, n - 1) else n
  }

  /** Without zeros in front. */
  function StripLeft(s: string): string {
    s[NoughtsInFront(s)..]
  }

  /** Without zeros at the end. */
  function StripRight(s: string): string {
    s[..BeforeNoughts(s, |s|)]
  }

  lemma NumberAppend(s: string, c: char)
    requires AllDigits(s) && IsDigit(c)
    ensures AllDigits(s + [c]) && Number(s + [c]) == 10 * Number(s) + Digit(c)
  {
    assert (s + [c])[..|s|] == s;
  }

  lemma ShiftTen(x: nat, p: nat, y: nat, d: nat)
    ensures 10 * (x * p + y) + d == x * (10 * p) + (10 * y + d)
  {}

  lemma {:induction false} NumberConcat(a: string, b: string)
    requires AllDigits(a) && AllDigits(b)
    ensures AllDigits(a + b) && Number(a + b) == Number(a) * Pow10(|b|) + Number(b)
    decreases |b|
  {
    if b == "" {
      assert a + b == a;
    } else {
      var n := |b| - 1;
      NumberConcat(a, b[..n]);
      assert a + b == (a + b[..n]) + [b[n]];
      NumberAppend(a + b[..n], b[n]);
      ShiftTen(Number(a), Pow10(n), Number(b[..n]), Digit(b[n]));
    }
  }

  lemma {:induction false} NumberBound(s: string)
    requires AllDigits(s)
    ensures Number(s) < Pow10(|s|)
  {
    if s != "" { NumberBound(s[..|s| - 1]); }
  }

  lemma {:induction false} NoughtsAreZero(n: nat)
    ensures Number(Noughts(n)) == 0
  {
    if n > 0 {
      NoughtsAreZero(n - 1);
      assert Noughts(n)[..n - 1] == Noughts(n - 1);
    }
  }

  /** Zeros in front do not count. */
  lemma StripLeftKeepsNumber(s: string)
    requires AllDigits(s)
    ensures AllDigits(StripLeft(s)) && Number(StripLeft(s)) == Number(s)
  {
    var n, t := |s| - |StripLeft(s)|, StripLeft(s);
    assert s == Noughts(n) + t;
    NumberConcat(Noughts(n), t);
    NoughtsAreZero(n);
  }

  lemma RightIsNoughts(s: string)
    ensures s == StripRight(s) + Noughts(|s| - |StripRight(s)|)
  {}

  /** Zeros at the end are factors of ten. */
  lemma NoughtsAreTens(s: string, n: nat)
    requires AllDigits(s)
    ensures AllDigits(s + Noughts(n)) && Number(s + Noughts(n)) == Number(s) * Pow10(n)
  {
    NumberConcat(s, Noughts(n));
    NoughtsAreZero(n);
  }

  // ── One way to write a number ──────────────────────────────────────────────

  lemma {:induction false} LeadingDigitCounts(s: string)
    requires AllDigits(s) && s != "" && s[0] != '0'
    ensures Number(s) > 0
  {
    if |s| > 1 { LeadingDigitCounts(s[..|s| - 1]); } else { assert s[..0] == ""; }
  }

  /** Digits without zeros in front are determined by the number they write. */
  lemma {:induction false} WrittenOneWay(a: string, b: string)
    requires AllDigits(a) && AllDigits(b) && Number(a) == Number(b)
    requires (a == "" || a[0] != '0') && (b == "" || b[0] != '0')
    ensures a == b
    decreases |a|
  {
    if a == "" || b == "" {
      if a != "" { LeadingDigitCounts(a); }
      if b != "" { LeadingDigitCounts(b); }
    } else {
      var m, n := |a| - 1, |b| - 1;
      assert Number(a[..m]) == Number(b[..n]) && Digit(a[m]) == Digit(b[n]);
      WrittenOneWay(a[..m], b[..n]);
      assert a == a[..m] + [a[m]] && b == b[..n] + [b[n]];
    }
  }
}
