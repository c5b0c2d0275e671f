/**
 The decimal printer `formatUnits` of packages/ui-format/src/index.ts and the parser `to_micros`
 of integrations/woocommerce/includes/class-avex-client.php: what is printed is exactly the
 amount, and the parser reads it back as whole micro-dollars.
 */
module UnitFormats {
  import opened DecimalPowers
  import opened DecimalText
  import opened Division

  // ── The printer ────────────────────────────────────────────────────────────

  predicate Negative(s: string) {
    s != "" && s[0] == '-'
  }

  function Unsigned(s: string): string {
    if Negative(s) then s[1..] else s
  }

  predicate IsInteger(amount: string) {
    Unsigned(amount) != "" && AllDigits(Unsigned(amount))
  }

  function Sign(negative: bool): string {
    if negative then "-" else ""
  }

  function StripLeadingZeros(digits: string): string {
    if StripLeft(digits) == "" then "0" else StripLeft(digits)
  }

  function PadStart(s: string, n: nat): string {
    if |s| < n then Noughts(n - |s|) + s else s
  }

  datatype Formatted = Text(text: string) | NotAnInteger | UnreasonableDecimals

  function FormatUnits(amount: string, decimals: int): Formatted {
    if !IsInteger(amount) then NotAnInteger
    else if decimals < 0 || decimals > 36 then UnreasonableDecimals
    else
      var digits := Unsigned(amount);
      if decimals == 0 then Text(Sign(Negative(amount)) + StripLeadingZeros(digits))
      else
        var padded := PadStart(digits, decimals + 1);
        var whole := StripLeadingZeros(padded[..|padded| - decimals]);
        var fraction := StripRight(padded[|padded| - decimals..]);
        Text(Sign(Negative(amount)) + if |fraction| > 0 then whole + "." + fraction else whole)
  }

  /** A decimal number as it is written. */
  datatype Decimal = Decimal(negative: bool, whole: string, fraction: string) {
    function Written(): string {
      Sign(negative) + if |fraction| > 0 then whole + "." + fraction else whole
    }

    /** Digits, with no zero that could be left out. */
    predicate Plain() {
      && AllDigits(whole) && AllDigits(fraction) && whole != ""
      && (whole == "0" || whole[0] != '0')
      && (fraction == "" || fraction[|fraction| - 1] != '0')
    }

    /** Scaled up by ten to the number of decimals, it is this number. */
    predicate Denotes(number: nat, decimals: nat) {
      && Plain() && |fraction| <= decimals && AllDigits(whole + fraction)
      && Number(whole + fraction) * Pow10(decimals - |fraction|) == number
    }
  }

  lemma LeadingZerosStripped(digits: string)
    requires AllDigits(digits)
    ensures var t := StripLeadingZeros(digits);
            AllDigits(t) && t != "" && (t == "0" || t[0] != '0') && Number(t) == Number(digits)
  {
    StripLeftKeepsNumber(digits);
    assert "0"[..0] == "";
  }

  lemma Padded(s: string, n: nat)
    requires AllDigits(s)
    ensures AllDigits(PadStart(s, n)) && Number(PadStart(s, n)) == Number(s) && |PadStart(s, n)| >= n
  {
    if |s| < n {
      NumberConcat(Noughts(n - |s|), s);
      NoughtsAreZero(n - |s|);
    }
  }

  /** Two strings of digits write together what others for the same number and the same tens do. */
  lemma SplitNumbers(front: string, back: string, whole: string, fraction: string, n: nat)
    requires AllDigits(front) && AllDigits(whole) && AllDigits(fraction) && back == fraction + Noughts(n)
    requires Number(whole) == Number(front)
    ensures AllDigits(whole + fraction) && AllDigits(front + back)
    ensures Number(whole + fraction) * Pow10(n) == Number(front + back)
  {
    NumberConcat(front, back);
    NumberConcat(whole, back);
    assert whole + back == (whole + fraction) + Noughts(n);
    NoughtsAreTens(whole + fraction, n);
  }

  /** Digits with the last so many of them after the point. */
  function Pointed(negative: bool, padded: string, decimals: nat): Decimal
    requires decimals <= |padded|
  {
    var n := |padded| - decimals;
    Decimal(negative, StripLeadingZeros(padded[..n]), StripRight(padded[n..]))
  }

  function PartsOf(amount: string, decimals: nat): Decimal
    requires IsInteger(amount)
  {
    Pointed(Negative(amount), PadStart(Unsigned(amount), decimals + 1), decimals)
  }

  lemma SplitDenotes(front: string, back: string, d: Decimal)
    requires AllDigits(front) && AllDigits(back) && d.whole == StripLeadingZeros(front)
           && d.fraction == StripRight(back)
    ensures AllDigits(front + back) && d.Denotes(Number(front + back), |back|)
  {
    LeadingZerosStripped(front);
    RightIsNoughts(back);
    SplitNumbers(front, back, d.whole, d.fraction, |back| - |d.fraction|);
  }

  lemma PointedDenotes(negative: bool, padded: string, decimals: nat, d: Decimal)
    requires AllDigits(padded) && decimals <= |padded| && d == Pointed(negative, padded, decimals)
    ensures d.Denotes(Number(padded), decimals)
  {
    var n := |padded| - decimals;
    var front, back := padded[..n], padded[n..];
    assert padded == front + back && |back| == decimals;
    SplitDenotes(front, back, d);
  }

  lemma NothingAfterPoint(negative: bool, digits: string, decimals: nat)
    requires decimals == 0
    ensures Pointed(negative, digits, decimals) == Decimal(negative, StripLeadingZeros(digits), "")
  {
    assert digits[..|digits|] == digits && digits[|digits|..] == "";
  }

  lemma PartsArePrinted(amount: string, decimals: nat)
    requires IsInteger(amount) && decimals <= 36
    ensures FormatUnits(amount, decimals) == Text(PartsOf(amount, decimals).Written())
  {
    if decimals == 0 { NothingAfterPoint(Negative(amount), Unsigned(amount), decimals); }
  }

  /** What is printed is exactly amount / 10^decimals, with no redundant zeros. */
  lemma FormatIsExact(amount: string, decimals: nat)
    requires IsInteger(amount) && decimals <= 36
    ensures FormatUnits(amount, decimals) == Text(PartsOf(amount, decimals).Written())
    ensures PartsOf(amount, decimals).negative == Negative(amount)
    ensures PartsOf(amount, decimals).Denotes(Number(Unsigned(amount)), decimals)
  {
    PartsArePrinted(amount, decimals);
    Padded(Unsigned(amount), decimals + 1);
    PointedDenotes(Negative(amount), PadStart(Unsigned(amount), decimals + 1), decimals, PartsOf(amount, decimals));
  }

  predicate DigitsFrom(s: string, from: nat) {
    from < |s| && forall i :: from <= i < |s| ==> s[i] in "0123456789"
  }

  /** Refused is what is not digits behind at most one minus sign, and decimals below 0 or above 36. */
  lemma FormatRefuses(amount: string, decimals: int)
    ensures FormatUnits(amount, decimals).NotAnInteger?
       <==> !DigitsFrom(amount, 0) && !(amount != "" && amount[0] == '-' && DigitsFrom(amount, 1))
    ensures FormatUnits(amount, decimals).UnreasonableDecimals?
       <==> !FormatUnits(amount, decimals).NotAnInteger? && (decimals < 0 || decimals > 36)
  {
    forall i | 0 <= i < |amount| ensures IsDigit(amount[i]) <==> amount[i] in "0123456789" { DigitsAre(amount[i]); }
    if amount != "" && amount[0] == '-' {
      assert forall i :: 0 <= i < |amount| - 1 ==> amount[1..][i] == amount[i + 1];
      if DigitsFrom(amount, 1) { assert IsInteger(amount); }
      if IsInteger(amount) {
        forall i | 1 <= i < |amount| ensures amount[i] in "0123456789" { assert IsDigit(amount[1..][i - 1]); }
      }
    }
  }

  // ── The parser ─────────────────────────────────────────────────────────────

  predicate IsTrimmed(c: char) {
    c == ' ' || c == '\t' || c == '\n' || c == '\r' || c == '\0' || c == '\U{b}'
  }

  function TrimLeft(s: string): string {
    if s != "" && IsTrimmed(s[0]) then TrimLeft(s[1..]) else s
  }

  function TrimRight(s: string): string {
    if s != "" && IsTrimmed(s[|s| - 1]) then TrimRight(s[..|s| - 1]) else s
  }

  function FirstDot(s: string): (i: nat)
    ensures i <= |s| && (i < |s| ==> s[i] == '.') && forall j :: 0 <= j < i ==> s[j] != '.'
  {
    if s == "" then 0 else if s[0] == '.' then 0 else 1 + FirstDot(s[1..])
  }

  function OnlyDigits(s: string): string {
    if s == "" then "" else OnlyDigits(s[..|s| - 1]) + if IsDigit(s[|s| - 1]) then [s[|s| - 1]] else ""
  }

  /** So many digits exactly: a short fraction padded, a long one truncated. */
  function Exactly(fraction: string, n: nat): string {
    if |fraction| < n then fraction + Noughts(n - |fraction|) else fraction[..n]
  }

  const MICROS: nat := 6

  function WholeOf(text: string): string {
    var part := text[..FirstDot(text)];
    if part == "" then "0" else OnlyDigits(part)
  }

  function FractionOf(text: string): string {
    var dot := FirstDot(text);
    if dot < |text| then OnlyDigits(text[dot + 1..]) else ""
  }

  /** A decimal amount as a whole number of its so many decimals, the rest cut off. */
  function ToWhole(amount: string, n: nat): string {
    var text := TrimRight(TrimLeft(amount));
    var digits := StripLeft(WholeOf(Unsigned(text)) + Exactly(FractionOf(Unsigned(text)), n));
    if digits == "" then "0" else Sign(Negative(text)) + digits
  }

  function ToMicros(amount: string): string {
    ToWhole(amount, MICROS)
  }

  lemma {:induction false} DigitsOnly(s: string)
    requires AllDigits(s)
    ensures OnlyDigits(s) == s
  {
    if s != "" { DigitsOnly(s[..|s| - 1]); }
  }

  lemma DotIsFirst(s: string, i: nat)
    requires i < |s| && s[i] == '.' && forall j :: 0 <= j < i ==> s[j] != '.'
    ensures FirstDot(s) == i
  {}

  lemma PrintedIsTrim(d: Decimal)
    requires d.Plain()
    ensures TrimRight(TrimLeft(d.Written())) == d.Written()
    ensures Negative(d.Written()) == d.negative
    ensures Unsigned(d.Written()) == if |d.fraction| > 0 then d.whole + "." + d.fraction else d.whole
  {
    var text := d.Written();
    assert text[0] == '-' || IsDigit(text[0]);
    assert IsDigit(text[|text| - 1]);
  }

  lemma DottedIsRead(whole: string, fraction: string)
    requires AllDigits(whole) && AllDigits(fraction) && whole != ""
    ensures WholeOf(whole + "." + fraction) == whole && FractionOf(whole + "." + fraction) == fraction
  {
    var body := whole + "." + fraction;
    DotIsFirst(body, |whole|);
    assert body[..|whole|] == whole && body[|whole| + 1..] == fraction;
    DigitsOnly(whole);
    DigitsOnly(fraction);
  }

  lemma WholeIsRead(whole: string)
    requires AllDigits(whole) && whole != ""
    ensures WholeOf(whole) == whole && FractionOf(whole) == ""
  {
    assert FirstDot(whole) == |whole| && whole[..|whole|] == whole;
    DigitsOnly(whole);
  }

  /** The parser finds the whole and the fraction of what is printed. */
  lemma PartsAreRead(d: Decimal)
    requires d.Plain()
    ensures var body := if |d.fraction| > 0 then d.whole + "." + d.fraction else d.whole;
            WholeOf(body) == d.whole && FractionOf(body) == d.fraction
  {
    if |d.fraction| > 0 { DottedIsRead(d.whole, d.fraction); } else { WholeIsRead(d.whole); }
  }

  lemma RatioOfPowers(x: nat, k: nat, n: nat)
    requires k <= n
    ensures Ratio(x, Pow10(n), Pow10(k)) == x * Pow10(n - k)
  {
    Pow10Sum(k, n - k);
    RatioUp(x, Pow10(k), Pow10(n - k), Pow10(n));
  }

  lemma ShortFraction(digits: string, padded: string, k: nat, n: nat)
    requires AllDigits(digits) && k <= n && padded == digits + Noughts(n - k)
    ensures AllDigits(padded) && Number(padded) == Ratio(Number(digits), Pow10(n), Pow10(k))
  {
    NoughtsAreTens(digits, n - k);
    RatioOfPowers(Number(digits), k, n);
  }

  lemma LongFraction(kept: string, rest: string, n: nat)
    requires AllDigits(kept) && AllDigits(rest)
    ensures AllDigits(kept + rest) && Number(kept) == Ratio(Number(kept + rest), Pow10(n), Pow10(n + |rest|))
  {
    NumberConcat(kept, rest);
    NumberBound(rest);
    Pow10Sum(n, |rest|);
    RatioDown(Number(kept + rest), Pow10(n), Pow10(|rest|), Number(kept), Number(rest));
  }

  /** So many digits of a fraction, after the whole: the number scaled by as many tens, rounded down. */
  lemma DigitsTruncate(whole: string, fraction: string, n: nat)
    requires AllDigits(whole) && AllDigits(fraction)
    ensures AllDigits(whole + fraction) && AllDigits(whole + Exactly(fraction, n))
    ensures Number(whole + Exactly(fraction, n)) == Ratio(Number(whole + fraction), Pow10(n), Pow10(|fraction|))
  {
    if |fraction| < n {
      assert whole + Exactly(fraction, n) == (whole + fraction) + Noughts(n - |fraction|);
      ShortFraction(whole + fraction, whole + Exactly(fraction, n), |fraction|, n);
    } else {
      assert whole + fraction == (whole + fraction[..n]) + fraction[n..];
      LongFraction(whole + fraction[..n], fraction[n..], n);
    }
  }

  /** Scaling a printed number, which has fewer digits, is scaling the amount. */
  lemma SameScaled(number: nat, scaled: nat, k: nat, d: nat, n: nat)
    requires k <= d && scaled == number * Pow10(d - k)
    ensures Ratio(scaled, Pow10(n), Pow10(d)) == Ratio(number, Pow10(n), Pow10(k))
  {
    Pow10Sum(d - k, k);
    RatioOfMultiple(number, Pow10(d - k), Pow10(n), Pow10(k));
  }

  /** An integer written without zeros in front, and without a sign when it is zero. */
  ghost predicate WritesInteger(s: string, negative: bool, number: nat) {
    && AllDigits(Unsigned(s)) && Unsigned(s) != "" && (Unsigned(s) == "0" || Unsigned(s)[0] != '0')
    && Number(Unsigned(s)) == number && (Negative(s) <==> negative && number > 0)
  }

  lemma SignedDigits(negative: bool, digits: string)
    requires AllDigits(digits) && digits != ""
    ensures Negative(Sign(negative) + digits) == negative && Unsigned(Sign(negative) + digits) == digits
  {
    assert IsDigit(digits[0]);
    assert negative ==> ("-" + digits)[0] == '-' && ("-" + digits)[1..] == digits;
    assert !negative ==> "" + digits == digits;
  }

  lemma Nought()
    ensures AllDigits("0") && Number("0") == 0
  {
    assert "0"[..0] == "";
  }

  lemma Stripped(s: string, negative: bool)
    requires AllDigits(s)
    ensures var t := if StripLeft(s) == "" then "0" else Sign(negative) + StripLeft(s);
            WritesInteger(t, negative, Number(s))
  {
    StripLeftKeepsNumber(s);
    StrippedWrites(StripLeft(s), negative);
  }

  lemma StrippedWrites(digits: string, negative: bool)
    requires AllDigits(digits) && (digits == "" || digits[0] != '0')
    ensures WritesInteger(if digits == "" then "0" else Sign(negative) + digits, negative, Number(digits))
  {
    if digits == "" {
      Nought();
    } else {
      LeadingDigitCounts(digits);
      SignedDigits(negative, digits);
    }
  }

  lemma PlainIsRead(d: Decimal, n: nat)
    requires d.Plain()
    ensures AllDigits(d.whole + d.fraction)
    ensures WritesInteger(ToWhole(d.Written(), n), d.negative,
      Ratio(Number(d.whole + d.fraction), Pow10(n), Pow10(|d.fraction|)))
  {
    PrintedIsTrim(d);
    PartsAreRead(d);
    DigitsTruncate(d.whole, d.fraction, n);
    Stripped(d.whole + Exactly(d.fraction, n), d.negative);
  }

  lemma PrintedIsRead(amount: string, decimals: nat, text: string, n: nat)
    requires IsInteger(amount) && decimals <= 36 && FormatUnits(amount, decimals) == Text(text)
    ensures WritesInteger(ToWhole(text, n), Negative(amount),
      Ratio(Number(Unsigned(amount)), Pow10(n), Pow10(decimals)))
  {
    var d := PartsOf(amount, decimals);
    FormatIsExact(amount, decimals);
    PlainIsRead(d, n);
    SameScaled(Number(d.whole + d.fraction), Number(Unsigned(amount)), |d.fraction|, decimals, n);
  }

  /** The parser reads what the printer wrote as the amount in millionths, truncated toward zero. */
  lemma ParserReadsPrinter(amount: string, decimals: nat, text: string)
    requires IsInteger(amount) && decimals <= 36 && FormatUnits(amount, decimals) == Text(text)
    ensures WritesInteger(ToMicros(text), Negative(amount),
      Ratio(Number(Unsigned(amount)), 1_000_000, Pow10(decimals)))
  {
    Powers();
    PrintedIsRead(amount, decimals, text, MICROS);
  }

  /** The amount without zeros in front; -0 is 0. */
  function Canonical(amount: string): string {
    var digits := StripLeft(Unsigned(amount));
    if digits == "" then "0" else Sign(Negative(amount)) + digits
  }

  lemma IntegerIsWrittenOneWay(s: string, t: string, negative: bool, number: nat)
    requires WritesInteger(s, negative, number) && WritesInteger(t, negative, number)
    ensures s == t
  {
    assert "0"[..0] == "";
    if Unsigned(s) != "0" { LeadingDigitCounts(Unsigned(s)); }
    if Unsigned(t) != "0" { LeadingDigitCounts(Unsigned(t)); }
    if number > 0 { WrittenOneWay(Unsigned(s), Unsigned(t)); }
    assert s == Sign(Negative(s)) + Unsigned(s) && t == Sign(Negative(t)) + Unsigned(t);
  }

  lemma ReadAtItsDecimals(amount: string, decimals: nat, text: string)
    requires IsInteger(amount) && decimals <= 36 && FormatUnits(amount, decimals) == Text(text)
    ensures ToWhole(text, decimals) == Canonical(amount)
  {
    var number := Number(Unsigned(amount));
    PrintedIsRead(amount, decimals, text, decimals);
    Stripped(Unsigned(amount), Negative(amount));
    RatioUp(number, Pow10(decimals), 1, Pow10(decimals));
    IntegerIsWrittenOneWay(ToWhole(text, decimals), Canonical(amount), Negative(amount), number);
  }

  /** At six decimals, the parser undoes the printer. */
  lemma MicrosRoundTrip(amount: string, text: string)
    requires FormatUnits(amount, 6) == Text(text)
    ensures ToMicros(text) == Canonical(amount)
  {
    ReadAtItsDecimals(amount, MICROS, text);
  }

  // ── Any text at all ────────────────────────────────────────────────────────

  /** Digits are kept in their order, and every other character is dropped. */
  lemma DigitsAreKept(s: string, c: char)
    ensures OnlyDigits("") == "" && OnlyDigits(s + [c]) == OnlyDigits(s) + if c in "0123456789" then [c] else ""
  {
    DigitsAre(c);
    assert (s + [c])[..|s|] == s;
  }

  predicate Spaces(s: string) {
    forall i :: 0 <= i < |s| ==> s[i] as int in {0, 9, 10, 11, 13, 32}
  }

  /** Neither the first nor the last character is one that is trimmed. */
  predicate Bare(s: string) {
    s != "" ==> !Spaces([s[0]]) && !Spaces([s[|s| - 1]])
  }

  lemma TrimmedOnes(c: char)
    ensures IsTrimmed(c) <==> Spaces([c])
  {
    assert [c][0] == c;
  }

  lemma {:induction false} TrimsLeft(before: string, s: string)
    requires Spaces(before)
    ensures TrimLeft(before + s) == TrimLeft(s)
    decreases |before|
  {
    if before == "" {
      assert before + s == s;
    } else {
      assert (before + s)[1..] == before[1..] + s;
      TrimsLeft(before[1..], s);
    }
  }

  lemma {:induction false} TrimsRight(s: string, after: string)
    requires Spaces(after)
    ensures TrimRight(s + after) == TrimRight(s)
    decreases |after|
  {
    if after == "" {
      assert s + after == s;
    } else {
      var n := |after| - 1;
      assert (s + after)[..|s| + n] == s + after[..n];
      TrimsRight(s, after[..n]);
    }
  }

  lemma Trimmed(before: string, text: string, after: string)
    requires Spaces(before) && Spaces(after) && Bare(text)
    ensures TrimRight(TrimLeft(before + text + after)) == text
  {
    assert before + text + after == before + (text + after);
    TrimsLeft(before, text + after);
    if text == "" {
      assert text + after == after + "";
      TrimsLeft(after, "");
    } else {
      TrimmedOnes(text[0]);
      TrimmedOnes(text[|text| - 1]);
      TrimsRight(text, after);
    }
  }

  lemma SignIsRead(negative: bool, body: string)
    requires negative || body == "" || body[0] != '-'
    ensures Negative(Sign(negative) + body) == negative && Unsigned(Sign(negative) + body) == body
  {
    assert negative ==> (Sign(negative) + body)[1..] == body;
    assert !negative ==> Sign(negative) + body == body;
  }

  lemma NoughtInFront(digits: string)
    requires AllDigits(digits)
    ensures AllDigits("0" + digits) && Number("0" + digits) == Number(digits)
  {
    NumberConcat("0", digits);
    Nought();
  }

  lemma PartsAreScaled(part: string, fraction: string, negative: bool)
    requires AllDigits(fraction)
    ensures var digits := StripLeft((if part == "" then "0" else OnlyDigits(part)) + Exactly(fraction, MICROS));
            && AllDigits(OnlyDigits(part) + fraction)
            && WritesInteger(if digits == "" then "0" else Sign(negative) + digits, negative,
                             Ratio(Number(OnlyDigits(part) + fraction), 1_000_000, Pow10(|fraction|)))
  {
    var whole := if part == "" then "0" else OnlyDigits(part);
    OnlyDigitsAreDigits(part);
    Powers();
    DigitsTruncate(whole, fraction, MICROS);
    if part == "" {
      assert OnlyDigits(part) + fraction == fraction;
      NoughtInFront(fraction);
    }
    Stripped(whole + Exactly(fraction, MICROS), negative);
  }

  lemma PartsOfBody(body: string, dot: nat, part: string, fraction: string)
    requires dot <= |body| && (dot < |body| ==> body[dot] == '.') && forall j :: 0 <= j < dot ==> body[j] != '.'
    requires part == body[..dot] && fraction == if dot < |body| then OnlyDigits(body[dot + 1..]) else ""
    ensures WholeOf(body) == (if part == "" then "0" else OnlyDigits(part)) && FractionOf(body) == fraction
    ensures AllDigits(fraction)
  {
    if dot < |body| { OnlyDigitsAreDigits(body[dot + 1..]); }
  }

  lemma TrimmedIsScaled(text: string, negative: bool, body: string, part: string, fraction: string)
    requires TrimRight(TrimLeft(text)) == Sign(negative) + body && (negative || body == "" || body[0] != '-')
    requires WholeOf(body) == (if part == "" then "0" else OnlyDigits(part)) && FractionOf(body) == fraction
    requires AllDigits(fraction)
    ensures AllDigits(OnlyDigits(part) + fraction)
    ensures WritesInteger(ToMicros(text), negative,
                          Ratio(Number(OnlyDigits(part) + fraction), 1_000_000, Pow10(|fraction|)))
  {
    SignIsRead(negative, body);
    PartsAreScaled(part, fraction, negative);
  }

  /**
   Of any text, with spaces around it, a sign and whatever characters: the digits before the first
   point and those after it, as a number of millionths with the rest cut off.
   */
  lemma AnyTextIsRead(before: string, negative: bool, body: string, after: string, dot: nat, part: string,
                      fraction: string)
    requires Spaces(before) && Spaces(after) && Bare(Sign(negative) + body)
    requires negative || body == "" || body[0] != '-'
    requires dot <= |body| && (dot < |body| ==> body[dot] == '.') && forall j :: 0 <= j < dot ==> body[j] != '.'
    requires part == body[..dot] && fraction == if dot < |body| then OnlyDigits(body[dot + 1..]) else ""
    ensures AllDigits(OnlyDigits(part) + fraction)
    ensures WritesInteger(ToMicros(before + (Sign(negative) + body) + after), negative,
                          Ratio(Number(OnlyDigits(part) + fraction), 1_000_000, Pow10(|fraction|)))
  {
    PartsOfBody(body, dot, part, fraction);
    Trimmed(before, Sign(negative) + body, after);
    TrimmedIsScaled(before + (Sign(negative) + body) + after, negative, body, part, fraction);
  }

  lemma {:induction false} OnlyDigitsAreDigits(s: string)
    ensures AllDigits(OnlyDigits(s))
  {
    if s != "" { OnlyDigitsAreDigits(s[..|s| - 1]); }
  }

  /** Whatever it is given, the parser answers with an integer in its canonical form. */
  lemma ParserIsTotal(amount: string)
    ensures IsInteger(ToMicros(amount)) && Canonical(ToMicros(amount)) == ToMicros(amount)
  {
    var text := Unsigned(TrimRight(TrimLeft(amount)));
    OnlyDigitsAreDigits(text[..FirstDot(text)]);
    if FirstDot(text) < |text| { OnlyDigitsAreDigits(text[FirstDot(text) + 1..]); }
    var digits := WholeOf(text) + Exactly(FractionOf(text), MICROS);
    assert AllDigits(digits);
    Stripped(digits, Negative(TrimRight(TrimLeft(amount))));
    WrittenIsCanonical(ToMicros(amount), Negative(TrimRight(TrimLeft(amount))), Number(digits));
  }

  lemma WrittenIsCanonical(s: string, negative: bool, number: nat)
    requires WritesInteger(s, negative, number)
    ensures Canonical(s) == s
  {
    Stripped(Unsigned(s), Negative(s));
    IntegerIsWrittenOneWay(s, Canonical(s), negative, number);
  }

  /** Amounts that are printed alike are the same number, with the same sign. */
  lemma PrintedAlike(a: string, b: string, decimals: nat, text: string)
    requires IsInteger(a) && IsInteger(b) && decimals <= 36
    requires FormatUnits(a, decimals) == Text(text) && FormatUnits(b, decimals) == Text(text)
    ensures Number(Unsigned(a)) == Number(Unsigned(b)) && Negative(a) == Negative(b)
  {
    PrintedIsRead(a, decimals, text, decimals);
    PrintedIsRead(b, decimals, text, decimals);
    RatioUp(Number(Unsigned(a)), Pow10(decimals), 1, Pow10(decimals));
    RatioUp(Number(Unsigned(b)), Pow10(decimals), 1, Pow10(decimals));
    FormatIsExact(a, decimals);
    FormatIsExact(b, decimals);
    PrintedIsTrim(PartsOf(a, decimals));
    PrintedIsTrim(PartsOf(b, decimals));
  }
}
