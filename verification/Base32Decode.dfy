/**
 `base32Decode` of apps/api/src/auth/totp.ts: text in either case, with white space and with
 padding at its end, read five bits at a time; and what it makes of text that `base32Encode` wrote.
 */
module Base32Decode {
  import opened Bits
  import opened Base32Groups
  import opened Base32Text
  import opened Base32
  import opened WhiteSpace

  /**
   A character in upper case: those outside ASCII that become letters of it do, and the others
   are left as they are.
   */
  function Upper(c: char): string {
    if 'a' <= c <= 'z' then [c - 'a' + 'A']
    else if c == '\U{131}' then "I"
    else if c == '\U{17f}' then "S"
    else if c == '\U{df}' then "SS"
    else if c == '\U{fb00}' then "FF"
    else if c == '\U{fb01}' then "FI"
    else if c == '\U{fb02}' then "FL"
    else if c == '\U{fb03}' then "FFI"
    else if c == '\U{fb04}' then "FFL"
    else if c == '\U{fb05}' || c == '\U{fb06}' then "ST"
    else [c]
  }

  /** Each character's own string, one after the other. */
  function FlatMap(f: char -> string, text: string): string {
    if text == "" then "" else FlatMap(f, text[..|text| - 1]) + f(text[|text| - 1])
  }

  function UpperAll(text: string): string {
    FlatMap(Upper, text)
  }

  function StripPadding(text: string): string {
    if text != "" && text[|text| - 1] == '=' then StripPadding(text[..|text| - 1]) else text
  }

  function StripSpaces(text: string): string {
    if text == "" then ""
    else
      var n := |text| - 1;
      StripSpaces(text[..n]) + if IsSpace(text[n]) then "" else [text[n]]
  }

  /** The characters that are decoded. */
  function Clean(text: string): string {
    StripSpaces(StripPadding(UpperAll(text)))
  }

  datatype Decoding = Ok(bytes: seq<Byte>) | Invalid(c: char)

  predicate AllInAlphabet(text: string) {
    forall i :: 0 <= i < |text| ==> InAlphabet(text[i])
  }

  /** The first character that is not in the alphabet, or the bytes. */
  ghost predicate IsDecoding(clean: string, d: Decoding) {
    match d
    case Ok(bytes) => AllInAlphabet(clean) && bytes == Decoded(clean)
    case Invalid(c) => exists i :: 0 <= i < |clean| && clean[i] == c && !InAlphabet(c) && AllInAlphabet(clean[..i])
  }

  ghost predicate Read(out: seq<Byte>, done: seq<Bit>, pending: seq<Bit>, all: seq<Bit>) {
    |done| % 8 == 0 && done + pending == all && out == Bytes(done)
  }

  lemma PrefixInAlphabet(clean: string, i: nat)
    requires i < |clean| && AllInAlphabet(clean[..i + 1])
    ensures AllInAlphabet(clean[..i]) && InAlphabet(clean[i])
    ensures Values(clean[..i + 1]) == Values(clean[..i]) + [ValueOf(clean[i])]
  {
    assert clean[..i + 1] == clean[..i] + [clean[i]];
    forall j | 0 <= j < i ensures InAlphabet(clean[..i][j]) { assert clean[..i][j] == clean[..i + 1][j]; }
  }

  /** One character is shifted into the accumulator. */
  method TakeChar(buffer: nat, clean: string, i: nat, ghost older: nat, ghost pending: seq<Bit>)
    returns (after: nat, ghost kept: nat, ghost more: seq<Bit>)
    requires i < |clean| && AllInAlphabet(clean[..i + 1]) && Holds(buffer, older, pending) && |pending| < 8
    ensures |more| == 5 && AllInAlphabet(clean[..i])
    ensures QuintBits(Values(clean[..i + 1])) == QuintBits(Values(clean[..i])) + more
    ensures Holds(after, kept, pending + more)
  {
    PrefixInAlphabet(clean, i);
    more := QuintAppend(Values(clean[..i]), ValueOf(clean[i]));
    kept := ShiftInHolds(WIDTH, buffer, older, pending, more);
    after := ShiftIn(WIDTH, buffer, 5, ValueOf(clean[i]));
  }

  /** A byte leaves it. */
  lemma ByteOut(buffer: nat, older: nat, out: seq<Byte>, done: seq<Bit>, pending: seq<Bit>,
      all: seq<Bit>) returns (left: nat, byte: Byte)
    requires Read(out, done, pending, all) && Holds(buffer, older, pending) && |pending| >= 8
    ensures byte == ShiftOut(buffer, |pending| - 8) % 256 && Holds(buffer, left, pending[8..])
    ensures Read(out + [byte], done + pending[..8], pending[8..], all)
  {
    var first, rest := pending[..8], pending[8..];
    assert pending == first + rest;
    ShiftOutHolds(buffer, older, pending, first, rest);
    Powers(5, 8);
    ByteBound(first);
    byte := Val(first);
    Lowest(ShiftOut(buffer, |rest|), older, byte, 256);
    BytesConcat(done, first);
    BytesOfOne(first);
    left := older * Pow2(8) + Val(first);
  }

  method Push(buffer: nat, full: nat, bytes: seq<Byte>, ghost older: nat, ghost before: seq<Bit>,
      ghost held: seq<Bit>, ghost all: seq<Bit>)
    returns (out: seq<Byte>, bits: nat, ghost left: nat, ghost done: seq<Bit>, ghost pending: seq<Bit>)
    requires Read(bytes, before, held, all) && |held| == full < 16 && Holds(buffer, older, held)
    ensures Read(out, done, pending, all) && |pending| == bits < 8 && Holds(buffer, left, pending)
  {
    out, bits, left, done, pending := bytes, full, older, before, held;
    if bits >= 8 {
      ghost var byte;
      left, byte := ByteOut(buffer, older, bytes, before, held, all);
      out := out + [ShiftOut(buffer, bits - 8) % 256];
      done, pending, bits := done + pending[..8], pending[8..], bits - 8;
    }
  }

  lemma ReadIn(out: seq<Byte>, done: seq<Bit>, pending: seq<Bit>, all: seq<Bit>, more: seq<Bit>)
    requires Read(out, done, pending, all)
    ensures Read(out, done, pending + more, all + more)
  {}

  lemma ReadAll(out: seq<Byte>, done: seq<Bit>, pending: seq<Bit>, clean: string)
    requires AllInAlphabet(clean) && Read(out, done, pending, QuintBits(Values(clean))) && |pending| < 8
    ensures out == Decoded(clean)
  {
    NoByte(done, pending);
  }

  lemma OneMoreInAlphabet(clean: string, i: nat)
    requires i < |clean| && AllInAlphabet(clean[..i]) && InAlphabet(clean[i])
    ensures AllInAlphabet(clean[..i + 1])
  {
    assert clean[..i + 1] == clean[..i] + [clean[i]];
  }

  method Base32Decode(encoded: string) returns (d: Decoding)
    ensures IsDecoding(Clean(encoded), d)
  {
    var clean := Clean(encoded);
    var out: seq<Byte> := [];
    var buffer, bits: nat := 0, 0;
    ghost var older: nat, done: seq<Bit>, pending: seq<Bit> := 0, [], [];
    for i := 0 to |clean|
      invariant AllInAlphabet(clean[..i]) && |pending| == bits < 8 && Holds(buffer, older, pending)
      invariant Read(out, done, pending, QuintBits(Values(clean[..i])))
    {
      if !InAlphabet(clean[i]) { return Invalid(clean[i]); }
      OneMoreInAlphabet(clean, i);
      ghost var more, all := [], QuintBits(Values(clean[..i]));
      buffer, older, more := TakeChar(buffer, clean, i, older, pending);
      ReadIn(out, done, pending, all, more);
      out, bits, older, done, pending := Push(buffer, bits + 5, out, older, done, pending + more, all + more);
    }
    assert clean[..|clean|] == clean;
    ReadAll(out, done, pending, clean);
    d := Ok(out);
  }

  // ── Text that was written by encoding ──────────────────────────────────────

  predicate Plain(text: string) {
    forall i :: 0 <= i < |text| ==> text[i] != '=' && !IsSpace(text[i]) && Upper(text[i]) == [text[i]]
  }

  lemma PlainChar(quint: Quint)
    ensures 'A' <= Char(quint) <= 'Z' || '2' <= Char(quint) <= '7'
  {
    if quint < 26 {
      assert ALPHABET[quint] == 'A' + quint as char;
    } else {
      assert ALPHABET[quint] == '2' + (quint - 26) as char;
    }
  }

  lemma LetterIsPlain(c: char)
    requires InAlphabet(c)
    ensures 'A' <= c <= 'Z' || '2' <= c <= '7'
  {
    PlainChar(ValueOf(c));
  }

  lemma LettersAndDigits(c: char)
    requires 'A' <= c <= 'Z' || '2' <= c <= '7'
    ensures c != '=' && !IsSpace(c) && Upper(c) == [c]
  {}

  lemma LettersArePlain(text: string)
    requires AllInAlphabet(text)
    ensures Plain(text)
  {
    forall i | 0 <= i < |text| ensures text[i] != '=' && !IsSpace(text[i]) && Upper(text[i]) == [text[i]] {
      LetterIsPlain(text[i]);
      LettersAndDigits(text[i]);
    }
  }

  lemma {:induction false} NothingGoes(text: string)
    requires forall i :: 0 <= i < |text| ==> !IsSpace(text[i])
    ensures StripSpaces(text) == text
  {
    if text != "" { NothingGoes(text[..|text| - 1]); }
  }

  lemma {:induction false} FlatMapConcat(f: char -> string, a: string, b: string)
    ensures FlatMap(f, a + b) == FlatMap(f, a) + FlatMap(f, b)
    decreases |b|
  {
    if b == "" {
      assert a + b == a;
    } else {
      var rest, last := b[..|b| - 1], b[|b| - 1];
      FlatMapConcat(f, a, rest);
      FlatMapLast(f, a + rest, last);
      assert a + b == (a + rest) + [last];
    }
  }

  lemma FlatMapLast(f: char -> string, text: string, c: char)
    ensures FlatMap(f, text + [c]) == FlatMap(f, text) + f(c)
  {
    assert (text + [c])[..|text|] == text;
  }

  lemma {:induction false} FlatMapIs(f: char -> string, text: string, image: string)
    requires |image| == |text| && forall i :: 0 <= i < |text| ==> f(text[i]) == [image[i]]
    ensures FlatMap(f, text) == image
  {
    if text != "" { FlatMapIs(f, text[..|text| - 1], image[..|text| - 1]); }
  }

  lemma {:induction false} FlatMapAvoids(f: char -> string, text: string, c: char)
    requires forall i :: 0 <= i < |text| ==> c !in f(text[i])
    ensures c !in FlatMap(f, text)
  {
    if text != "" { FlatMapAvoids(f, text[..|text| - 1], c); }
  }

  lemma UpperKeeps(text: string)
    requires forall i :: 0 <= i < |text| ==> Upper(text[i]) == [text[i]]
    ensures UpperAll(text) == text
  {
    FlatMapIs(Upper, text, text);
  }

  lemma CleanOfPlain(text: string)
    requires Plain(text)
    ensures Clean(text) == text
  {
    UpperKeeps(text);
    NothingGoes(text);
  }

  /** Decoding gives back what was encoded, and nothing else. */
  lemma RoundTrip(bytes: seq<Byte>, d: Decoding)
    ensures IsDecoding(Clean(Encoded(bytes)), d) <==> d == Ok(bytes)
  {
    DecodedOfEncoded(bytes);
    LettersArePlain(Encoded(bytes));
    CleanOfPlain(Encoded(bytes));
  }

  function Padding(n: nat): string {
    seq(n, _ => '=')
  }

  lemma {:induction false} StripPaddingOf(text: string, n: nat)
    requires text == "" || text[|text| - 1] != '='
    ensures StripPadding(text + Padding(n)) == text
  {
    if n == 0 {
      assert text + Padding(n) == text;
    } else {
      StripPaddingOf(text, n - 1);
      assert (text + Padding(n))[..|text| + n - 1] == text + Padding(n - 1);
    }
  }

  lemma UpperIsNoPadding(c: char)
    requires c != '='
    ensures '=' !in Upper(c)
  {}

  lemma NoPaddingInUpper(text: string)
    requires '=' !in text
    ensures '=' !in UpperAll(text)
  {
    forall i | 0 <= i < |text| ensures '=' !in Upper(text[i]) { UpperIsNoPadding(text[i]); }
    FlatMapAvoids(Upper, text, '=');
  }

  lemma UpperOfPadded(text: string, n: nat)
    ensures UpperAll(text + Padding(n)) == UpperAll(text) + Padding(n)
  {
    FlatMapConcat(Upper, text, Padding(n));
    UpperKeeps(Padding(n));
  }

  lemma CleanOfPadded(text: string, n: nat)
    requires '=' !in text
    ensures Clean(text + Padding(n)) == StripSpaces(UpperAll(text))
  {
    UpperOfPadded(text, n);
    NoPaddingInUpper(text);
    StripPaddingFrom(UpperAll(text), n);
  }

  lemma StripPaddingFrom(text: string, n: nat)
    requires '=' !in text
    ensures StripPadding(text + Padding(n)) == text
  {
    if text != "" { assert text[|text| - 1] in text; }
    StripPaddingOf(text, n);
  }

  /** Case, white space inside and padding at the end make no difference. */
  lemma DecorationIsIgnored(text: string, n: nat, bytes: seq<Byte>, d: Decoding)
    requires '=' !in text && StripSpaces(UpperAll(text)) == Encoded(bytes)
    ensures IsDecoding(Clean(text + Padding(n)), d) <==> d == Ok(bytes)
  {
    CleanOfPadded(text, n);
    DecodedOfEncoded(bytes);
  }

  function Lower(c: char): char {
    if 'A' <= c <= 'Z' then c - 'A' + 'a' else c
  }

  function LowerAll(text: string): (lower: string)
    ensures |lower| == |text|
  {
    seq(|text|, i requires 0 <= i < |text| => Lower(text[i]))
  }

  lemma {:induction false} StripSpacesConcat(a: string, b: string)
    ensures StripSpaces(a + b) == StripSpaces(a) + StripSpaces(b)
    decreases |b|
  {
    if b == "" {
      assert a + b == a;
    } else {
      var n := |b| - 1;
      StripSpacesConcat(a, b[..n]);
      assert (a + b)[..|a + b| - 1] == a + b[..n];
    }
  }

  lemma {:induction false} SpacesGo(spaces: string)
    requires Blank(spaces)
    ensures StripSpaces(spaces) == ""
  {
    if spaces != "" { SpacesGo(spaces[..|spaces| - 1]); }
  }

  lemma UpperOfLower(text: string)
    requires Plain(text)
    ensures UpperAll(LowerAll(text)) == text
  {
    FlatMapIs(Upper, LowerAll(text), text);
  }

  lemma SpaceIsNoLetter(c: char)
    requires IsSpace(c)
    ensures c != '=' && Upper(c) == [c]
  {}

  lemma SpacesAreKept(spaces: string)
    requires Blank(spaces)
    ensures '=' !in spaces && UpperAll(spaces) == spaces
  {
    forall i | 0 <= i < |spaces| ensures spaces[i] != '=' && Upper(spaces[i]) == [spaces[i]] {
      SpaceIsNoLetter(spaces[i]);
    }
    UpperKeeps(spaces);
  }

  /** White space, or what an encoded character is in lower case. */
  predicate Typed(c: char) {
    IsSpace(c) || 'a' <= c <= 'z' || '2' <= c <= '7'
  }

  lemma {:induction false} StripKeeps(text: string, i: nat)
    requires i < |text| && !IsSpace(text[i])
    ensures text[i] in StripSpaces(text)
  {
    if i < |text| - 1 { StripKeeps(text[..|text| - 1], i); }
  }

  lemma LowerLetter(c: char)
    requires InAlphabet(c)
    ensures Typed(Lower(c))
  {
    LetterIsPlain(c);
  }

  lemma LowerIsTyped(letters: string, c: char)
    requires AllInAlphabet(letters) && c in LowerAll(letters)
    ensures Typed(c)
  {
    var k :| 0 <= k < |letters| && LowerAll(letters)[k] == c;
    LowerLetter(letters[k]);
  }

  /** What is left without white space being encoded text in lower case, all of it is typed text. */
  lemma AllTyped(text: string, lower: string, letters: string)
    requires AllInAlphabet(letters) && lower == LowerAll(letters) && StripSpaces(text) == lower
    ensures forall i :: 0 <= i < |text| ==> Typed(text[i])
  {
    forall i: nat | i < |text| ensures Typed(text[i]) {
      if !IsSpace(text[i]) {
        StripKeeps(text, i);
        LowerIsTyped(letters, text[i]);
      }
    }
  }

  lemma TypedIsUpper(c: char) returns (u: char)
    requires Typed(c)
    ensures c != '=' && Upper(c) == [u] && (IsSpace(c) <==> IsSpace(u)) && (IsSpace(c) ==> u == c)
  {
    if IsSpace(c) { SpaceIsNoLetter(c); }
    u := Upper(c)[0];
  }

  lemma StripLast(text: string, c: char)
    ensures StripSpaces(text + [c]) == StripSpaces(text) + if IsSpace(c) then "" else [c]
  {
    assert (text + [c])[..|text|] == text;
  }

  ghost predicate StripsAlike(text: string) {
    StripSpaces(UpperAll(text)) == UpperAll(StripSpaces(text))
  }

  lemma StripsAlikeNext(text: string, c: char)
    requires StripsAlike(text) && Typed(c)
    ensures StripsAlike(text + [c])
  {
    var u := TypedIsUpper(c);
    var kept := StripSpaces(text);
    FlatMapLast(Upper, text, c);
    StripLast(UpperAll(text), u);
    StripLast(text, c);
    FlatMapLast(Upper, kept, c);
    if IsSpace(c) { assert kept + "" == kept && StripSpaces(UpperAll(text)) + "" == StripSpaces(UpperAll(text)); }
  }

  lemma {:induction false} UpperThenStrip(text: string)
    requires forall i :: 0 <= i < |text| ==> Typed(text[i])
    ensures StripsAlike(text)
  {
    if text != "" {
      UpperThenStrip(text[..|text| - 1]);
      StripsAlikeNext(text[..|text| - 1], text[|text| - 1]);
      assert text == text[..|text| - 1] + [text[|text| - 1]];
    }
  }

  lemma TypedHasNoPadding(text: string)
    requires forall i :: 0 <= i < |text| ==> Typed(text[i])
    ensures '=' !in text
  {
    if '=' in text {
      var i :| 0 <= i < |text| && text[i] == '=';
      var u := TypedIsUpper(text[i]);
    }
  }

  /** What was encoded is read in lower case, with white space anywhere in it and padding after it. */
  lemma TypedTextIsRead(bytes: seq<Byte>, text: string, n: nat, d: Decoding)
    requires StripSpaces(text) == LowerAll(Encoded(bytes))
    ensures IsDecoding(Clean(text + Padding(n)), d) <==> d == Ok(bytes)
  {
    DecodedOfEncoded(bytes);
    LettersArePlain(Encoded(bytes));
    AllTyped(text, LowerAll(Encoded(bytes)), Encoded(bytes));
    UpperThenStrip(text);
    TypedHasNoPadding(text);
    UpperOfLower(Encoded(bytes));
    DecorationIsIgnored(text, n, bytes, d);
  }

  lemma NotALetter(c: char)
    requires !('A' <= c <= 'Z' || '2' <= c <= '7')
    ensures !InAlphabet(c)
  {
    if InAlphabet(c) { LetterIsPlain(c); }
  }

  lemma CleanOfPaddedAndSpaced(text: string, n: nat, space: char)
    requires Plain(text) && IsSpace(space)
    ensures Clean(text + Padding(n) + [space]) == text + Padding(n)
  {
    var padded := text + Padding(n);
    SpacesAreKept([space]);
    UpperKeeps(text);
    UpperKeeps(Padding(n));
    FlatMapConcat(Upper, text, Padding(n));
    FlatMapConcat(Upper, padded, [space]);
    StripSpacesConcat(padded, [space]);
    SpacesGo([space]);
    NothingGoes(padded);
    assert (padded + [space])[|padded|] == space;
  }

  lemma PaddingIsInvalid(text: string, n: nat, d: Decoding)
    requires AllInAlphabet(text) && n > 0
    ensures IsDecoding(text + Padding(n), d) <==> d == Invalid('=')
  {
    NotALetter('=');
    assert (text + Padding(n))[..|text|] == text;
    FirstInvalid(text + Padding(n), |text|, d);
  }

  /** But white space after the padding keeps it in, and the text is refused. */
  lemma PaddingBeforeSpaceIsRefused(bytes: seq<Byte>, n: nat, space: char, d: Decoding)
    requires n > 0 && IsSpace(space)
    ensures IsDecoding(Clean(Encoded(bytes) + Padding(n) + [space]), d) <==> d == Invalid('=')
  {
    DecodedOfEncoded(bytes);
    LettersArePlain(Encoded(bytes));
    CleanOfPaddedAndSpaced(Encoded(bytes), n, space);
    PaddingIsInvalid(Encoded(bytes), n, d);
  }

  lemma InPrefix(clean: string, n: nat, j: nat)
    requires j < n <= |clean| && AllInAlphabet(clean[..n])
    ensures InAlphabet(clean[j])
  {
    assert clean[..n][j] == clean[j];
  }

  lemma FirstInvalid(clean: string, i: nat, d: Decoding)
    requires i < |clean| && AllInAlphabet(clean[..i]) && !InAlphabet(clean[i])
    ensures IsDecoding(clean, d) <==> d == Invalid(clean[i])
  {
    if d.Invalid? && IsDecoding(clean, d) {
      var j :| 0 <= j < |clean| && clean[j] == d.c && !InAlphabet(d.c) && AllInAlphabet(clean[..j]);
      if j < i { InPrefix(clean, i, j); }
      if i < j { InPrefix(clean, j, i); }
    }
  }

  // ── Which text is accepted ─────────────────────────────────────────────────

  /** The characters left without padding and white space, wherever they are. */
  function Letters(text: string): string {
    if text == "" then ""
    else
      var n := |text| - 1;
      Letters(text[..n]) + if IsSpace(text[n]) || text[n] == '=' then "" else [text[n]]
  }

  lemma {:induction false} PaddingSplits(text: string) returns (n: nat)
    ensures text == StripPadding(text) + Padding(n)
  {
    if text != "" && text[|text| - 1] == '=' {
      n := PaddingSplits(text[..|text| - 1]);
      n := n + 1;
      assert Padding(n) == Padding(n - 1) + "=";
    } else {
      n := 0;
    }
  }

  lemma {:induction false} LettersOfPadded(text: string, n: nat)
    ensures Letters(text + Padding(n)) == Letters(text)
  {
    if n == 0 {
      assert text + Padding(n) == text;
    } else {
      LettersOfPadded(text, n - 1);
      assert (text + Padding(n))[..|text| + n - 1] == text + Padding(n - 1);
    }
  }

  lemma {:induction false} LettersWithoutPadding(text: string)
    requires '=' !in text
    ensures Letters(text) == StripSpaces(text)
  {
    if text != "" {
      var n := |text| - 1;
      assert text[n] in text && forall c :: c in text[..n] ==> c in text;
      LettersWithoutPadding(text[..n]);
    }
  }

  lemma {:induction false} PaddingStays(text: string)
    requires '=' in text
    ensures '=' in StripSpaces(text)
  {
    var n := |text| - 1;
    if text[n] != '=' {
      assert '=' in text[..n];
      PaddingStays(text[..n]);
    }
  }

  lemma PaddingIsRefused(clean: string)
    requires '=' in clean
    ensures !AllInAlphabet(clean)
  {
    NotALetter('=');
  }

  lemma CleanIsLetters(text: string)
    requires '=' !in StripPadding(UpperAll(text))
    ensures Clean(text) == Letters(UpperAll(text))
  {
    var upper := UpperAll(text);
    var n := PaddingSplits(upper);
    LettersOfPadded(StripPadding(upper), n);
    LettersWithoutPadding(StripPadding(upper));
  }

  /**
   Text is accepted exactly when its letters are of the alphabet and the padding left after
   stripping it from the end is none; and it decodes to what its letters do.
   */
  lemma AcceptedExactly(text: string, d: Decoding)
    requires IsDecoding(Clean(text), d)
    ensures d.Ok? <==> AllInAlphabet(Letters(UpperAll(text))) && '=' !in StripPadding(UpperAll(text))
    ensures d.Ok? ==> d.bytes == Decoded(Letters(UpperAll(text)))
  {
    if '=' in StripPadding(UpperAll(text)) {
      PaddingStays(StripPadding(UpperAll(text)));
      PaddingIsRefused(Clean(text));
    } else {
      CleanIsLetters(text);
    }
  }

  /** Text whose letters are those of encoded bytes decodes to them exactly when no padding is left before its end. */
  lemma PaddingMustComeLast(text: string, bytes: seq<Byte>)
    requires Letters(UpperAll(text)) == Encoded(bytes)
    ensures IsDecoding(Clean(text), Ok(bytes)) <==> '=' !in StripPadding(UpperAll(text))
  {
    DecodedOfEncoded(bytes);
    if '=' in StripPadding(UpperAll(text)) {
      PaddingStays(StripPadding(UpperAll(text)));
      PaddingIsRefused(Clean(text));
    } else {
      CleanIsLetters(text);
    }
  }
}
