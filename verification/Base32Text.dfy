/**
 Base32 text, without padding: a character of the alphabet of RFC 4648, section 6, for every
 group of five bits.
 */
module Base32Text {
  import opened Bits
  import opened Base32Groups

  const ALPHABET: string := "ABCDEFGHIJKLMNOPQRSTUVWXYZ234567"

  function Char(quint: Quint): char {
    ALPHABET[quint]
  }

  function Chars(quints: seq<Quint>): (text: string)
    ensures |text| == |quints|
  {
    seq(|quints|, i requires 0 <= i < |quints| => Char(quints[i]))
  }

  /** The text of a string of bytes. */
  function Encoded(bytes: seq<Byte>): string {
    Chars(GroupsOf(bytes))
  }

  // ── Reading text ───────────────────────────────────────────────────────────

  /** The place of a character; the length of the string when it is not in it. */
  function IndexOf(s: string, c: char): (i: nat)
    ensures i <= |s| && (i < |s| ==> s[i] == c) && (i == |s| ==> c !in s)
    ensures forall j :: 0 <= j < i ==> s[j] != c
  {
    if s == "" then 0 else if s[0] == c then 0 else 1 + IndexOf(s[1..], c)
  }

  predicate InAlphabet(c: char) {
    IndexOf(ALPHABET, c) < 32
  }

  function ValueOf(c: char): Quint
    requires InAlphabet(c)
  {
    IndexOf(ALPHABET, c)
  }

  function Values(text: string): (quints: seq<Quint>)
    requires forall i :: 0 <= i < |text| ==> InAlphabet(text[i])
    ensures |quints| == |text|
  {
    seq(|text|, i requires 0 <= i < |text| => ValueOf(text[i]))
  }

  /** What text without decoration decodes to; bits that make no whole byte are dropped. */
  function Decoded(text: string): seq<Byte>
    requires forall i :: 0 <= i < |text| ==> InAlphabet(text[i])
  {
    BytesIn(Values(text))
  }

  lemma CharsDiffer(i: nat, j: nat)
    requires i < j < 32
    ensures ALPHABET[i] != ALPHABET[j]
  {
    assert i < 26 ==> ALPHABET[i] == 'A' + i as char;
    assert j < 26 ==> ALPHABET[j] == 'A' + j as char;
    assert i >= 26 ==> ALPHABET[i] == '2' + (i - 26) as char;
    assert j >= 26 ==> ALPHABET[j] == '2' + (j - 26) as char;
  }

  lemma ValueOfChar(quint: Quint)
    ensures InAlphabet(Char(quint)) && ValueOf(Char(quint)) == quint
  {
    var i := IndexOf(ALPHABET, Char(quint));
    if i < quint { CharsDiffer(i, quint); }
  }

  lemma ValuesOfChars(quints: seq<Quint>)
    ensures forall i :: 0 <= i < |quints| ==> InAlphabet(Chars(quints)[i])
    ensures Values(Chars(quints)) == quints
  {
    forall i | 0 <= i < |quints| ensures InAlphabet(Chars(quints)[i]) && ValueOf(Chars(quints)[i]) == quints[i] {
      ValueOfChar(quints[i]);
    }
  }

  lemma CharsOfValues(text: string)
    requires forall i :: 0 <= i < |text| ==> InAlphabet(text[i])
    ensures Chars(Values(text)) == text
  {}

  // ── Round trips ────────────────────────────────────────────────────────────

  /** Text of bytes decodes to the bytes. */
  lemma DecodedOfEncoded(bytes: seq<Byte>)
    ensures forall i :: 0 <= i < |Encoded(bytes)| ==> InAlphabet(Encoded(bytes)[i])
    ensures Decoded(Encoded(bytes)) == bytes
  {
    ValuesOfChars(GroupsOf(bytes));
    BytesInGroupsOf(bytes);
  }

  /** Decoding is undone by encoding exactly for the text that some bytes encode to. */
  lemma EncodedOfDecoded(text: string)
    requires forall i :: 0 <= i < |text| ==> InAlphabet(text[i])
    ensures Encoded(Decoded(text)) == text <==> Canonical(Values(text))
  {
    GroupsOfBytesIn(Values(text), Decoded(text));
    CharsOfValues(text);
    ValuesOfChars(GroupsOf(Decoded(text)));
  }

  // ── The alphabet ───────────────────────────────────────────────────────────

  /** Values below 26 are the letters from A, and the others the digits from 2. */
  lemma AlphabetIs(quint: Quint)
    ensures Char(quint) == if quint < 26 then 'A' + quint as char else '2' + (quint - 26) as char
  {
    if quint < 26 {
      assert ALPHABET[quint] == 'A' + quint as char;
    } else {
      assert ALPHABET[quint] == '2' + (quint - 26) as char;
    }
  }
}
