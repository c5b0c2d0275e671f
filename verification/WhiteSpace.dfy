/**
 White space as JavaScript has it, in regular expressions and for trimming.
 */
module WhiteSpace {
  predicate IsSpace(c: char) {
    || c == ' ' || '\t' <= c <= '\r' || c == '\U{a0}' || c == '\U{1680}' || c == '\U{2028}' || c == '\U{2029}'
    || c == '\U{202f}' || c == '\U{205f}' || c == '\U{3000}' || c == '\U{feff}'
    || '\U{2000}' <= c <= '\U{200a}'
  }

  /** By code point: five controls, the spaces of Unicode, its two separators and the byte order mark. */
  lemma SpacesAre(c: char)
    ensures IsSpace(c) <==>
              || c as int in {32, 160, 5760, 8232, 8233, 8239, 8287, 12288, 65279}
              || 9 <= c as int <= 13 || 8192 <= c as int <= 8202
  {}

  /** White space is all it is. */
  predicate Blank(text: string) {
    forall i :: 0 <= i < |text| ==> IsSpace(text[i])
  }
}
