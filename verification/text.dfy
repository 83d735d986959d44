/**
 Blank file content: content whose trimming of white space leaves nothing.
 White space is what Go's unicode.IsSpace accepts, read from UTF-8: the six
 ASCII spaces, U+0085, U+00A0, U+1680, U+2000 to U+200A, U+2028, U+2029,
 U+202F, U+205F and U+3000. A byte that does not start the encoding of one
 of these (an invalid UTF-8 byte included) is not white space.
 */
module Text {
  import opened Oracles

  const AsciiSpaces: set<byte> := {9, 10, 11, 12, 13, 32}

  /** The empty JSON object `{}`. */
  const EmptyDoc: Bytes := [0x7B, 0x7D]

  /** b is exactly the UTF-8 encoding of one white-space rune. */
  predicate IsSpaceRune(b: Bytes) {
    || (|b| == 1 && b[0] in AsciiSpaces)
    || (|b| == 2 && b[0] == 0xC2 && (b[1] == 0x85 || b[1] == 0xA0))
    || (|b| == 3 && b[0] == 0xE1 && b[1] == 0x9A && b[2] == 0x80)
    || (|b| == 3 && b[0] == 0xE2 && b[1] == 0x80
        && (0x80 <= b[2] <= 0x8A || b[2] == 0xA8 || b[2] == 0xA9 || b[2] == 0xAF))
    || (|b| == 3 && b[0] == 0xE2 && b[1] == 0x81 && b[2] == 0x9F)
    || (|b| == 3 && b[0] == 0xE3 && b[1] == 0x80 && b[2] == 0x80)
  }

  /** b is a concatenation of white-space runes. UTF-8 is prefix-free, so
      this is exactly "every rune decoded from b is white space". */
  predicate Blank(b: Bytes)
    decreases |b|
  {
    || b == []
    || (|b| >= 1 && IsSpaceRune(b[..1]) && Blank(b[1..]))
    || (|b| >= 2 && IsSpaceRune(b[..2]) && Blank(b[2..]))
    || (|b| >= 3 && IsSpaceRune(b[..3]) && Blank(b[3..]))
  }

  /** Any run of ASCII spaces (tabs, newlines, carriage returns, ...) is
      blank. */
  lemma {:induction false} AsciiSpacesAreBlank(b: Bytes)
    requires forall i :: 0 <= i < |b| ==> b[i] in AsciiSpaces
    ensures Blank(b)
    decreases |b|
  {
    if b != [] {
      assert IsSpaceRune(b[..1]);
      AsciiSpacesAreBlank(b[1..]);
    }
  }

  /** Content that begins like a JSON object is never blank. */
  lemma ObjectIsNotBlank(b: Bytes)
    requires |b| > 0 && b[0] == 0x7B
    ensures !Blank(b)
  {
    assert !IsSpaceRune(b[..1]);
    assert |b| >= 2 ==> !IsSpaceRune(b[..2]);
    assert |b| >= 3 ==> !IsSpaceRune(b[..3]);
  }
}
