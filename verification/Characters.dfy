/**
 Code points, and the character classes that Python's `str` methods and `re` consult.
 A code point is a plain number because `\U+D800` decodes to a surrogate, which is not a
 Unicode scalar value.
 */
module Characters {
  type Code = c: int | 0 <= c < 0x11_0000
  type Text = seq<Code>

  const TAB: Code := 0x09
  const NEWLINE: Code := 0x0A
  const RETURN: Code := 0x0D
  const PERCENT: Code := 0x25
  const PLUS: Code := 0x2B
  const COMMA: Code := 0x2C
  const MINUS: Code := 0x2D
  const DOT: Code := 0x2E
  const SLASH: Code := 0x2F
  const COLON: Code := 0x3A
  const SEMICOLON: Code := 0x3B
  const LESS: Code := 0x3C
  const GREATER: Code := 0x3E
  const LETTER_S: Code := 0x53
  const LETTER_U: Code := 0x55
  const BACKSLASH: Code := 0x5C
  const LETTER_P: Code := 0x70
  const LEFT_BRACE: Code := 0x7B
  const RIGHT_BRACE: Code := 0x7D
  const TILDE: Code := 0x7E

  /** Unicode tables are parameters: `\d`, `str.isnumeric`, `str.isalpha`, `str.isspace`. */
  datatype Alphabet = Alphabet(
    digit: Code -> bool, numeric: Code -> bool, alpha: Code -> bool, space: Code -> bool)
  {
    /** What every Unicode version guarantees about these tables. */
    ghost predicate Coherent() {
      && (forall c: Code :: digit(c) ==> numeric(c) && !alpha(c))
      && (forall c: Code | c < 128 :: digit(c) <==> 0x30 <= c <= 0x39)
      && (forall c: Code | c < 128 :: numeric(c) <==> 0x30 <= c <= 0x39)
      && (forall c: Code | MeasureSign(c) :: !digit(c))
      && (forall c: Code | c < 128 :: alpha(c) <==> AsciiLetter(c))
    }

    predicate AnyAlpha(s: Text) {
      exists i :: 0 <= i < |s| && alpha(s[i])
    }

    predicate AnyNumeric(s: Text) {
      exists i :: 0 <= i < |s| && numeric(s[i])
    }

    /** The text at the left and right of `value` that `lstrip` and `rstrip` remove. */
    function WhitespaceEdges(value: Text): (Text, Text) {
      (LeadingSpace(value), TrailingSpace(value))
    }

    function LeadingSpace(value: Text): Text {
      if value != [] && space(value[0]) then [value[0]] + LeadingSpace(value[1..]) else []
    }

    function TrailingSpace(value: Text): Text {
      var n := |value|;
      if n > 0 && space(value[n - 1]) then TrailingSpace(value[..n - 1]) + [value[n - 1]] else []
    }
  }

  /** The measurement signs: diameter, slashed O in both cases, degree, plus-minus, times, square, cube. */
  predicate MeasureSign(c: Code) {
    || c == 0x2300 || c == 0xD8 || c == 0xF8 || c == 0xB0 || c == 0xB1 || c == 0xD7
    || c == 0xB2 || c == 0xB3
  }

  predicate AsciiLetter(c: Code) {
    0x41 <= c <= 0x5A || 0x61 <= c <= 0x7A
  }

  predicate HexDigit(c: Code) {
    0x30 <= c <= 0x39 || 0x41 <= c <= 0x46 || 0x61 <= c <= 0x66
  }

  function HexValue(c: Code): (v: nat)
    requires HexDigit(c)
    ensures v < 16
  {
    if c <= 0x39 then c - 0x30 else if c <= 0x46 then c - 0x37 else c - 0x57
  }
}
