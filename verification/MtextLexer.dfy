/**
 The lexer `parts` of src/cadplot_mcp/translation.py, which splits a CAD string into
 protected and editable pieces, and the theorem that says when the lexer still sees the
 same pieces after the editable ones have been replaced by reviewed translations.
 */
module MtextLexer {
  import opened Wrappers
  import opened Characters

  datatype LexError = UnclosedField | UnsupportedControl

  /** What the lexer decides at one cursor position, from the text that remains there. */
  datatype Step = Protected(width: nat) | Editable(width: nat) | Rejected(error: LexError)

  datatype Piece = Piece(editable: bool, text: Text)

  type Lexed = Result<seq<Piece>, LexError>

  /* ------------------------------------------------------------ single tokens */

  predicate StartsPair(s: Text, i: nat, first: Code, second: Code) {
    i + 1 < |s| && s[i] == first && s[i + 1] == second
  }

  /** Index just past the field whose scan stands at `i` with `depth` fields open. */
  function FieldEnd(s: Text, i: nat, depth: nat): (end: Option<nat>)
    requires i <= |s|
    ensures end.Some? ==> i + (if depth == 0 then 0 else 2) <= end.value <= |s|
    decreases |s| - i
  {
    if depth == 0 then Some(i)
    else if i == |s| then None
    else if StartsPair(s, i, PERCENT, LESS) then FieldEnd(s, i + 2, depth + 1)
    else if StartsPair(s, i, GREATER, PERCENT) then FieldEnd(s, i + 2, depth - 1)
    else FieldEnd(s, i + 1, depth)
  }

  /** `\U+` and four hexadecimal digits. */
  predicate HexEscape(s: Text) {
    && |s| >= 7
    && s[0] == BACKSLASH && s[1] == LETTER_U && s[2] == PLUS
    && HexDigit(s[3]) && HexDigit(s[4]) && HexDigit(s[5]) && HexDigit(s[6])
  }

  function EscapedCode(s: Text): Code
    requires HexEscape(s)
  {
    0x1000 * HexValue(s[3]) + 0x100 * HexValue(s[4]) + 0x10 * HexValue(s[5]) + HexValue(s[6])
  }

  function Decoded(s: Text): Text {
    if s == [] then []
    else if HexEscape(s) then [EscapedCode(s)] + Decoded(s[7..])
    else [s[0]] + Decoded(s[1..])
  }

  /** Symbols that are protected on their own: braces, line breaks and measurement signs. */
  predicate Symbol(c: Code) {
    || c == LEFT_BRACE || c == RIGHT_BRACE || c == RETURN || c == NEWLINE || c == TAB
    || MeasureSign(c)
  }

  /** An escape is protected when the character it stands for must not be translated. */
  predicate ProtectedCode(u: Alphabet, c: Code) {
    u.numeric(c) || Symbol(c) || c == BACKSLASH || c == PERCENT || c < 32
  }

  /** Control letters whose argument runs to the next semicolon. */
  predicate TerminatedControl(c: Code) {
    || c == 0x41 || c == 0x43 || c == 0x63 || c == 0x46 || c == 0x66 || c == 0x48 || c == 0x68
    || c == 0x51 || c == 0x71 || c == 0x54 || c == 0x74 || c == 0x57 || c == 0x77
    || c == LETTER_P || c == 0x61 || c == LETTER_S
  }

  /** Control letters that stand alone; `p` is in both lists. */
  predicate BareControl(c: Code) {
    || c == 0x50 || c == LETTER_P || c == 0x4C || c == 0x6C || c == 0x4F || c == 0x6F
    || c == 0x4B || c == 0x6B || c == 0x58 || c == 0x78
    || c == TILDE || c == LEFT_BRACE || c == RIGHT_BRACE || c == BACKSLASH
  }

  function FirstSemicolon(s: Text, i: nat): (at: Option<nat>)
    requires i <= |s|
    ensures at.Some? ==> i <= at.value < |s| && s[at.value] == SEMICOLON
    ensures at.Some? ==> SEMICOLON !in s[i..at.value]
    ensures at.None? ==> SEMICOLON !in s[i..]
    decreases |s| - i
  {
    if i == |s| then None
    else if s[i] == SEMICOLON then Some(i)
    else FirstSemicolon(s, i + 1)
  }

  function ControlWidth(s: Text): (w: nat)
    ensures w <= |s|
  {
    if |s| < 2 || s[0] != BACKSLASH then 0
    else if TerminatedControl(s[1]) && FirstSemicolon(s, 2).Some? then FirstSemicolon(s, 2).value + 1
    else if BareControl(s[1]) then 2
    else 0
  }

  function PercentWidth(u: Alphabet, s: Text): (w: nat)
    ensures w <= |s|
  {
    if !StartsPair(s, 0, PERCENT, PERCENT) then 0
    else if |s| >= 3 && AsciiLetter(s[2]) then 3
    else if |s| >= 5 && u.digit(s[2]) && u.digit(s[3]) && u.digit(s[4]) then 5
    else 0
  }

  predicate Sign(c: Code) {
    c == PLUS || c == MINUS
  }

  predicate FractionMark(c: Code) {
    c == DOT || c == COMMA
  }

  predicate RatioMark(c: Code) {
    c == SLASH || c == COLON || c == MINUS
  }

  function DigitRun(u: Alphabet, s: Text): (n: nat)
    ensures n <= |s|
    ensures s != [] && u.digit(s[0]) ==> n > 0
  {
    if s != [] && u.digit(s[0]) then 1 + DigitRun(u, s[1..]) else 0
  }

  /** Width of the greedy `(?:[.,]\d+)*`. */
  function Fractions(u: Alphabet, s: Text): (n: nat)
    ensures n <= |s|
  {
    if |s| >= 2 && FractionMark(s[0]) && u.digit(s[1]) then
      var n := 1 + DigitRun(u, s[1..]);
      n + Fractions(u, s[n..])
    else 0
  }

  /** Width of the greedy `(?:[/:-]\d+(?:[.,]\d+)*)*`. */
  function Ratios(u: Alphabet, s: Text): (n: nat)
    ensures n <= |s|
  {
    if |s| >= 2 && RatioMark(s[0]) && u.digit(s[1]) then
      var n := 1 + DigitRun(u, s[1..]);
      var m := n + Fractions(u, s[n..]);
      m + Ratios(u, s[m..])
    else 0
  }

  /** What follows the whole digits: fractions, then ratios. */
  function GroupsWidth(u: Alphabet, s: Text): (w: nat)
    ensures w <= |s|
  {
    var f := Fractions(u, s);
    f + Ratios(u, s[f..])
  }

  function UnsignedWidth(u: Alphabet, s: Text): (w: nat)
    ensures w <= |s|
  {
    var n := DigitRun(u, s);
    if n == 0 then 0 else n + GroupsWidth(u, s[n..])
  }

  function NumberWidth(u: Alphabet, s: Text): (w: nat)
    ensures w <= |s|
  {
    if s != [] && Sign(s[0]) then
      var w := UnsignedWidth(u, s[1..]);
      if w == 0 then 0 else 1 + w
    else UnsignedWidth(u, s)
  }

  /** Width that the compiled `protected` pattern matches at the front of `s`, or 0. */
  function ProtectedWidth(u: Alphabet, s: Text): (w: nat)
    ensures w <= |s|
  {
    if ControlWidth(s) > 0 then ControlWidth(s)
    else if s != [] && Symbol(s[0]) then 1
    else if StartsPair(s, 0, LESS, GREATER) then 2
    else if PercentWidth(u, s) > 0 then PercentWidth(u, s)
    else NumberWidth(u, s)
  }

  function LexStep(u: Alphabet, s: Text): (step: Step)
    requires s != []
    ensures !step.Rejected? ==> 0 < step.width <= |s|
  {
    if StartsPair(s, 0, PERCENT, LESS) then
      match FieldEnd(s, 2, 1)
      case Some(end) => Protected(end)
      case None => Rejected(UnclosedField)
    else if HexEscape(s) then
      if ProtectedCode(u, EscapedCode(s)) then Protected(7) else Editable(7)
    else if ProtectedWidth(u, s) > 0 then Protected(ProtectedWidth(u, s))
    else if s[0] == BACKSLASH then Rejected(UnsupportedControl)
    else Editable(1)
  }

  /* ------------------------------------------------------------ whole strings */

  /** Put one lexed token in front of the pieces of the remaining text. */
  function Join(editable: bool, token: Text, rest: seq<Piece>): seq<Piece> {
    if editable && rest != [] && rest[0].editable then
      [Piece(true, token + rest[0].text)] + rest[1..]
    else [Piece(editable, token)] + rest
  }

  /** The pieces of `s`: adjacent editable tokens are one piece, protected tokens stay apart. */
  function Parts(u: Alphabet, s: Text): Lexed {
    if s == [] then Ok([])
    else
      match LexStep(u, s)
      case Rejected(e) => Err(e)
      case Protected(n) => Prepend(false, s[..n], Parts(u, s[n..]))
      case Editable(n) => Prepend(true, s[..n], Parts(u, s[n..]))
  }

  function Prepend(editable: bool, token: Text, rest: Lexed): Lexed {
    if rest.Err? then rest else Ok(Join(editable, token, rest.value))
  }

  function Concat(ps: seq<Piece>): Text {
    if ps == [] then [] else ps[0].text + Concat(ps[1..])
  }

  /** Glue the pieces found so far to the pieces of the text still ahead of the cursor. */
  function Append(found: seq<Piece>, rest: seq<Piece>): seq<Piece> {
    if found != [] && rest != [] && found[|found| - 1].editable && rest[0].editable then
      found[..|found| - 1] + [Piece(true, found[|found| - 1].text + rest[0].text)] + rest[1..]
    else found + rest
  }

  /** The list update of one loop turn: extend the last piece, or add one. */
  function Push(found: seq<Piece>, editable: bool, token: Text): seq<Piece> {
    if editable && found != [] && found[|found| - 1].editable then
      found[..|found| - 1] + [Piece(true, found[|found| - 1].text + token)]
    else found + [Piece(editable, token)]
  }

  lemma PushThenAppend(found: seq<Piece>, editable: bool, token: Text, rest: seq<Piece>)
    ensures Append(found, Join(editable, token, rest)) == Append(Push(found, editable, token), rest)
  {
    var grows := editable && found != [] && found[|found| - 1].editable;
    var joins := editable && rest != [] && rest[0].editable;
    if grows && joins {
      var init, last := found[..|found| - 1], found[|found| - 1].text;
      assert last + (token + rest[0].text) == (last + token) + rest[0].text;
      assert Push(found, editable, token)[..|found| - 1] == init;
    } else if grows {
      assert Append(found, [Piece(true, token)] + rest) == Push(found, editable, token) + rest;
    } else if joins {
      assert Append(found, Join(editable, token, rest)) == found + Join(editable, token, rest);
      assert (found + [Piece(true, token)])[..|found|] == found;
    } else {
      assert Append(found, [Piece(editable, token)] + rest) == found + ([Piece(editable, token)] + rest);
      assert found + ([Piece(editable, token)] + rest) == (found + [Piece(editable, token)]) + rest;
    }
  }

  function Glue(found: seq<Piece>, ahead: Lexed): Lexed {
    if ahead.Ok? then Ok(Append(found, ahead.value)) else ahead
  }

  lemma LoopTurn(u: Alphabet, s: Text, found: seq<Piece>)
    requires s != []
    ensures var step := LexStep(u, s);
            && (step.Rejected? ==> Parts(u, s) == Err(step.error))
            && (!step.Rejected? ==>
                  Glue(found, Parts(u, s))
                  == Glue(Push(found, step.Editable?, s[..step.width]), Parts(u, s[step.width..])))
  {
    var step := LexStep(u, s);
    if !step.Rejected? {
      var rest := Parts(u, s[step.width..]);
      assert Parts(u, s) == Prepend(step.Editable?, s[..step.width], rest);
      if rest.Ok? {
        PushThenAppend(found, step.Editable?, s[..step.width], rest.value);
      }
    }
  }

  /** The cursor loop of `parts`, which appends to the piece list it has built so far. */
  method LexParts(u: Alphabet, raw: Text) returns (r: Lexed)
    ensures r == Parts(u, raw)
  {
    hide LexStep;
    var result: seq<Piece> := [];
    var cursor := 0;
    assert raw[cursor..] == raw;
    assert forall ps: seq<Piece> :: Append(result, ps) == ps;
    while cursor < |raw|
      invariant 0 <= cursor <= |raw|
      invariant Parts(u, raw) == Glue(result, Parts(u, raw[cursor..]))
    {
      LoopTurn(u, raw[cursor..], result);
      var step := LexStep(u, raw[cursor..]);
      if step.Rejected? {
        return Err(step.error);
      }
      result := Push(result, step.Editable?, raw[cursor..][..step.width]);
      assert raw[cursor..][step.width..] == raw[cursor + step.width..];
      cursor := cursor + step.width;
    }
    assert raw[cursor..] == [];
    assert result + [] == result;
    return Ok(result);
  }
}
