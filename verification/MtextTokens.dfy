/**
 What the lexer takes at one position, token by token and in the characters themselves: escapes
 against an encoder, controls, symbols, percent codes, numbers, fields, and everything else.
 */
module MtextTokens {
  import opened Wrappers
  import opened Characters
  import opened MtextLexer
  import opened MtextRelex

  /* ------------------------------------------------------------ an encoder for escapes */

  function HexChar(v: nat, capital: bool): Code
    requires v < 16
  {
    if v < 10 then '0' as int + v else if capital then 'A' as int + v - 10 else 'a' as int + v - 10
  }

  /** The last `width` hexadecimal digits of `c`; the bits of `capitals` choose the case of each. */
  function Hexadecimal(c: nat, width: nat, capitals: nat): (t: Text)
    ensures |t| == width
  {
    if width == 0 then []
    else Hexadecimal(c / 16, width - 1, capitals / 2) + [HexChar(c % 16, capitals % 2 == 1)]
  }

  /** `\U+` and the four digits of a code. */
  function Escape(c: Code, capitals: nat): (t: Text)
    ensures |t| == 7
  {
    ['\\' as int, 'U' as int, '+' as int] + Hexadecimal(c, 4, capitals)
  }

  /** Every code escaped, in any mixture of cases. */
  function Encode(s: Text, capitals: nat): Text {
    if s == [] then [] else Escape(s[0], capitals) + Encode(s[1..], capitals / 16)
  }

  predicate Short(s: Text) {
    forall i :: 0 <= i < |s| ==> s[i] <= 0xFFFF
  }

  lemma DigitRead(v: nat, capital: bool)
    requires v < 16
    ensures HexDigit(HexChar(v, capital)) && HexValue(HexChar(v, capital)) == v
  {
  }

  lemma FourDigits(c: nat, capitals: nat)
    ensures Hexadecimal(c, 4, capitals)
      == [HexChar(c / 16 / 16 / 16 % 16, capitals / 2 / 2 / 2 % 2 == 1), HexChar(c / 16 / 16 % 16, capitals / 2 / 2 % 2 == 1),
          HexChar(c / 16 % 16, capitals / 2 % 2 == 1), HexChar(c % 16, capitals % 2 == 1)]
  {
    hide HexChar;
    assert Hexadecimal(c / 16 / 16 / 16, 1, capitals / 2 / 2 / 2) == [HexChar(c / 16 / 16 / 16 % 16, capitals / 2 / 2 / 2 % 2 == 1)];
    assert Hexadecimal(c / 16 / 16, 2, capitals / 2 / 2)
        == [HexChar(c / 16 / 16 / 16 % 16, capitals / 2 / 2 / 2 % 2 == 1), HexChar(c / 16 / 16 % 16, capitals / 2 / 2 % 2 == 1)];
  }

  lemma DigitsSum(c: nat)
    requires c <= 0xFFFF
    ensures 0x1000 * (c / 16 / 16 / 16 % 16) + 0x100 * (c / 16 / 16 % 16) + 0x10 * (c / 16 % 16) + c % 16 == c
  {
  }

  lemma EscapeRead(c: Code, capitals: nat, rest: Text)
    requires c <= 0xFFFF
    ensures HexEscape(Escape(c, capitals) + rest) && EscapedCode(Escape(c, capitals) + rest) == c
  {
    FourDigits(c, capitals);
    DigitsSum(c);
    DigitRead(c / 16 / 16 / 16 % 16, capitals / 2 / 2 / 2 % 2 == 1);
    DigitRead(c / 16 / 16 % 16, capitals / 2 / 2 % 2 == 1);
    DigitRead(c / 16 % 16, capitals / 2 % 2 == 1);
    DigitRead(c % 16, capitals % 2 == 1);
    hide HexChar, HexValue, HexDigit, Hexadecimal;
  }

  lemma EscapeDecoded(c: Code, capitals: nat, rest: Text)
    requires c <= 0xFFFF
    ensures Decoded(Escape(c, capitals) + rest) == [c] + Decoded(rest)
  {
    EscapeRead(c, capitals, rest);
    hide HexEscape, EscapedCode, Escape;
    assert (Escape(c, capitals) + rest)[7..] == rest;
  }

  /** Decoding undoes encoding, in front of anything. */
  lemma {:induction false} DecodesEscapes(s: Text, capitals: nat, rest: Text)
    requires Short(s)
    ensures Decoded(Encode(s, capitals) + rest) == s + Decoded(rest)
  {
    hide Decoded, Escape;
    if s == [] {
      assert Encode(s, capitals) + rest == rest;
    } else {
      var tail := Encode(s[1..], capitals / 16) + rest;
      EscapeDecoded(s[0], capitals, tail);
      DecodesEscapes(s[1..], capitals / 16, rest);
      assert Encode(s, capitals) + rest == Escape(s[0], capitals) + tail;
    }
  }

  /** The digit of `v` in this case, and the case of a digit. */
  lemma EveryDigit(c: Code) returns (v: nat, capital: bool)
    requires HexDigit(c)
    ensures v < 16 && HexChar(v, capital) == c && HexValue(c) == v
  {
    v, capital := HexValue(c), c <= 0x46;
  }

  /** Only encoded codes are decoded: any other code point stands for itself. */
  lemma DecodesNothingElse(s: Text)
    requires s != [] && forall c: Code, capitals: nat :: c <= 0xFFFF ==> !(Escape(c, capitals) <= s)
    ensures Decoded(s) == [s[0]] + Decoded(s[1..])
  {
    if HexEscape(s) {
      var capitals := WrittenSo(s);
      assert false;
    }
  }

  lemma WrittenSo(s: Text) returns (capitals: nat)
    requires HexEscape(s)
    ensures EscapedCode(s) <= 0xFFFF && Escape(EscapedCode(s), capitals) <= s
  {
    var v3, k3 := EveryDigit(s[3]);
    var v4, k4 := EveryDigit(s[4]);
    var v5, k5 := EveryDigit(s[5]);
    var v6, k6 := EveryDigit(s[6]);
    capitals := Bit(k3) * 8 + Bit(k4) * 4 + Bit(k5) * 2 + Bit(k6);
    var c := EscapedCode(s);
    assert c == 0x1000 * v3 + 0x100 * v4 + 0x10 * v5 + v6;
    hide HexChar, HexValue, HexDigit, Hexadecimal, EscapedCode, Bit;
    Quotients(c, v3, v4, v5, v6);
    BitsOf(capitals, k3, k4, k5, k6);
    FourDigits(c, capitals);
    assert s[..7] == [s[0], s[1], s[2], s[3], s[4], s[5], s[6]];
    assert Escape(c, capitals) == s[..7];
  }

  lemma Quotients(c: nat, v3: nat, v4: nat, v5: nat, v6: nat)
    requires v3 < 16 && v4 < 16 && v5 < 16 && v6 < 16 && c == 0x1000 * v3 + 0x100 * v4 + 0x10 * v5 + v6
    ensures c / 16 / 16 / 16 % 16 == v3 && c / 16 / 16 % 16 == v4 && c / 16 % 16 == v5 && c % 16 == v6 && c <= 0xFFFF
  {
    assert c / 16 == 0x100 * v3 + 0x10 * v4 + v5;
    assert c / 16 / 16 == 0x10 * v3 + v4;
  }

  lemma BitsOf(n: nat, a: bool, b: bool, c: bool, d: bool)
    requires n == Bit(a) * 8 + Bit(b) * 4 + Bit(c) * 2 + Bit(d)
    ensures (n / 2 / 2 / 2 % 2 == 1) == a && (n / 2 / 2 % 2 == 1) == b && (n / 2 % 2 == 1) == c && (n % 2 == 1) == d
  {
    assert n / 2 == Bit(a) * 4 + Bit(b) * 2 + Bit(c);
    assert n / 2 / 2 == Bit(a) * 2 + Bit(b);
  }

  function Bit(b: bool): nat {
    if b then 1 else 0
  }

  /** The diameter sign, slashed O in both cases, degree, plus-minus, times, square and cube. */
  const MEASURES: set<int> := {0x2300, 0xD8, 0xF8, 0xB0, 0xB1, 0xD7, 0xB2, 0xB3}

  /** An escape is one token; it is protected exactly when the code it stands for must not be translated. */
  lemma EscapeTaken(u: Alphabet, c: Code, capitals: nat, rest: Text)
    requires c <= 0xFFFF
    ensures var keep := u.numeric(c) || c < 32 || c in {'\\' as int, '%' as int, '{' as int, '}' as int} || c in MEASURES;
            LexStep(u, Escape(c, capitals) + rest) == if keep then Protected(7) else Editable(7)
  {
    EscapeRead(c, capitals, rest);
    hide HexEscape, EscapedCode;
  }

  /* ------------------------------------------------------------ controls */

  /** Letters whose argument ends at a semicolon, and characters that stand alone; `p` is both. */
  const TERMINATED: set<int> :=
    {'A' as int, 'C' as int, 'c' as int, 'F' as int, 'f' as int, 'H' as int, 'h' as int, 'Q' as int, 'q' as int,
     'T' as int, 't' as int, 'W' as int, 'w' as int, 'p' as int, 'a' as int, 'S' as int}
  const BARE: set<int> :=
    {'P' as int, 'p' as int, 'L' as int, 'l' as int, 'O' as int, 'o' as int, 'K' as int, 'k' as int,
     'X' as int, 'x' as int, '~' as int, '{' as int, '}' as int, '\\' as int}

  /** A control with its argument is one token. */
  lemma TerminatedTaken(u: Alphabet, letter: Code, argument: Text, rest: Text)
    requires letter in TERMINATED && ';' as int !in argument
    ensures LexStep(u, ['\\' as int, letter] + argument + [';' as int] + rest) == Protected(|argument| + 3)
  {
    var s := ['\\' as int, letter] + argument + [';' as int] + rest;
    SemicolonAt(s, 2, |argument| + 2);
    hide FirstSemicolon;
  }

  lemma {:induction false} SemicolonAt(s: Text, i: nat, n: nat)
    requires i <= n < |s| && s[n] == SEMICOLON && forall k :: i <= k < n ==> s[k] != SEMICOLON
    ensures FirstSemicolon(s, i) == Some(n)
    decreases n - i
  {
    if i < n {
      SemicolonAt(s, i + 1, n);
    }
  }

  lemma {:induction false} NoSemicolonFrom(s: Text, i: nat)
    requires i <= |s| && forall k :: i <= k < |s| ==> s[k] != SEMICOLON
    ensures FirstSemicolon(s, i).None?
    decreases |s| - i
  {
    if i < |s| {
      NoSemicolonFrom(s, i + 1);
    }
  }

  /** Without a semicolon ahead a character that stands alone is a token; every other control is refused. */
  lemma UnterminatedTaken(u: Alphabet, letter: Code, rest: Text)
    requires u.Coherent() && (letter !in TERMINATED || ';' as int !in rest)
    requires !HexEscape(['\\' as int, letter] + rest)
    ensures LexStep(u, ['\\' as int, letter] + rest) == if letter in BARE then Protected(2) else Rejected(UnsupportedControl)
  {
    var s := ['\\' as int, letter] + rest;
    if letter in TERMINATED {
      NoSemicolonFrom(s, 2);
    }
    hide FirstSemicolon, HexEscape;
  }

  lemma LoneBackslash(u: Alphabet)
    requires u.Coherent()
    ensures LexStep(u, ['\\' as int]) == Rejected(UnsupportedControl)
  {
  }

  /* ------------------------------------------------------------ symbols, placeholders and percent codes */

  const SYMBOLS: set<int> := {'{' as int, '}' as int, '\r' as int, '\n' as int, '\t' as int} + MEASURES

  lemma SymbolTaken(u: Alphabet, c: Code, rest: Text)
    requires c in SYMBOLS
    ensures LexStep(u, [c] + rest) == Protected(1)
  {
  }

  lemma PlaceholderTaken(u: Alphabet, rest: Text)
    ensures LexStep(u, ['<' as int, '>' as int] + rest) == Protected(2)
  {
  }

  lemma PercentTaken(u: Alphabet, c: Code, rest: Text)
    requires 'A' as int <= c <= 'Z' as int || 'a' as int <= c <= 'z' as int
    ensures LexStep(u, ['%' as int, '%' as int, c] + rest) == Protected(3)
  {
  }

  lemma PercentDigitsTaken(u: Alphabet, a: Code, b: Code, c: Code, rest: Text)
    requires u.Coherent() && u.digit(a) && u.digit(b) && u.digit(c)
    ensures LexStep(u, ['%' as int, '%' as int, a, b, c] + rest) == Protected(5)
  {
  }

  /* ------------------------------------------------------------ numbers */

  predicate Digits(u: Alphabet, t: Text) {
    forall i :: 0 <= i < |t| ==> u.digit(t[i])
  }

  datatype Group = Group(separator: Code, digits: Text)
  {
    predicate Proper(u: Alphabet) {
      separator in SEPARATORS && digits != [] && Digits(u, digits)
    }
  }

  const SEPARATORS: set<int> := {'.' as int, ',' as int, '/' as int, ':' as int, '-' as int}

  function GroupsText(groups: seq<Group>): Text {
    if groups == [] then [] else [groups[0].separator] + groups[0].digits + GroupsText(groups[1..])
  }

  predicate ProperGroups(u: Alphabet, groups: seq<Group>) {
    forall i :: 0 <= i < |groups| ==> groups[i].Proper(u)
  }

  /** Another digit, or a separator and a digit. */
  predicate GoesOn(u: Alphabet, rest: Text) {
    || (rest != [] && u.digit(rest[0]))
    || (|rest| >= 2 && rest[0] in SEPARATORS && u.digit(rest[1]))
  }

  lemma {:induction false} DigitsMunched(u: Alphabet, digits: Text, rest: Text)
    requires Digits(u, digits)
    ensures Munch(u, digits + rest) == |digits| + Munch(u, rest)
  {
    if digits == [] {
      assert digits + rest == rest;
    } else {
      DigitsMunched(u, digits[1..], rest);
      assert (digits + rest)[1..] == digits[1..] + rest;
    }
  }

  lemma {:induction false} GroupsMunched(u: Alphabet, groups: seq<Group>, rest: Text)
    requires ProperGroups(u, groups) && !GoesOn(u, rest)
    ensures Munch(u, GroupsText(groups) + rest) == |GroupsText(groups)|
  {
    if groups == [] {
      assert GroupsText(groups) + rest == rest;
    } else {
      var tail := GroupsText(groups[1..]) + rest;
      GroupsMunched(u, groups[1..], rest);
      OneGroupMunched(u, groups[0], tail);
      assert GroupsText(groups) + rest == [groups[0].separator] + groups[0].digits + tail;
    }
  }

  lemma OneGroupMunched(u: Alphabet, group: Group, tail: Text)
    requires group.Proper(u)
    ensures Munch(u, [group.separator] + group.digits + tail) == 1 + |group.digits| + Munch(u, tail)
  {
    DigitsMunched(u, group.digits, tail);
    var s := [group.separator] + group.digits + tail;
    assert s[1..] == group.digits + tail && s[1] == group.digits[0];
  }

  lemma WholeMunched(u: Alphabet, whole: Text, tail: Text, rest: Text)
    requires Digits(u, whole) && Munch(u, tail + rest) == |tail|
    ensures Munch(u, whole + tail + rest) == |whole + tail|
  {
    DigitsMunched(u, whole, tail + rest);
    hide *;
    assert whole + tail + rest == whole + (tail + rest);
  }

  lemma UnsignedTaken(u: Alphabet, first: Code, more: Text, tail: Text, rest: Text)
    requires u.Coherent() && u.digit(first) && Digits(u, more) && Munch(u, tail + rest) == |tail|
    ensures LexStep(u, [first] + more + tail + rest) == Protected(1 + |more + tail|)
  {
    hide *;
    WholeMunched(u, more, tail, rest);
    NumberFirst(u, [first] + (more + tail + rest), more + tail + rest);
    assert [first] + more + tail + rest == [first] + (more + tail + rest);
  }

  lemma SignedTaken(u: Alphabet, sign: Code, whole: Text, tail: Text, rest: Text)
    requires u.Coherent() && sign in {'+' as int, '-' as int}
    requires whole != [] && Digits(u, whole) && Munch(u, tail + rest) == |tail|
    ensures LexStep(u, [sign] + whole + tail + rest) == Protected(1 + |whole + tail|)
  {
    FirstDigit(u, whole);
    assert Sign(sign);
    hide *;
    WholeMunched(u, whole, tail, rest);
    NumberFirst(u, [sign] + (whole + tail + rest), whole + tail + rest);
    assert [sign] + whole + tail + rest == [sign] + (whole + tail + rest);
  }

  lemma FirstDigit(u: Alphabet, whole: Text)
    requires whole != [] && Digits(u, whole)
    ensures u.digit(whole[0]) && Digits(u, whole[1..])
  {
  }

  /** A number with any mixture of separators is one token, sign included. */
  lemma NumberTaken(u: Alphabet, sign: Text, whole: Text, groups: seq<Group>, rest: Text)
    requires u.Coherent() && sign in {[], ['+' as int], ['-' as int]}
    requires whole != [] && Digits(u, whole) && ProperGroups(u, groups) && !GoesOn(u, rest)
    ensures LexStep(u, sign + whole + GroupsText(groups) + rest) == Protected(|sign + whole + GroupsText(groups)|)
  {
    GroupsMunched(u, groups, rest);
    FirstDigit(u, whole);
    hide *;
    if sign == [] {
      UnsignedTaken(u, whole[0], whole[1..], GroupsText(groups), rest);
      assert sign + whole == [whole[0]] + whole[1..];
    } else {
      SignedTaken(u, sign[0], whole, GroupsText(groups), rest);
      assert sign == [sign[0]];
    }
  }

  lemma NumberFirst(u: Alphabet, s: Text, rest: Text)
    requires u.Coherent() && s != [] && rest == s[1..]
    requires u.digit(s[0]) || (Sign(s[0]) && rest != [] && u.digit(rest[0]))
    ensures LexStep(u, s) == Protected(1 + Munch(u, rest))
  {
    NumberMunch(u, s);
    hide NumberWidth, Munch;
  }

  /* ------------------------------------------------------------ fields */

  /** What a field holds up to its end: characters, and fields of its own. */
  datatype Field = End | Char(c: Code, more: Field) | Nested(inner: Field, more: Field)

  const OPENING: Text := ['%' as int, '<' as int]
  const CLOSING: Text := ['>' as int, '%' as int]

  /** The text of a field behind its opening bracket. */
  function Closed(f: Field): (t: Text)
    ensures |t| >= 2
  {
    match f
    case End => CLOSING
    case Char(c, more) => [c] + Closed(more)
    case Nested(inner, more) => OPENING + (Closed(inner) + Closed(more))
  }

  /** No character forms a bracket with the one behind it. */
  predicate Clean(f: Field) {
    match f
    case End => true
    case Char(c, more) => Clean(more) && [c, Closed(more)[0]] != OPENING && [c, Closed(more)[0]] != CLOSING
    case Nested(inner, more) => Clean(inner) && Clean(more)
  }

  predicate Holds(s: Text, i: nat, t: Text) {
    i <= |s| && t <= s[i..]
  }

  lemma HoldsBoth(s: Text, i: nat, a: Text, b: Text)
    ensures Holds(s, i, a + b) <==> Holds(s, i, a) && Holds(s, i + |a|, b)
    ensures Holds(s, i, a) ==> i + |a| <= |s|
  {
    if Holds(s, i, a) {
      assert s[i..][|a|..] == s[i + |a|..];
      assert s[i..] == a + s[i + |a|..];
    }
    if Holds(s, i, a + b) {
      assert s[i..][..|a|] == a;
    }
  }

  lemma PairAt(s: Text, i: nat, first: Code, second: Code)
    requires i <= |s|
    ensures StartsPair(s, i, first, second) <==> Holds(s, i, [first, second])
  {
    if StartsPair(s, i, first, second) {
      assert s[i..][..2] == [first, second];
    }
    if Holds(s, i, [first, second]) {
      assert s[i..][0] == first && s[i..][1] == second;
    }
  }

  lemma CharAt(s: Text, i: nat, c: Code, t: Text)
    requires |t| > 0
    ensures Holds(s, i, [c] + t) <==> i < |s| && s[i] == c && Holds(s, i + 1, t)
    ensures Holds(s, i, [c] + t) ==> i + 1 < |s| && s[i + 1] == t[0]
  {
    HoldsBoth(s, i, [c], t);
  }

  /** One turn of the field scan. */
  lemma FieldTurn(s: Text, i: nat, depth: nat)
    ensures Holds(s, i, OPENING) ==> i + 2 <= |s| && FieldEnd(s, i, depth + 1) == FieldEnd(s, i + 2, depth + 2)
    ensures Holds(s, i, CLOSING) ==> i + 2 <= |s| && FieldEnd(s, i, depth + 1) == FieldEnd(s, i + 2, depth)
    ensures i + 1 < |s| && [s[i], s[i + 1]] != OPENING && [s[i], s[i + 1]] != CLOSING ==>
      FieldEnd(s, i, depth + 1) == FieldEnd(s, i + 1, depth + 1)
  {
    if i <= |s| {
      PairAt(s, i, PERCENT, LESS);
      PairAt(s, i, GREATER, PERCENT);
    }
    hide Holds;
  }

  lemma {:induction false} FieldCloses(s: Text, i: nat, f: Field, depth: nat)
    requires Clean(f) && Holds(s, i, Closed(f))
    ensures i + |Closed(f)| <= |s|
    ensures FieldEnd(s, i, depth + 1) == FieldEnd(s, i + |Closed(f)|, depth)
    decreases f
  {
    FieldTurn(s, i, depth);
    hide FieldEnd, Holds;
    match f
    case End =>
    case Char(c, more) =>
      CharAt(s, i, c, Closed(more));
      FieldCloses(s, i + 1, more, depth);
    case Nested(inner, more) =>
      HoldsBoth(s, i, OPENING, Closed(inner) + Closed(more));
      HoldsBoth(s, i + 2, Closed(inner), Closed(more));
      FieldCloses(s, i + 2, inner, depth + 1);
      FieldCloses(s, i + 2 + |Closed(inner)|, more, depth);
  }

  /** Whatever closes a field is such a text. */
  lemma {:induction false} FieldClosed(s: Text, i: nat, depth: nat) returns (f: Field)
    requires i <= |s| && FieldEnd(s, i, depth + 1).Some?
    ensures Clean(f) && Holds(s, i, Closed(f)) && i + |Closed(f)| <= |s|
    ensures FieldEnd(s, i, depth + 1) == FieldEnd(s, i + |Closed(f)|, depth)
    decreases |s| - i
  {
    PairAt(s, i, PERCENT, LESS);
    PairAt(s, i, GREATER, PERCENT);
    if StartsPair(s, i, PERCENT, LESS) {
      hide Holds;
      var inner := FieldClosed(s, i + 2, depth + 1);
      var more := FieldClosed(s, i + 2 + |Closed(inner)|, depth);
      f := Nested(inner, more);
      HoldsBoth(s, i, OPENING, Closed(inner) + Closed(more));
      HoldsBoth(s, i + 2, Closed(inner), Closed(more));
    } else if StartsPair(s, i, GREATER, PERCENT) {
      f := End;
    } else {
      hide Holds;
      var more := FieldClosed(s, i + 1, depth);
      f := Char(s[i], more);
      CharAt(s, i, s[i], Closed(more));
    }
  }

  /** A field is one token up to the bracket that closes it, at any depth; one that nothing closes is refused. */
  lemma FieldTaken(u: Alphabet, f: Field, rest: Text)
    requires Clean(f)
    ensures LexStep(u, OPENING + Closed(f) + rest) == Protected(2 + |Closed(f)|)
  {
    hide Closed, Clean;
    var s := OPENING + Closed(f) + rest;
    assert Holds(s, 2, Closed(f)) by {
      assert s[2..] == Closed(f) + rest;
    }
    FieldCloses(s, 2, f, 0);
    hide Holds;
    FieldFirst(u, s);
  }

  lemma FieldFirst(u: Alphabet, s: Text)
    requires OPENING <= s
    ensures LexStep(u, s) == match FieldEnd(s, 2, 1) case Some(end) => Protected(end) case None => Rejected(UnclosedField)
  {
    hide FieldEnd;
    assert s[0] == OPENING[0] && s[1] == OPENING[1];
  }

  lemma UnclosedRefused(u: Alphabet, rest: Text)
    requires forall f :: Clean(f) ==> !(Closed(f) <= rest)
    ensures LexStep(u, OPENING + rest) == Rejected(UnclosedField)
  {
    var s := OPENING + rest;
    assert s[2..] == rest;
    if FieldEnd(s, 2, 1).Some? {
      var f := FieldClosed(s, 2, 0);
      assert false;
    }
    hide FieldEnd;
  }

  /* ------------------------------------------------------------ everything else */

  /** What starts with none of these is one editable code point. */
  lemma OthersAreEditable(u: Alphabet, c: Code, rest: Text)
    requires u.Coherent() && c != '\\' as int && c !in SYMBOLS && !u.digit(c)
    requires !(c == '<' as int && rest != [] && rest[0] == '>' as int)
    requires !(c in {'+' as int, '-' as int} && rest != [] && u.digit(rest[0]))
    requires c == '%' as int && rest != [] ==>
      && rest[0] != '<' as int
      && (rest[0] == '%' as int && |rest| > 1 ==>
            && !('A' as int <= rest[1] <= 'Z' as int || 'a' as int <= rest[1] <= 'z' as int)
            && !(|rest| > 3 && u.digit(rest[1]) && u.digit(rest[2]) && u.digit(rest[3])))
    ensures LexStep(u, [c] + rest) == Editable(1)
  {
    NumberMunch(u, [c] + rest);
    hide NumberWidth;
  }
}
