/**
 Re-lexing a patched string. `build_translation_plan` replaces editable pieces by reviewed
 targets and joins the pieces again; this module proves exactly when the lexer, run on the
 joined text, finds the very same pieces with only those replacements.
 */
module MtextRelex {
  import opened Wrappers
  import opened Characters
  import opened MtextLexer

  /* ------------------------------------------------------------ numbers, one code point at a time */

  /** `s` would continue a number that ends just before it. */
  predicate Continues(u: Alphabet, s: Text) {
    (s != [] && u.digit(s[0])) || StartsGroup(u, s)
  }

  /** How much of `s` the number pattern eats once it has read a digit. */
  function Munch(u: Alphabet, s: Text): (n: nat)
    ensures n <= |s|
    ensures n > 0 <==> Continues(u, s)
  {
    if Continues(u, s) then 1 + Munch(u, s[1..]) else 0
  }

  lemma {:induction false} DigitsMunch(u: Alphabet, s: Text)
    requires u.Coherent()
    ensures Munch(u, s) == DigitRun(u, s) + Munch(u, s[DigitRun(u, s)..])
  {
    if s != [] && u.digit(s[0]) {
      DigitsMunch(u, s[1..]);
      assert s[1..][DigitRun(u, s[1..])..] == s[DigitRun(u, s)..];
    } else {
      assert s[0..] == s;
    }
  }

  predicate StartsGroup(u: Alphabet, s: Text) {
    |s| >= 2 && (FractionMark(s[0]) || RatioMark(s[0])) && u.digit(s[1])
  }

  /** A separator and its digits can be peeled off whichever repetition matched them. */
  lemma {:induction false} PeelGroup(u: Alphabet, s: Text)
    requires StartsGroup(u, s)
    ensures var n := 1 + DigitRun(u, s[1..]); GroupsWidth(u, s) == n + GroupsWidth(u, s[n..])
  {
    if FractionMark(s[0]) {
      PeelFraction(u, s);
    } else {
      PeelRatio(u, s);
    }
    hide GroupsWidth, DigitRun;
  }

  lemma PeelFraction(u: Alphabet, s: Text)
    requires StartsGroup(u, s) && FractionMark(s[0])
    ensures var n := 1 + DigitRun(u, s[1..]); GroupsWidth(u, s) == n + GroupsWidth(u, s[n..])
  {
    var n := 1 + DigitRun(u, s[1..]);
    var f := Fractions(u, s[n..]);
    assert Fractions(u, s) == n + f;
    hide Fractions, Ratios, DigitRun;
    assert s[n..][f..] == s[n + f..];
  }

  lemma PeelRatio(u: Alphabet, s: Text)
    requires StartsGroup(u, s) && !FractionMark(s[0])
    ensures var n := 1 + DigitRun(u, s[1..]); GroupsWidth(u, s) == n + GroupsWidth(u, s[n..])
  {
    NoFractions(u, s);
    hide Fractions, DigitRun;
    var n := 1 + DigitRun(u, s[1..]);
    var f := Fractions(u, s[n..]);
    FirstRatio(u, s, n, n + f);
    hide Ratios;
    assert s[n..][f..] == s[n + f..] && s[0..] == s;
  }

  lemma NoFractions(u: Alphabet, s: Text)
    requires s != [] && !FractionMark(s[0])
    ensures Fractions(u, s) == 0
  {
    hide DigitRun;
  }

  lemma FirstRatio(u: Alphabet, s: Text, n: nat, m: nat)
    requires |s| >= 2 && RatioMark(s[0]) && u.digit(s[1])
    requires n == 1 + DigitRun(u, s[1..]) && m == n + Fractions(u, s[n..])
    ensures m <= |s| && Ratios(u, s) == m + Ratios(u, s[m..])
  {
    hide DigitRun, Fractions;
  }

  /** The two nested repetitions of the pattern accept every mix of separators. */
  lemma {:induction false} GroupsMunch(u: Alphabet, s: Text)
    requires u.Coherent()
    requires s == [] || !u.digit(s[0])
    ensures GroupsWidth(u, s) == Munch(u, s)
  {
    if StartsGroup(u, s) {
      var n := 1 + DigitRun(u, s[1..]);
      PeelGroup(u, s);
      hide GroupsWidth;
      DigitsMunch(u, s[1..]);
      RunEnds(u, s[1..]);
      assert s[1..][DigitRun(u, s[1..])..] == s[n..];
      GroupsMunch(u, s[n..]);
    } else {
      assert s[0..] == s;
    }
  }

  lemma {:induction false} RunEnds(u: Alphabet, s: Text)
    ensures var n := DigitRun(u, s); n == |s| || !u.digit(s[n])
  {
    if s != [] && u.digit(s[0]) {
      RunEnds(u, s[1..]);
    }
  }

  predicate StartsNumber(u: Alphabet, s: Text) {
    || (s != [] && u.digit(s[0]))
    || (|s| >= 2 && Sign(s[0]) && u.digit(s[1]))
  }

  lemma UnsignedMunch(u: Alphabet, s: Text)
    requires u.Coherent()
    ensures UnsignedWidth(u, s) == if s != [] && u.digit(s[0]) then Munch(u, s) else 0
  {
    DigitsMunch(u, s);
    RunEnds(u, s);
    GroupsMunch(u, s[DigitRun(u, s)..]);
  }

  lemma NumberMunch(u: Alphabet, s: Text)
    requires u.Coherent()
    ensures NumberWidth(u, s) == if StartsNumber(u, s) then 1 + Munch(u, s[1..]) else 0
  {
    if s != [] {
      UnsignedMunch(u, s[1..]);
    }
    UnsignedMunch(u, s);
  }

  lemma {:induction false} MunchLocal(u: Alphabet, a: Text, b: Text)
    requires u.Coherent()
    ensures Munch(u, a + b) == |a| <==> Munch(u, a) == |a| && !Continues(u, b)
  {
    if a == [] {
      assert a + b == b;
    } else {
      assert (a + b)[1..] == a[1..] + b;
      MunchLocal(u, a[1..], b);
      if |a| == 1 && b != [] && !u.digit(a[0]) && Continues(u, a + b) {
        assert u.digit(b[0]) && (a[1..] + b) == b;
      }
    }
  }

  /* ------------------------------------------------------------ protected tokens are local */

  /** The bare control `\p`, which turns into a longer one when a semicolon follows anywhere. */
  const BARE_P: Text := [BACKSLASH, LETTER_P]

  /** Nothing in the text `b` that follows can lengthen the protected token `a`. */
  predicate Closed(u: Alphabet, a: Text, b: Text) {
    && (StartsNumber(u, a) ==> !Continues(u, b))
    && (a == BARE_P ==> SEMICOLON !in b)
  }

  lemma {:induction false} FieldLocal(a: Text, b: Text, i: nat, depth: nat)
    requires i <= |a| && depth > 0
    ensures FieldEnd(a + b, i, depth) == Some(|a|) <==> FieldEnd(a, i, depth) == Some(|a|)
    decreases |a| - i
  {
    if i + 1 < |a| {
      if StartsPair(a, i, PERCENT, LESS) {
        FieldLocal(a, b, i + 2, depth + 1);
      } else if StartsPair(a, i, GREATER, PERCENT) {
        if depth > 1 { FieldLocal(a, b, i + 2, depth - 1); }
      } else {
        FieldLocal(a, b, i + 1, depth);
      }
    } else if i < |a| {
      assert FieldEnd(a, i + 1, depth).None?;
      if i + 1 <= |a + b| && FieldEnd(a + b, i, depth).Some? {
        assert FieldEnd(a + b, i, depth).value > |a|;
      }
    }
  }

  lemma {:induction false} SemicolonLocal(a: Text, b: Text, i: nat)
    requires i <= |a|
    ensures FirstSemicolon(a + b, i) == if FirstSemicolon(a, i).Some? then FirstSemicolon(a, i)
                                        else FirstSemicolon(a + b, |a|)
    decreases |a| - i
  {
    if i < |a| && a[i] != SEMICOLON {
      SemicolonLocal(a, b, i + 1);
    }
  }

  lemma ControlLocal(a: Text, b: Text)
    requires a != [] && a[0] == BACKSLASH
    ensures ControlWidth(a + b) == |a| <==> ControlWidth(a) == |a| && (a == BARE_P ==> SEMICOLON !in b)
  {
    if |a| >= 2 {
      SemicolonLocal(a, b, 2);
      assert (a + b)[|a|..] == b;
      if |a| == 2 && a[1] == LETTER_P {
        assert a == BARE_P;
        if SEMICOLON in b {
          assert FirstSemicolon(a + b, |a|).Some?;
        }
      }
    }
  }

  lemma NumberLocal(u: Alphabet, a: Text, b: Text)
    requires u.Coherent()
    requires a != [] && (u.digit(a[0]) || Sign(a[0]))
    ensures NumberWidth(u, a + b) == |a| <==> NumberWidth(u, a) == |a| && (StartsNumber(u, a) ==> !Continues(u, b))
  {
    hide Alphabet.Coherent, NumberWidth, Munch, Continues;
    NumberMunch(u, a);
    NumberMunch(u, a + b);
    assert (a + b)[1..] == a[1..] + b;
    MunchLocal(u, a[1..], b);
    if |a| == 1 {
      assert a[1..] + b == b;
      DigitContinues(u, b);
      assert StartsNumber(u, a + b) && !u.digit(a[0]) ==> b != [] && u.digit(b[0]);
    }
  }

  lemma DigitContinues(u: Alphabet, b: Text)
    ensures b != [] && u.digit(b[0]) ==> Continues(u, b) && Munch(u, b) > 0
    ensures Munch(u, []) == 0
  {
  }

  /** A token is protected in context exactly when it is protected alone and nothing lengthens it. */
  lemma ProtectedLocal(u: Alphabet, a: Text, b: Text)
    requires u.Coherent() && a != []
    ensures LexStep(u, a + b) == Protected(|a|) <==> LexStep(u, a) == Protected(|a|) && Closed(u, a, b)
  {
    if a[0] == PERCENT {
      PercentLocal(u, a, b);
    } else if a[0] == BACKSLASH {
      BackslashLocal(u, a, b);
    } else if u.digit(a[0]) || Sign(a[0]) {
      SignedLocal(u, a, b);
    } else {
      SymbolLocal(u, a, b);
    }
    hide LexStep, Alphabet.Coherent;
  }

  lemma SignedLocal(u: Alphabet, a: Text, b: Text)
    requires u.Coherent() && a != [] && a[0] != PERCENT && a[0] != BACKSLASH && (u.digit(a[0]) || Sign(a[0]))
    ensures LexStep(u, a + b) == Protected(|a|) <==> LexStep(u, a) == Protected(|a|) && (StartsNumber(u, a) ==> !Continues(u, b))
  {
    NumberLocal(u, a, b);
    hide NumberWidth, StartsNumber, Continues;
  }

  lemma SymbolLocal(u: Alphabet, a: Text, b: Text)
    requires u.Coherent() && a != [] && a[0] != PERCENT && a[0] != BACKSLASH && !u.digit(a[0]) && !Sign(a[0])
    ensures LexStep(u, a + b) == Protected(|a|) <==> LexStep(u, a) == Protected(|a|)
    ensures !StartsNumber(u, a)
  {
    NumberMunch(u, a);
    NumberMunch(u, a + b);
    hide NumberWidth, Munch;
  }

  lemma PercentLocal(u: Alphabet, a: Text, b: Text)
    requires u.Coherent() && a != [] && a[0] == PERCENT
    ensures LexStep(u, a + b) == Protected(|a|) <==> LexStep(u, a) == Protected(|a|)
  {
    NumberMunch(u, a);
    NumberMunch(u, a + b);
    if |a| >= 2 && a[1] == LESS {
      FieldLocal(a, b, 2, 1);
    }
  }

  lemma BackslashLocal(u: Alphabet, a: Text, b: Text)
    requires u.Coherent() && a != [] && a[0] == BACKSLASH
    ensures LexStep(u, a + b) == Protected(|a|) <==> LexStep(u, a) == Protected(|a|) && (a == BARE_P ==> SEMICOLON !in b)
  {
    ControlLocal(a, b);
    NumberMunch(u, a);
    NumberMunch(u, a + b);
  }

  /* ------------------------------------------------------------ pieces */

  /** Every token of the text `e`, lexed with `rest` behind it, is editable and stays inside `e`. */
  predicate EditRun(u: Alphabet, e: Text, rest: Text) {
    e != [] ==>
      var step := LexStep(u, e + rest);
      step.Editable? && step.width <= |e| && EditRun(u, e[step.width..], rest)
  }

  /** The lexer, standing before `p.text + rest`, takes exactly the piece `p`. */
  predicate TakesPiece(u: Alphabet, p: Piece, rest: Text) {
    && p.text != []
    && (if p.editable then EditRun(u, p.text, rest)
        else LexStep(u, p.text + rest) == Protected(|p.text|))
  }

  /** `ps` is what the lexer finds in the text that `ps` spells. */
  predicate Lexes(u: Alphabet, ps: seq<Piece>) {
    Parts(u, Concat(ps)) == Ok(ps)
  }

  predicate StartsEditable(ps: seq<Piece>) {
    ps != [] && ps[0].editable
  }

  /** Lossless and with progress: the pieces spell the string and none of them is empty. */
  lemma PartsSpell(u: Alphabet, s: Text)
    requires Parts(u, s).Ok?
    ensures Concat(Parts(u, s).value) == s
    ensures forall p :: p in Parts(u, s).value ==> p.text != []
    ensures Lexes(u, Parts(u, s).value)
  {
    PartsConcat(u, s);
    hide Parts, Concat;
  }

  lemma {:induction false} PartsConcat(u: Alphabet, s: Text)
    requires Parts(u, s).Ok?
    ensures Concat(Parts(u, s).value) == s
    ensures forall p :: p in Parts(u, s).value ==> p.text != []
  {
    if s != [] {
      PartsStep(u, s);
      hide LexStep, Parts, Join, Concat;
      var step := LexStep(u, s);
      var token, more := s[..step.width], s[step.width..];
      PartsConcat(u, more);
      JoinSpells(step.Editable?, token, Parts(u, more).value);
      assert s == token + more;
    } else {
      assert Parts(u, s) == Ok([]) && Concat([]) == [];
    }
  }

  lemma PartsStep(u: Alphabet, s: Text)
    requires s != [] && Parts(u, s).Ok?
    ensures var step := LexStep(u, s);
            && !step.Rejected? && 0 < step.width <= |s| && Parts(u, s[step.width..]).Ok?
            && Parts(u, s).value == Join(step.Editable?, s[..step.width], Parts(u, s[step.width..]).value)
  {
    hide LexStep, Join;
  }

  lemma JoinSpells(editable: bool, token: Text, rest: seq<Piece>)
    ensures Concat(Join(editable, token, rest)) == token + Concat(rest)
    ensures token != [] && (forall p :: p in rest ==> p.text != []) ==> forall p :: p in Join(editable, token, rest) ==> p.text != []
  {
    if editable && StartsEditable(rest) {
      assert token + (rest[0].text + Concat(rest[1..])) == (token + rest[0].text) + Concat(rest[1..]);
    }
  }

  lemma {:induction false} EditRunParts(u: Alphabet, e: Text, rest: Text)
    requires e != [] && EditRun(u, e, rest)
    requires Parts(u, rest).Ok? ==> !StartsEditable(Parts(u, rest).value)
    ensures Parts(u, e + rest) == Prepend(true, e, Parts(u, rest))
  {
    EditRunStep(u, e, rest);
    hide LexStep, Parts, EditRun, Prepend, StartsEditable;
    var n := LexStep(u, e + rest).width;
    if e[n..] == [] {
      assert e[..n] == e && e[n..] + rest == rest;
    } else {
      EditRunParts(u, e[n..], rest);
      PrependTwice(e[..n], e[n..], Parts(u, rest));
      assert e[..n] + e[n..] == e;
    }
  }

  lemma EditRunStep(u: Alphabet, e: Text, rest: Text)
    requires e != [] && EditRun(u, e, rest)
    ensures var n := LexStep(u, e + rest).width;
            && LexStep(u, e + rest).Editable? && 0 < n <= |e| && EditRun(u, e[n..], rest)
            && Parts(u, e + rest) == Prepend(true, e[..n], Parts(u, e[n..] + rest))
  {
    hide LexStep, Prepend, Parts, EditRun;
    EditRunIs(u, e, rest);
    var c, n := e + rest, LexStep(u, e + rest).width;
    EditableFirst(u, c);
    assert c[..n] == e[..n];
    assert c[n..] == e[n..] + rest;
  }

  lemma EditableFirst(u: Alphabet, c: Text)
    requires c != [] && LexStep(u, c).Editable?
    ensures Parts(u, c) == Prepend(true, c[..LexStep(u, c).width], Parts(u, c[LexStep(u, c).width..]))
  {
    hide LexStep, Prepend;
  }

  lemma EditRunIs(u: Alphabet, e: Text, rest: Text)
    requires e != [] && EditRun(u, e, rest)
    ensures var step := LexStep(u, e + rest); step.Editable? && 0 < step.width <= |e| && EditRun(u, e[step.width..], rest)
  {
    hide LexStep;
  }

  lemma PrependTwice(a: Text, b: Text, rest: Lexed)
    requires rest.Ok? ==> !StartsEditable(rest.value)
    ensures Prepend(true, a, Prepend(true, b, rest)) == Prepend(true, a + b, rest)
  {
  }

  lemma EditRunCons(u: Alphabet, token: Text, e: Text, rest: Text)
    requires token != [] && EditRun(u, e, rest)
    requires LexStep(u, (token + e) + rest) == Editable(|token|)
    ensures EditRun(u, token + e, rest)
  {
    hide LexStep;
    assert (token + e)[|token|..] == e;
  }

  /** The first piece of a lexed text, and what the lexer then faces. */
  lemma {:induction false} FirstPiece(u: Alphabet, s: Text)
    requires Parts(u, s).Ok? && s != []
    ensures var ps := Parts(u, s).value;
            && ps != [] && ps[0].text <= s && TakesPiece(u, ps[0], s[|ps[0].text|..])
            && Parts(u, s[|ps[0].text|..]) == Ok(ps[1..])
            && (ps[0].editable ==> !StartsEditable(ps[1..]))
  {
    PartsStep(u, s);
    hide LexStep, Parts, EditRun;
    var n := LexStep(u, s).width;
    var token, ahead := s[..n], s[n..];
    assert token + ahead == s;
    var tail := Parts(u, ahead).value;
    if !LexStep(u, s).Editable? {
    } else if StartsEditable(tail) {
      NothingLexed(u, ahead);
      FirstPiece(u, ahead);
      var e := tail[0].text;
      var rest := ahead[|e|..];
      PrefixSplit(e, ahead);
      LongerRun(u, s, token, e, rest);
      JoinedPiece(token, tail);
    } else {
      NoRun(u, ahead);
      PrefixSplit([], ahead);
      LongerRun(u, s, token, [], ahead);
      assert token + [] == token;
    }
  }

  lemma PrefixSplit(a: Text, b: Text)
    requires a <= b
    ensures b == a + b[|a|..]
  {
  }

  lemma JoinedPiece(token: Text, tail: seq<Piece>)
    requires StartsEditable(tail)
    ensures Join(true, token, tail) == [Piece(true, token + tail[0].text)] + tail[1..]
    ensures Join(true, token, tail)[0].text == token + tail[0].text && Join(true, token, tail)[1..] == tail[1..]
  {
  }

  lemma LongerRun(u: Alphabet, s: Text, token: Text, e: Text, rest: Text)
    requires token != [] && EditRun(u, e, rest) && s == token + (e + rest) && LexStep(u, s) == Editable(|token|)
    ensures token + e <= s && s[|token + e|..] == rest && EditRun(u, token + e, rest)
  {
    hide LexStep, EditRun;
    assert (token + e) + rest == s;
    EditRunCons(u, token, e, rest);
  }

  lemma NothingLexed(u: Alphabet, s: Text)
    requires Parts(u, s).Ok? && Parts(u, s).value != []
    ensures s != []
  {
  }

  lemma NoRun(u: Alphabet, rest: Text)
    ensures EditRun(u, [], rest)
  {
  }

  /** Lexing is compositional in the first piece, both ways. */
  lemma LexesCons(u: Alphabet, p: Piece, rest: seq<Piece>)
    requires p.text != []
    ensures Lexes(u, [p] + rest)
        <==> TakesPiece(u, p, Concat(rest)) && Lexes(u, rest) && (p.editable ==> !StartsEditable(rest))
  {
    var s := p.text + Concat(rest);
    assert ([p] + rest)[1..] == rest;
    assert Concat([p] + rest) == s;
    assert s[|p.text|..] == Concat(rest) && s[..|p.text|] == p.text;
    if Lexes(u, [p] + rest) {
      FirstPiece(u, s);
    }
    if TakesPiece(u, p, Concat(rest)) && Lexes(u, rest) && (p.editable ==> !StartsEditable(rest)) {
      if p.editable {
        EditRunParts(u, p.text, Concat(rest));
      }
    }
  }

  /* ------------------------------------------------------------ replacing editable pieces */

  /** The checks that `build_translation_plan` makes on the code points of a changed target. */
  predicate Admissible(u: Alphabet, target: Text) {
    && Parts(u, target).Ok?
    && (forall p :: p in Parts(u, target).value ==> p.editable)
    && PERCENT !in target
    && BACKSLASH !in target
    && !u.AnyNumeric(target)
    && u.AnyAlpha(target)
  }

  /** `qs` is `ps` with some editable pieces replaced by admissible targets. */
  predicate Revises(u: Alphabet, ps: seq<Piece>, qs: seq<Piece>) {
    && |qs| == |ps|
    && forall k :: 0 <= k < |ps| ==>
         || qs[k] == ps[k]
         || (ps[k].editable && qs[k].editable && Admissible(u, qs[k].text))
  }

  predicate EndsWithSign(s: Text) {
    s != [] && Sign(s[|s| - 1])
  }

  predicate StartsWithDigit(u: Alphabet, s: Text) {
    s != [] && u.digit(s[0])
  }

  /** No changed piece puts a sign in front of an unsigned number. */
  predicate NoStraySign(u: Alphabet, ps: seq<Piece>, qs: seq<Piece>)
    requires |ps| == |qs|
  {
    forall k :: 0 <= k < |ps| - 1 && qs[k] != ps[k] && EndsWithSign(qs[k].text) ==>
      !StartsWithDigit(u, ps[k + 1].text)
  }

  /** No changed piece brings a semicolon behind a bare `\p`. */
  predicate NoStraySemicolon(ps: seq<Piece>, qs: seq<Piece>)
    requires |ps| == |qs|
  {
    forall j, k :: 0 <= j < k < |ps| && ps[j] == Piece(false, BARE_P) && qs[k] != ps[k] ==>
      SEMICOLON !in qs[k].text
  }

  /** No code point of `t` starts a protected token by itself or with its neighbour. */
  predicate Plain(u: Alphabet, t: Text) {
    && (forall i :: 0 <= i < |t| ==>
          !u.digit(t[i]) && !Symbol(t[i]) && t[i] != BACKSLASH && t[i] != PERCENT)
    && (forall i :: 0 <= i < |t| - 1 ==> !StartsPair(t, i, LESS, GREATER))
  }

  lemma {:induction false} PlainFromRun(u: Alphabet, t: Text)
    requires u.Coherent() && EditRun(u, t, []) && BACKSLASH !in t && PERCENT !in t
    ensures Plain(u, t)
  {
    if t != [] {
      assert t + [] == t;
      NumberMunch(u, t);
      assert t[0] in t;
      assert LexStep(u, t) == Editable(1);
      assert forall c :: c in t[1..] ==> c in t;
      PlainFromRun(u, t[1..]);
      forall i | 0 <= i < |t|
        ensures !u.digit(t[i]) && !Symbol(t[i]) && t[i] != BACKSLASH && t[i] != PERCENT
        ensures i < |t| - 1 ==> !StartsPair(t, i, LESS, GREATER)
      {
        if i > 0 {
          assert t[i] == t[1..][i - 1];
          if i < |t| - 1 {
            assert !StartsPair(t[1..], i - 1, LESS, GREATER) && t[i + 1] == t[1..][i];
          }
        }
      }
    }
  }

  lemma AdmissibleRun(u: Alphabet, t: Text)
    requires Admissible(u, t)
    ensures t != [] && EditRun(u, t, [])
  {
    hide LexStep;
    FirstPiece(u, t);
    PartsSpell(u, t);
    var ps := Parts(u, t).value;
    assert forall i :: 0 <= i < |ps| ==> ps[i].editable;
    assert t == ps[0].text + Concat(ps[1..]) && Concat(ps[1..]) == [];
    assert ps[0].text == t && t[|t|..] == [];
  }

  lemma AdmissiblePlain(u: Alphabet, t: Text)
    requires u.Coherent() && Admissible(u, t)
    ensures t != [] && Plain(u, t)
    ensures forall rest :: !Continues(u, t + rest)
  {
    AdmissibleRun(u, t);
    PlainFromRun(u, t);
    hide Parts, EditRun;
    var i :| 0 <= i < |t| && u.alpha(t[i]);
    forall rest ensures !Continues(u, t + rest) {
      if |t| >= 2 {
        assert (t + rest)[1] == t[1];
      }
    }
  }

  /** Plain text stays editable in front of a text that does not join up with its last code point. */
  lemma {:induction false} PlainRun(u: Alphabet, t: Text, rest: Text)
    requires u.Coherent() && Plain(u, t)
    requires rest != [] ==> rest[0] != GREATER && (EndsWithSign(t) ==> !u.digit(rest[0]))
    ensures EditRun(u, t, rest)
  {
    if t != [] {
      NumberMunch(u, t + rest);
      assert (t + rest)[0] == t[0];
      assert StartsPair(t + rest, 0, LESS, GREATER) && |t| > 1 ==> StartsPair(t, 0, LESS, GREATER);
      assert LexStep(u, t + rest) == Editable(1);
      assert forall i :: 0 <= i < |t| - 2 ==> StartsPair(t[1..], i, LESS, GREATER) == StartsPair(t, i + 1, LESS, GREATER);
      PlainRun(u, t[1..], rest);
    }
  }

  /** A sign at the end of plain text is swallowed by the digits behind it. */
  lemma {:induction false} SignSwallowed(u: Alphabet, t: Text, rest: Text)
    requires u.Coherent() && Plain(u, t) && EndsWithSign(t) && StartsWithDigit(u, rest)
    ensures !EditRun(u, t, rest)
  {
    NumberMunch(u, t + rest);
    if |t| > 1 {
      assert !HexEscape(t + rest);
      assert forall i :: 0 <= i < |t| - 2 ==> StartsPair(t[1..], i, LESS, GREATER) == StartsPair(t, i + 1, LESS, GREATER);
      SignSwallowed(u, t[1..], rest);
    }
  }

  /** In front of the same protected piece a token of an unchanged editable piece lexes as before. */
  lemma SameStep(u: Alphabet, x: Text, p: Text, r: Text, r': Text)
    requires u.Coherent() && x != [] && p != []
    requires EditRun(u, x, p + r)
    requires LexStep(u, p + r) == Protected(|p|) == LexStep(u, p + r')
    ensures LexStep(u, x + (p + r')) == LexStep(u, x + (p + r))
  {
    var s, s' := x + (p + r), x + (p + r');
    NumberMunch(u, s);
    NumberMunch(u, s');
    if x[0] == BACKSLASH {
      assert HexEscape(s);
    } else if x[0] == PERCENT {
      SamePercent(u, x, p, r, r');
    }
  }

  lemma SamePercent(u: Alphabet, x: Text, p: Text, r: Text, r': Text)
    requires u.Coherent() && x != [] && p != [] && x[0] == PERCENT
    requires EditRun(u, x, p + r)
    requires LexStep(u, p + r) == Protected(|p|) == LexStep(u, p + r')
    ensures PercentWidth(u, x + (p + r')) == 0
  {
    var s, s' := x + (p + r), x + (p + r');
    ProtectedLocal(u, p, r);
    ProtectedLocal(u, p, r');
    assert LexStep(u, s) == Editable(1);
    if |x| == 1 {
      assert s[1..] == p + r && s'[1..] == p + r';
    } else if |x| == 2 {
      assert s[2..] == p + r && s'[2..] == p + r';
    } else {
      assert EditRun(u, x[1..], p + r);
      if x[1] == PERCENT {
        assert LexStep(u, x[1..] + (p + r)) == Editable(1);
        assert x[1..][1..] == x[2..];
        NumberMunch(u, x[2..] + (p + r));
      }
    }
  }

  /** An unchanged editable piece is still lexed as editable in front of the same protected piece. */
  lemma {:induction false} SameRun(u: Alphabet, e: Text, p: Text, r: Text, r': Text)
    requires u.Coherent() && p != []
    requires EditRun(u, e, p + r)
    requires LexStep(u, p + r) == Protected(|p|) == LexStep(u, p + r')
    ensures EditRun(u, e, p + r')
  {
    if e != [] {
      SameStep(u, e, p, r, r');
      hide LexStep;
      SameRun(u, e[LexStep(u, e + (p + r)).width..], p, r, r');
    }
  }

  /* ------------------------------------------------------------ the theorem */

  lemma {:induction false} SemicolonInConcat(ps: seq<Piece>)
    ensures SEMICOLON in Concat(ps) <==> exists k :: 0 <= k < |ps| && SEMICOLON in ps[k].text
  {
    if ps != [] {
      SemicolonInConcat(ps[1..]);
      if SEMICOLON in Concat(ps[1..]) {
        var k :| 0 <= k < |ps| - 1 && SEMICOLON in ps[1..][k].text;
        assert SEMICOLON in ps[k + 1].text;
      }
      if k :| 0 <= k < |ps| && SEMICOLON in ps[k].text && k > 0 {
        assert ps[1..][k - 1] == ps[k];
      }
    }
  }

  /** The tails of two piece lists inherit what is known of the lists. */
  lemma TailFacts(u: Alphabet, ps: seq<Piece>, qs: seq<Piece>)
    requires ps != [] && Lexes(u, ps) && Revises(u, ps, qs)
    ensures ps[0].text != [] && TakesPiece(u, ps[0], Concat(ps[1..])) && Lexes(u, ps[1..])
    ensures ps[0].editable ==> !StartsEditable(ps[1..]) && !StartsEditable(qs[1..])
    ensures Revises(u, ps[1..], qs[1..])
  {
    hide LexStep, TakesPiece, Admissible;
    PartsSpell(u, Concat(ps));
    assert ps[0] in ps && ps == [ps[0]] + ps[1..];
    LexesCons(u, ps[0], ps[1..]);
    forall k | 0 <= k < |ps| - 1
      ensures || qs[1..][k] == ps[1..][k]
              || (ps[1..][k].editable && qs[1..][k].editable && Admissible(u, qs[1..][k].text))
    {
      assert qs[1..][k] == qs[k + 1] && ps[1..][k] == ps[k + 1];
    }
  }

  /** A number that was complete in front of `ps` is complete in front of the revised pieces. */
  lemma NumberStaysComplete(u: Alphabet, ps: seq<Piece>, qs: seq<Piece>)
    requires u.Coherent() && Lexes(u, ps) && Revises(u, ps, qs)
    ensures Continues(u, Concat(qs)) ==> Continues(u, Concat(ps))
  {
    if ps != [] {
      TailFacts(u, ps, qs);
      if qs[0] != ps[0] {
        AdmissiblePlain(u, qs[0].text);
      } else {
        SameNumberEnd(u, ps[0], ps[1..], qs[1..]);
      }
    }
  }

  lemma SameNumberEnd(u: Alphabet, p: Piece, ps: seq<Piece>, qs: seq<Piece>)
    requires u.Coherent() && TakesPiece(u, p, Concat(ps)) && Lexes(u, ps) && Revises(u, ps, qs)
    requires p.editable ==> !StartsEditable(ps)
    ensures Continues(u, p.text + Concat(qs)) ==> Continues(u, p.text + Concat(ps))
  {
    if |p.text| == 1 && p.editable {
      if ps != [] {
        TailFacts(u, ps, qs);
        assert Concat(ps)[0] == ps[0].text[0] == Concat(qs)[0];
      }
    } else if |p.text| == 1 {
      NumberMunch(u, p.text + Concat(ps));
    }
  }

  /** A protected piece is taken again when no stray semicolon follows it. */
  lemma ProtectedAgain(u: Alphabet, p: Piece, ps: seq<Piece>, qs: seq<Piece>)
    requires u.Coherent() && !p.editable && TakesPiece(u, p, Concat(ps))
    requires Lexes(u, ps) && Revises(u, ps, qs)
    ensures TakesPiece(u, p, Concat(qs)) <==> (p.text == BARE_P ==> SEMICOLON !in Concat(qs))
  {
    ProtectedLocal(u, p.text, Concat(ps));
    ProtectedLocal(u, p.text, Concat(qs));
    NumberStaysComplete(u, ps, qs);
  }

  /** An editable piece, changed or not, is taken again when it does not end in a stray sign. */
  lemma EditableAgain(u: Alphabet, p: Piece, q: Piece, ps: seq<Piece>, qs: seq<Piece>)
    requires u.Coherent() && p.editable && TakesPiece(u, p, Concat(ps)) && !StartsEditable(ps)
    requires q == p || (q.editable && Admissible(u, q.text))
    requires Lexes(u, ps) && Revises(u, ps, qs) && Lexes(u, qs)
    ensures TakesPiece(u, q, Concat(qs))
        <==> (q != p && EndsWithSign(q.text) ==> ps == [] || !StartsWithDigit(u, ps[0].text))
  {
    if ps != [] {
      TailFacts(u, ps, qs);
      TailFacts(u, qs, qs);
      NumberMunch(u, Concat(qs));
      assert Concat(qs)[0] == qs[0].text[0];
    }
    if q != p {
      AdmissiblePlain(u, q.text);
      if EndsWithSign(q.text) && ps != [] && StartsWithDigit(u, ps[0].text) {
        SignSwallowed(u, q.text, Concat(qs));
      } else {
        PlainRun(u, q.text, Concat(qs));
      }
    } else if ps != [] {
      SameRun(u, p.text, ps[0].text, Concat(ps[1..]), Concat(qs[1..]));
    }
  }

  lemma {:induction false} RevisionRelexes(u: Alphabet, ps: seq<Piece>, qs: seq<Piece>)
    requires u.Coherent() && Lexes(u, ps) && Revises(u, ps, qs)
    requires NoStraySign(u, ps, qs) && NoStraySemicolon(ps, qs)
    ensures Lexes(u, qs)
  {
    if ps != [] {
      hide LexStep, Admissible, TakesPiece;
      TailFacts(u, ps, qs);
      StrayTails(u, ps, qs);
      RevisionRelexes(u, ps[1..], qs[1..]);
      if ps[0].editable {
        EditableAgain(u, ps[0], qs[0], ps[1..], qs[1..]);
      } else {
        ProtectedAgain(u, ps[0], ps[1..], qs[1..]);
        if ps[0].text == BARE_P {
          NoSemicolonBehind(u, ps, qs);
        }
      }
      RejoinHead(u, qs);
    }
  }

  lemma RejoinHead(u: Alphabet, qs: seq<Piece>)
    requires qs != [] && TakesPiece(u, qs[0], Concat(qs[1..])) && Lexes(u, qs[1..])
    requires qs[0].editable ==> !StartsEditable(qs[1..])
    ensures Lexes(u, qs)
  {
    hide LexStep;
    LexesCons(u, qs[0], qs[1..]);
    assert qs == [qs[0]] + qs[1..];
  }

  lemma StrayTails(u: Alphabet, ps: seq<Piece>, qs: seq<Piece>)
    requires |ps| == |qs| && ps != []
    requires NoStraySign(u, ps, qs) && NoStraySemicolon(ps, qs)
    ensures NoStraySign(u, ps[1..], qs[1..]) && NoStraySemicolon(ps[1..], qs[1..])
  {
    forall k | 0 <= k < |ps| - 2 && qs[1..][k] != ps[1..][k] && EndsWithSign(qs[1..][k].text)
      ensures !StartsWithDigit(u, ps[1..][k + 1].text)
    {
      assert qs[k + 1] != ps[k + 1];
    }
    forall j, k | 0 <= j < k < |ps| - 1 && ps[1..][j] == Piece(false, BARE_P) && qs[1..][k] != ps[1..][k]
      ensures SEMICOLON !in qs[1..][k].text
    {
      assert ps[j + 1] == Piece(false, BARE_P) && qs[k + 1] != ps[k + 1];
    }
  }

  /** Behind a bare `\p` neither the old pieces nor the revised ones hold a semicolon. */
  lemma NoSemicolonBehind(u: Alphabet, ps: seq<Piece>, qs: seq<Piece>)
    requires u.Coherent() && ps != [] && |ps| == |qs| && ps[0] == Piece(false, BARE_P)
    requires TakesPiece(u, ps[0], Concat(ps[1..])) && NoStraySemicolon(ps, qs)
    ensures SEMICOLON !in Concat(qs[1..])
  {
    ProtectedLocal(u, BARE_P, Concat(ps[1..]));
    SemicolonInConcat(ps[1..]);
    SemicolonInConcat(qs[1..]);
    forall k | 0 <= k < |qs| - 1
      ensures SEMICOLON !in qs[1..][k].text
    {
      assert qs[1..][k] == qs[k + 1] && ps[1..][k] == ps[k + 1];
    }
  }

  lemma {:induction false} RelexedHasNoStrays(u: Alphabet, ps: seq<Piece>, qs: seq<Piece>)
    requires u.Coherent() && Lexes(u, ps) && Revises(u, ps, qs) && Lexes(u, qs)
    ensures NoStraySign(u, ps, qs) && NoStraySemicolon(ps, qs)
  {
    if ps != [] {
      hide LexStep, Admissible, TakesPiece;
      TailFacts(u, ps, qs);
      TailFactsSelf(u, qs);
      RelexedHasNoStrays(u, ps[1..], qs[1..]);
      if ps[0].editable {
        EditableAgain(u, ps[0], qs[0], ps[1..], qs[1..]);
      } else {
        ProtectedAgain(u, ps[0], ps[1..], qs[1..]);
        SemicolonInConcat(qs[1..]);
      }
      forall k | 0 <= k < |ps| - 1 && qs[k] != ps[k] && EndsWithSign(qs[k].text)
        ensures !StartsWithDigit(u, ps[k + 1].text)
      {
        if k > 0 {
          assert qs[1..][k - 1] != ps[1..][k - 1] && ps[1..][k] == ps[k + 1];
        }
      }
      forall j, k | 0 <= j < k < |ps| && ps[j] == Piece(false, BARE_P) && qs[k] != ps[k]
        ensures SEMICOLON !in qs[k].text
      {
        assert qs[1..][k - 1] == qs[k] && ps[1..][k - 1] == ps[k];
        if j > 0 {
          assert ps[1..][j - 1] == ps[j];
        }
      }
    }
  }

  lemma TailFactsSelf(u: Alphabet, qs: seq<Piece>)
    requires qs != [] && Lexes(u, qs)
    ensures TakesPiece(u, qs[0], Concat(qs[1..])) && Lexes(u, qs[1..])
  {
    TailFacts(u, qs, qs);
  }

  /**
   The re-lexing theorem. The lexer, run on the joined text of a lexed string whose editable
   pieces were replaced by admissible targets, returns exactly those pieces if and only if no
   target that ends in a sign stands before an unsigned number and no target with a semicolon
   stands behind a bare `\p`.
   */
  lemma RelexStable(u: Alphabet, raw: Text, qs: seq<Piece>)
    requires u.Coherent() && Parts(u, raw).Ok? && Revises(u, Parts(u, raw).value, qs)
    ensures var ps := Parts(u, raw).value;
            Parts(u, Concat(qs)) == Ok(qs) <==> NoStraySign(u, ps, qs) && NoStraySemicolon(ps, qs)
  {
    var ps := Parts(u, raw).value;
    PartsSpell(u, raw);
    if Parts(u, Concat(qs)) == Ok(qs) {
      RelexedHasNoStrays(u, ps, qs);
    }
    if NoStraySign(u, ps, qs) && NoStraySemicolon(ps, qs) {
      RevisionRelexes(u, ps, qs);
    }
  }

  /* ------------------------------------------------------------ both exceptions occur */

  lemma PlainAdmissible(u: Alphabet, t: Text)
    requires u.Coherent() && Plain(u, t) && u.AnyAlpha(t) && !u.AnyNumeric(t)
    ensures Admissible(u, t)
  {
    PlainRun(u, t, []);
    EditRunParts(u, t, []);
    assert t + [] == t && Parts(u, []) == Ok([]);
    assert Join(true, t, []) == [Piece(true, t)];
  }

  lemma TwoPiecesLex(u: Alphabet, a: Piece, b: Piece)
    requires TakesPiece(u, a, b.text) && TakesPiece(u, b, []) && !(a.editable && b.editable)
    ensures Lexes(u, [a, b])
  {
    hide LexStep, TakesPiece;
    TakesSomething(u, a, b.text);
    TakesSomething(u, b, []);
    assert Concat([]) == [] && b.text + [] == b.text;
    LexesCons(u, b, []);
    assert [b] == [b] + [];
    LexesCons(u, a, [b]);
    assert [a, b] == [a] + [b];
  }

  lemma TakesSomething(u: Alphabet, p: Piece, rest: Text)
    requires TakesPiece(u, p, rest)
    ensures p.text != []
  {
  }

  /** `K5` translated to `K-5`: the minus sign becomes part of the protected number. */
  lemma StraySignExample(u: Alphabet)
    requires u.Coherent()
    ensures var ps := [Piece(true, [0x4B]), Piece(false, [0x35])];
            var qs := [Piece(true, [0x4B, MINUS]), Piece(false, [0x35])];
            Lexes(u, ps) && Revises(u, ps, qs) && !Lexes(u, qs)
  {
    hide Parts;
    var ps := [Piece(true, [0x4B]), Piece(false, [0x35])];
    var qs := [Piece(true, [0x4B, MINUS]), Piece(false, [0x35])];
    PlainRun(u, [0x4B], [0x35]);
    NumberMunch(u, [0x35]);
    assert [0x35] + [] == [0x35];
    assert u.alpha([0x4B, MINUS][0]);
    PlainAdmissible(u, [0x4B, MINUS]);
    TwoPiecesLex(u, ps[0], ps[1]);
    hide LexStep;
    assert qs[0] != ps[0] && EndsWithSign(qs[0].text) && StartsWithDigit(u, ps[0 + 1].text);
    RelexStable(u, Concat(ps), qs);
  }

  /** `\pK` translated to `\pK;`: the bare control swallows the text up to the semicolon. */
  lemma StraySemicolonExample(u: Alphabet)
    requires u.Coherent()
    ensures var ps := [Piece(false, BARE_P), Piece(true, [0x4B])];
            var qs := [Piece(false, BARE_P), Piece(true, [0x4B, SEMICOLON])];
            Lexes(u, ps) && Revises(u, ps, qs) && !Lexes(u, qs)
  {
    hide Parts;
    var ps := [Piece(false, BARE_P), Piece(true, [0x4B])];
    var qs := [Piece(false, BARE_P), Piece(true, [0x4B, SEMICOLON])];
    PlainRun(u, [0x4B], []);
    ControlLocal(BARE_P, [0x4B]);
    assert u.alpha([0x4B, SEMICOLON][0]);
    PlainAdmissible(u, [0x4B, SEMICOLON]);
    TwoPiecesLex(u, ps[0], ps[1]);
    hide LexStep;
    assert ps[0] == Piece(false, BARE_P) && qs[1] != ps[1] && qs[1].text[1] == SEMICOLON;
    RelexStable(u, Concat(ps), qs);
  }
}
