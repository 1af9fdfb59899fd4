/** What a scan of the first bytes says about the whole content. */
module PdfWindow {
  import opened Octets
  import opened Wrappers
  import opened PdfLexer
  import opened PdfGrammar

  /** No word runs from the first content into the second. */
  predicate TokenBoundary(p: Bytes, q: Bytes) {
    p == [] || q == [] || !Regular(p[|p| - 1]) || !Regular(q[0])
  }

  /** A token that is followed by more of `p` is read the same when `q` follows `p`. */
  lemma TokenStays(p: Bytes, q: Bytes)
    requires p != [] && LexOne(p).Ok?
    requires |Text(LexOne(p).value)| < |p| || EndsBefore(LexOne(p).value, q)
    ensures LexOne(p + q) == LexOne(p)
    ensures |Text(LexOne(p).value)| <= |p|
    ensures (p + q)[|Text(LexOne(p).value)|..] == p[|Text(LexOne(p).value)|..] + q
  {
    LexSound(p);
    var t := LexOne(p).value;
    var n := |Text(t)|;
    assert (p + q)[n..] == p[n..] + q;
    assert (p + q)[..n] == p[..n];
    LexComplete(p + q, t);
  }

  /** A content that is a token and something that cannot continue it. */
  lemma StartsFrom(c: Bytes, t: Token, rest: Bytes)
    requires c == Text(t) + rest && Fits(t) && EndsBefore(t, rest)
    ensures c != [] && LexOne(c) == Ok(t) && 0 < |Text(t)| <= |c| && c[|Text(t)|..] == rest
  {
    assert c[..|Text(t)|] == Text(t) && c[|Text(t)|..] == rest;
    LexComplete(c, t);
    TokenIsPrefix(c);
    hide Text, Fits, EndsBefore, LexOne;
  }

  predicate MayGoOn(t: Token) {
    t.Comment? || t.Name?
  }

  lemma LongerTail(s: Token, q: Bytes) returns (t: Token, rest: Bytes)
    requires Fits(s) && MayGoOn(s)
    ensures Fits(t) && MayGoOn(t) && EndsBefore(t, rest) && Text(s) + q == Text(t) + rest
  {
    if s.Comment? {
      t, rest := LongerComment(s.body, q);
    } else {
      t, rest := LongerName(s.body, q);
    }
  }

  lemma LongerComment(body: Bytes, q: Bytes) returns (t: Token, rest: Bytes)
    requires Fits(Comment(body))
    ensures Fits(t) && t.Comment? && EndsBefore(t, rest) && Text(Comment(body)) + q == Text(t) + rest
  {
    CommentRunIs(q);
    hide CommentRun, Regular;
    var more := q[..CommentRun(q)];
    t, rest := Comment(body + more), q[CommentRun(q)..];
    assert q == more + rest;
  }

  lemma LongerName(body: Bytes, q: Bytes) returns (t: Token, rest: Bytes)
    requires Fits(Name(body))
    ensures Fits(t) && t.Name? && EndsBefore(t, rest) && Text(Name(body)) + q == Text(t) + rest
  {
    RegularRunIs(q);
    hide RegularRun, Regular;
    var more := q[..RegularRun(q)];
    t, rest := Name(body + more), q[RegularRun(q)..];
    assert q == more + rest;
  }

  /** A comment or a name at the end of `p` may go on in `q`; it has no effect either way. */
  lemma TailGoesOn(p: Bytes, q: Bytes) returns (rest: Bytes, t: Token)
    requires p != [] && LexOne(p).Ok? && |Text(LexOne(p).value)| == |p| && MayGoOn(LexOne(p).value)
    ensures p + q != [] && LexOne(p + q) == Ok(t) && MayGoOn(t) && 0 < |Text(t)| <= |p + q| && (p + q)[|Text(t)|..] == rest
  {
    LexSound(p);
    assert p == Text(LexOne(p).value);
    t, rest := LongerTail(LexOne(p).value, q);
    hide Text, Fits, EndsBefore, LexOne;
    StartsFrom(p + q, t, rest);
  }

  /** Scanning goes on where the scan of a prefix stopped, but for what its last comment or name swallows. */
  lemma {:induction false} ScanGoesOn(p: Bytes, q: Bytes, containers: seq<Kind>, found: bool) returns (rest: Bytes)
    requires TokenBoundary(p, q)
    requires Scan(p, containers, found).Between? || Scan(p, containers, found) == Finished(Ok(true))
    ensures var s := Scan(p, containers, found);
            Scan(p + q, containers, found) == if s.Between? then Scan(rest, s.containers, s.found) else s
    decreases |p|
  {
    if p == [] {
      rest := q;
      assert p + q == q;
    } else {
      TokenIsPrefix(p);
      var t := LexOne(p).value;
      var n := |Text(t)|;
      var next := Consume(t, containers, found);
      if n < |p| || EndsBefore(t, q) {
        TokenStays(p, q);
        hide LexOne, Text, Regular;
        if next.Between? {
          assert p[n..] != [] ==> p[n..][|p[n..]| - 1] == p[|p| - 1];
          rest := ScanGoesOn(p[n..], q, next.containers, next.found);
        } else {
          rest := q;
        }
      } else {
        WordsEndRegular(p, t);
        var longer;
        rest, longer := TailGoesOn(p, q);
        assert p[n..] == [];
      }
    }
  }

  lemma WordsEndRegular(p: Bytes, t: Token)
    requires p != [] && LexOne(p) == Ok(t) && |Text(t)| == |p|
    ensures t.Word? ==> Regular(p[|p| - 1])
  {
    LexSound(p);
  }

  lemma {:induction false} FoundStays(c: Bytes, containers: seq<Kind>)
    requires Conclude(Scan(c, containers, true)).Ok?
    ensures Conclude(Scan(c, containers, true)) == Ok(true)
    decreases |c|
  {
    if c != [] {
      TokenIsPrefix(c);
      var t := LexOne(c).value;
      var next := Consume(t, containers, true);
      if next.Between? {
        FoundStays(c[|Text(t)|..], next.containers);
      }
    }
  }

  /** Marks found in a prefix that ends on a token boundary are found in every readable extension. */
  lemma MarksSurvive(p: Bytes, q: Bytes)
    requires Marks(p) == Ok(true) && TokenBoundary(p, q) && Marks(p + q).Ok?
    ensures Marks(p + q) == Ok(true)
  {
    var rest := ScanGoesOn(p, q, [], false);
    if Scan(p, [], false).Between? {
      FoundStays(rest, []);
    }
  }

  /* ------------------------------------------------------------ single operators */

  function Ascii(s: string): Bytes
    requires forall i :: 0 <= i < |s| ==> s[i] as int < 128
  {
    seq(|s|, i requires 0 <= i < |s| => s[i] as int)
  }

  /** The ten delimiters and six white-space bytes end a word, and nothing else does. */
  lemma RegularMeans(b: Byte)
    ensures Regular(b) <==> b !in Ascii("%()/<>[]{}") && b !in {0, 9, 10, 12, 13, 32}
  {
    assert Ascii("%()/<>[]{}") == [37, 40, 41, 47, 60, 62, 91, 93, 123, 125];
  }

  /** The operators that show something. */
  const MARKS: set<Bytes> := {
    Ascii("S"), Ascii("s"), Ascii("f"), Ascii("F"), Ascii("f*"), Ascii("B"), Ascii("B*"), Ascii("b"), Ascii("b*"), Ascii("sh"),
    Ascii("Tj"), Ascii("TJ"), Ascii("'"), Ascii("\""), Ascii("Do"), Ascii("BI")}

  /** A line feed ends whatever token precedes it. */
  lemma LineFeedEnds(t: Token, q: Bytes)
    ensures EndsBefore(t, [10] + q)
  {
  }

  lemma {:induction false} ScanNextLine(p: Bytes, q: Bytes, containers: seq<Kind>, found: bool)
    requires Scan(p, containers, found).Between?
    ensures var s := Scan(p, containers, found); Scan(p + ([10] + q), containers, found) == Scan([10] + q, s.containers, s.found)
    decreases |p|
  {
    var line := [10] + q;
    if p == [] {
      assert p + line == line;
    } else {
      TokenIsPrefix(p);
      var t := LexOne(p).value;
      LineFeedEnds(t, q);
      TokenStays(p, line);
      var next := Consume(t, containers, found);
      hide LexOne, Text, Consume;
      ScanNextLine(p[|Text(t)|..], q, next.containers, next.found);
    }
  }

  /* ------------------------------------------------------------ exactly which prefixes are safe */

  /** Without the word, or the part of one, that the prefix ends in. */
  function Stem(a: Bytes): (p: Bytes)
    ensures p <= a
  {
    if a == [] || !Regular(a[|a| - 1]) then a else Stem(a[..|a| - 1])
  }

  lemma {:induction false} StemSplits(a: Bytes)
    ensures Stem(a) == [] || !Regular(Stem(a)[|Stem(a)| - 1])
    ensures a == Stem(a) + a[|Stem(a)|..]
    ensures forall i :: |Stem(a)| <= i < |a| ==> Regular(a[i])
  {
    hide Regular;
    if a != [] && Regular(a[|a| - 1]) {
      StemSplits(a[..|a| - 1]);
      assert a == a[..|a| - 1] + [a[|a| - 1]];
    }
  }

  predicate WordLike(w: Bytes) {
    w != [] && forall i :: 0 <= i < |w| ==> Regular(w[i])
  }

  /** A word behind `p` is read as one token, or swallowed by the comment or name that `p` ends in. */
  lemma {:induction false} LastWord(p: Bytes, w: Bytes, v: Bytes, containers: seq<Kind>, found: bool) returns (swallowed: bool)
    requires (p == [] || !Regular(p[|p| - 1])) && WordLike(w) && WordLike(v)
    requires Scan(p + w, containers, found).Between? || Scan(p + w, containers, found) == Finished(Ok(true))
    ensures var s := Scan(p, containers, found);
            || s == Finished(Ok(true))
            || (s.Between? && !swallowed
                && Scan(p + w, containers, found) == Consume(Word(w), s.containers, s.found)
                && Scan(p + v, containers, found) == Consume(Word(v), s.containers, s.found))
            || (s.Between? && swallowed && Scan(p + w, containers, found) == s)
    decreases |p|
  {
    if p == [] {
      swallowed := false;
      assert p + w == w && p + v == v;
      OneWord(w, containers, found);
      OneWord(v, containers, found);
    } else {
      swallowed := ReadsInside(p, w);
      if !swallowed {
        var t := LexOne(p).value;
        var n := |Text(t)|;
        TokenStays(p, w);
        TokenStays(p, v);
        TokenIsPrefix(p);
        hide LexOne, Text, Regular;
        var next := Consume(t, containers, found);
        if next.Between? {
          assert p[n..] != [] ==> p[n..][|p[n..]| - 1] == p[|p| - 1];
          swallowed := LastWord(p[n..], w, v, next.containers, next.found);
        }
      } else {
        var rest, t := TailGoesOn(p, w);
        SwallowedWhole(p, w);
        TokenIsPrefix(p);
        hide LexOne, Text, Regular;
        assert p[|p|..] == [] && (p + w)[|p + w|..] == [];
      }
    }
  }

  lemma OneWord(w: Bytes, containers: seq<Kind>, found: bool)
    requires WordLike(w)
    ensures Scan(w, containers, found) == Consume(Word(w), containers, found)
  {
    assert w[..|w|] == w && w[|w|..] == [];
    LexComplete(w, Word(w));
  }

  /** The first token of `p + w` lies in `p`, or `p` is a comment or name that goes on to the end of `w`. */
  lemma ReadsInside(p: Bytes, w: Bytes) returns (swallowed: bool)
    requires p != [] && !Regular(p[|p| - 1]) && WordLike(w) && LexOne(p + w).Ok?
    ensures LexOne(p).Ok?
    ensures swallowed ==> |Text(LexOne(p).value)| == |p| && MayGoOn(LexOne(p).value)
    ensures !swallowed ==> |Text(LexOne(p).value)| < |p| || (!MayGoOn(LexOne(p).value) && !LexOne(p).value.Word?)
  {
    hide LexOne, LiteralBody, Regular;
    var c := p + w;
    LexSound(c);
    var t := LexOne(c).value;
    if |Text(t)| <= |p| {
      swallowed := StaysInside(c, p, w, t);
    } else {
      Overlaps(c, p, w, t);
      ShorterTail(c, t, p);
      swallowed := true;
    }
  }

  lemma StaysInside(c: Bytes, p: Bytes, w: Bytes, t: Token) returns (swallowed: bool)
    requires c == p + w && StartsWith(c, t) && p != [] && |Text(t)| <= |p| && !Regular(p[|p| - 1])
    ensures LexOne(p) == Ok(t)
    ensures swallowed ==> |Text(t)| == |p| && MayGoOn(t)
    ensures !swallowed ==> |Text(t)| < |p| || (!MayGoOn(t) && !t.Word?)
  {
    hide LexOne, LiteralBody, Regular;
    var n := |Text(t)|;
    assert p == Text(t) + p[n..] by { assert p[..n] == c[..n]; }
    assert n < |p| ==> p[n..][0] == c[n..][0];
    StartsFrom(p, t, p[n..]);
    assert t.Word? ==> Regular(c[n - 1]);
    swallowed := n == |p| && MayGoOn(t);
  }

  lemma Overlaps(c: Bytes, p: Bytes, w: Bytes, t: Token)
    requires c == p + w && StartsWith(c, t) && p != [] && |Text(t)| > |p| && !Regular(p[|p| - 1]) && WordLike(w)
    ensures MayGoOn(t)
  {
    var n, text := |Text(t)|, Text(t);
    assert text == c[..n];
    hide Text, Regular, LiteralBody, EndsBefore, LexOne;
    assert text[n - 1] == w[n - 1 - |p|] && text[|p| - 1] == p[|p| - 1];
    SpansOnlyCommentOrName(t, |p|);
  }

  lemma ShorterTail(c: Bytes, t: Token, p: Bytes)
    requires StartsWith(c, t) && MayGoOn(t) && 0 < |p| < |Text(t)| && p == c[..|p|]
    ensures LexOne(p).Ok? && |Text(LexOne(p).value)| == |p| && MayGoOn(LexOne(p).value)
  {
    var s := if t.Comment? then Comment(t.body[..|p| - 1]) else Name(t.body[..|p| - 1]);
    assert p == Text(t)[..|p|] == Text(s) + [];
    StartsFrom(p, s, []);
  }

  /** A token with an irregular byte that is not its last, and a regular last byte, is a comment or a name. */
  lemma SpansOnlyCommentOrName(t: Token, k: nat)
    requires Fits(t) && 0 < k < |Text(t)| && !Regular(Text(t)[k - 1]) && Regular(Text(t)[|Text(t)| - 1])
    ensures t.Comment? || (t.Name? && k == 1)
  {
    if t.Literal? {
      LiteralEnds(t.body);
    }
  }

  lemma LiteralEnds(body: Bytes)
    requires LiteralBody(body)
    ensures body != [] && body[|body| - 1] == 41
  {
  }

  lemma SwallowedWhole(p: Bytes, w: Bytes)
    requires p != [] && LexOne(p).Ok? && |Text(LexOne(p).value)| == |p| && MayGoOn(LexOne(p).value) && WordLike(w)
    ensures LexOne(p + w).Ok? && |Text(LexOne(p + w).value)| == |p + w| && MayGoOn(LexOne(p + w).value)
  {
    LexSound(p);
    hide LexOne, LiteralBody;
    var s := LexOne(p).value;
    assert p == Text(s);
    var t := LongerBody(s, w);
    assert p + w == Text(t) + [];
    hide Fits, Regular, Text;
    StartsFrom(p + w, t, []);
  }

  lemma LongerBody(s: Token, w: Bytes) returns (t: Token)
    requires MayGoOn(s) && Fits(s) && WordLike(w)
    ensures MayGoOn(t) && Fits(t) && Text(t) == Text(s) + w && EndsBefore(t, [])
  {
    t := if s.Comment? then Comment(s.body + w) else Name(s.body + w);
  }

  const XX: Bytes := [120, 120]

  lemma NoOperatorEndsInXX(w: Bytes)
    ensures w != [] ==> w + XX !in PDF_MARKING_OPERATORS
  {
    if w != [] {
      assert |w + XX| >= 3 && (w + XX)[|w + XX| - 1] == 120;
    }
  }

  /**
   The marks found in a prefix survive every readable extension exactly when they are found without
   the word that the prefix ends in.
   */
  lemma SafePrefixes(a: Bytes)
    requires Marks(a) == Ok(true)
    ensures (forall q :: Marks(a + q).Ok? ==> Marks(a + q) == Ok(true)) <==> Marks(Stem(a)) == Ok(true)
  {
    StemIs(a);
    hide *;
    var p, w := Stem(a), a[|Stem(a)|..];
    if Marks(p) == Ok(true) {
      forall q | Marks(a + q).Ok? ensures Marks(a + q) == Ok(true) {
        assert a + q == p + (w + q);
        MarksSurvive(p, w + q);
      }
    } else {
      assert w != [] by { assert w == [] ==> a == p; }
      ExtensionLosesMarks(a, p, w);
      assert Marks(a + XX) == Ok(false);
    }
  }

  lemma StemIs(a: Bytes)
    ensures |Stem(a)| <= |a| && a == Stem(a) + a[|Stem(a)|..]
    ensures a[|Stem(a)|..] != [] ==> WordLike(a[|Stem(a)|..])
    ensures Stem(a) == [] || !Regular(Stem(a)[|Stem(a)| - 1])
    ensures forall q :: TokenBoundary(Stem(a), q)
  {
    StemSplits(a);
    hide Regular, Stem;
  }

  lemma ExtensionLosesMarks(a: Bytes, p: Bytes, w: Bytes)
    requires a == p + w && WordLike(w) && (p == [] || !Regular(p[|p| - 1]))
    requires Marks(a) == Ok(true) && Marks(p) != Ok(true)
    ensures Marks(a + XX) == Ok(false)
  {
    assert a + XX == p + (w + XX);
    var swallowed := LastWord(p, w, w + XX, [], false);
    NoOperatorEndsInXX(w);
  }

  /* ------------------------------------------------------------ the evidence for one page */

  datatype Limits = Limits(decoded: nat, scan: nat)

  /** 64 MiB of decoded content, of which 8 MiB are scanned. */
  const AUDIT_LIMITS := Limits(64 * 1024 * 1024, 8 * 1024 * 1024)

  datatype EvidenceError = LimitReached | Unreadable(error: PdfError)

  datatype Evidence = Evidence(contentBytes: nat, markingOperators: nat)

  method PageMarkingEvidence(contents: Option<Bytes>, limits: Limits) returns (evidence: Result<Evidence, EvidenceError>)
    ensures contents.None? ==> evidence == Ok(Evidence(0, 0))
    ensures contents.Some? ==> evidence == EvidenceFor(contents.value, limits)
  {
    if contents.None? {
      return Ok(Evidence(0, 0));
    }
    var content := contents.value;
    if |content| > limits.decoded {
      return Err(LimitReached);
    }
    var window := content[..if |content| < limits.scan then |content| else limits.scan];
    var count := CountMarkingOperators(window);
    if count.Err? {
      return Err(if |content| > limits.scan then LimitReached else Unreadable(count.error));
    }
    if count.value < 1 && |content| > limits.scan {
      return Err(LimitReached);
    }
    return Ok(Evidence(|content|, count.value));
  }

  function Window(content: Bytes, limits: Limits): Bytes {
    content[..if |content| < limits.scan then |content| else limits.scan]
  }

  /** A content in the window is answered exactly, a longer one only when its window shows marks. */
  function EvidenceFor(content: Bytes, limits: Limits): Result<Evidence, EvidenceError> {
    var found := Marks(Window(content, limits));
    if |content| > limits.decoded then Err(LimitReached)
    else if |content| <= limits.scan then
      (if found.Err? then Err(Unreadable(found.error)) else Ok(Evidence(|content|, if found.value then 1 else 0)))
    else if found == Ok(true) then Ok(Evidence(|content|, 1)) else Err(LimitReached)
  }

  /**
   What the evidence says about the whole content: an answer of none is always exact; an answer of
   one is exact for a content in the window, and for a longer one when the window ends on a token
   boundary and the content is readable.
   */
  lemma EvidenceIsHonest(content: Bytes, limits: Limits)
    requires EvidenceFor(content, limits).Ok?
    ensures var e := EvidenceFor(content, limits).value;
            && e.contentBytes == |content| && e.markingOperators <= 1
            && (e.markingOperators == 0 ==> Marks(content) == Ok(false))
            && (e.markingOperators == 1 && |content| <= limits.scan ==> Marks(content) == Ok(true))
            && (e.markingOperators == 1 && |content| > limits.scan && Marks(content).Ok?
                && (TokenBoundary(content[..limits.scan], content[limits.scan..]) || Marks(Stem(content[..limits.scan])) == Ok(true))
                ==> Marks(content) == Ok(true))
  {
    if |content| <= limits.scan {
      assert content[..|content|] == content;
    } else {
      var p, q := content[..limits.scan], content[limits.scan..];
      assert content == p + q;
      if TokenBoundary(p, q) && Marks(content).Ok? && Marks(p) == Ok(true) {
        MarksSurvive(p, q);
      }
      if Marks(p) == Ok(true) {
        SafePrefixes(p);
      }
    }
  }

  /**
   One word on a line of its own behind any complete content: the answer is one if the content had
   marks or the word is a marking operator, and otherwise zero.
   */
  lemma OneMoreWord(p: Bytes, w: Bytes)
    requires Scan(p, [], false).Between? && Scan(p, [], false).containers == [] && WordLike(w)
    ensures Marks(p + ([10] + w)) == Ok(Marks(p) == Ok(true) || w in MARKS)
  {
    ScanNextLine(p, w, [], false);
    LineFeedSkipped(w, Scan(p, [], false).found);
    OneWord(w, [], Scan(p, [], false).found);
    OperatorsAre(w);
    hide Scan, LexOne;
  }

  lemma LineFeedSkipped(w: Bytes, found: bool)
    ensures Scan([10] + w, [], found) == Scan(w, [], found)
  {
    assert LexOne([10] + w) == Ok(Gap(10)) && ([10] + w)[1..] == w;
    hide LexOne;
  }

  /** The entry with a space in it is no word, so it never matches. */
  lemma OperatorsAre(w: Bytes)
    requires WordLike(w)
    ensures w in PDF_MARKING_OPERATORS <==> w in MARKS
  {
    assert Ascii("INLINE IMAGE")[6] == 32;
    assert w == [73, 78, 76, 73, 78, 69, 32, 73, 77, 65, 71, 69] ==> !Regular(w[6]);
    SpelledOut();
  }

  lemma SpelledOut()
    ensures MARKS == PDF_MARKING_OPERATORS - {[73, 78, 76, 73, 78, 69, 32, 73, 77, 65, 71, 69]}
  {
    assert Ascii("S") == [83] && Ascii("s") == [115] && Ascii("f") == [102] && Ascii("F") == [70] && Ascii("f*") == [102, 42];
    assert Ascii("B") == [66] && Ascii("B*") == [66, 42] && Ascii("b") == [98] && Ascii("b*") == [98, 42] && Ascii("sh") == [115, 104];
    assert Ascii("Tj") == [84, 106] && Ascii("TJ") == [84, 74] && Ascii("'") == [39] && Ascii("\"") == [34];
    assert Ascii("Do") == [68, 111] && Ascii("BI") == BI;
  }

  function Spaces(n: nat): (c: Bytes)
    ensures |c| == n
  {
    if n == 0 then [] else [32] + Spaces(n - 1)
  }

  lemma {:induction false} SpacesSkipped(n: nat, c: Bytes, containers: seq<Kind>, found: bool)
    ensures Scan(Spaces(n) + c, containers, found) == Scan(c, containers, found)
  {
    hide Scan;
    if n == 0 {
      assert Spaces(0) + c == c;
    } else {
      SpacesSkipped(n - 1, c, containers, found);
      OneSpace(Spaces(n - 1) + c, containers, found);
      assert Spaces(n) + c == [32] + (Spaces(n - 1) + c);
    }
  }

  lemma OneSpace(c: Bytes, containers: seq<Kind>, found: bool)
    ensures Scan([32] + c, containers, found) == Scan(c, containers, found)
  {
    assert LexOne([32] + c) == Ok(Gap(32)) && ([32] + c)[1..] == c;
    hide LexOne;
  }

  /** Spaces up to the last byte of the window, and then `SCN`. */
  function CutContent(scan: nat): Bytes
    requires scan > 0
  {
    Spaces(scan - 1) + [83, 67, 78]
  }

  /**
   A window of any size may cut a token: `SCN` sets a colour, but its first byte is the stroke
   operator. The limits of the audit leave room for it.
   */
  lemma CutTokenExample(limits: Limits)
    requires 0 < limits.scan && limits.scan + 2 <= limits.decoded
    ensures EvidenceFor(CutContent(limits.scan), limits) == Ok(Evidence(limits.scan + 2, 1))
    ensures Marks(CutContent(limits.scan)) == Ok(false)
    ensures 0 < AUDIT_LIMITS.scan && AUDIT_LIMITS.scan + 2 <= AUDIT_LIMITS.decoded
  {
    SpacedWord(limits.scan - 1, [83]);
    SpacedWord(limits.scan - 1, [83, 67, 78]);
    CutWindow(limits);
    hide Marks, Spaces, CutContent, Window;
  }

  lemma CutWindow(limits: Limits)
    requires 0 < limits.scan
    ensures CutContent(limits.scan) == Spaces(limits.scan - 1) + [83, 67, 78]
    ensures Window(CutContent(limits.scan), limits) == Spaces(limits.scan - 1) + [83]
    ensures |CutContent(limits.scan)| == limits.scan + 2
  {
  }

  lemma SpacedWord(n: nat, w: Bytes)
    requires WordLike(w) && w != BI
    ensures Marks(Spaces(n) + w) == Ok(w in PDF_MARKING_OPERATORS)
  {
    SpacesSkipped(n, w, [], false);
    OneWord(w, [], false);
    hide Scan;
  }
}
