/**
 What the lexer accepts, said without a machine: a content is a sequence of tokens, each as long as
 its kind allows, whose brackets form a forest. The two descriptions are proved to agree on every input.
 */
module PdfGrammar {
  import opened Octets
  import opened Wrappers
  import opened PdfLexer

  /* ------------------------------------------------------------ literal strings */

  /** The inside of a literal string: plain bytes, escaped bytes and balanced parentheses. */
  datatype Pieces = NoMore | Plain(b: Byte, rest: Pieces) | Escaped(b: Byte, rest: Pieces) | Nested(inner: Pieces, rest: Pieces)

  predicate PiecesFit(p: Pieces) {
    match p
    case NoMore => true
    case Plain(b, rest) => b !in {40, 41, 92} && PiecesFit(rest)
    case Escaped(_, rest) => PiecesFit(rest)
    case Nested(inner, rest) => PiecesFit(inner) && PiecesFit(rest)
  }

  function PiecesText(p: Pieces): Bytes {
    match p
    case NoMore => []
    case Plain(b, rest) => [b] + PiecesText(rest)
    case Escaped(b, rest) => [92, b] + PiecesText(rest)
    case Nested(inner, rest) => [40] + (PiecesText(inner) + ([41] + PiecesText(rest)))
  }

  /** Well-formed pieces are skipped exactly, at any depth. */
  lemma {:induction false} StringComplete(p: Pieces, more: Bytes, depth: nat)
    requires PiecesFit(p) && depth > 0
    ensures StringEnd(PiecesText(p) + more, depth) == Plus(|PiecesText(p)|, StringEnd(more, depth))
    decreases p
  {
    var c := PiecesText(p) + more;
    if c != [] {
      StringUnfold(c, depth);
    }
    assert !p.NoMore? ==> c != [];
    assert p.NoMore? ==> PiecesText(p) == [] && c == more;
    hide StringEnd, PiecesText;
    match p
    case NoMore =>
    case Plain(b, rest) =>
      SplitText(p, more);
      StringComplete(rest, more, depth);
    case Escaped(b, rest) =>
      SplitText(p, more);
      StringComplete(rest, more, depth);
    case Nested(inner, rest) =>
      StringComplete(inner, [41] + (PiecesText(rest) + more), depth + 1);
      StringComplete(rest, more, depth);
      NestedComplete(inner, rest, more, depth);
  }

  lemma NestedComplete(inner: Pieces, rest: Pieces, more: Bytes, depth: nat)
    requires depth > 0 && StringEnd(PiecesText(rest) + more, depth) == Plus(|PiecesText(rest)|, StringEnd(more, depth))
    requires var tail := [41] + (PiecesText(rest) + more);
             StringEnd(PiecesText(inner) + tail, depth + 1) == Plus(|PiecesText(inner)|, StringEnd(tail, depth + 1))
    ensures var t := PiecesText(Nested(inner, rest)); StringEnd(t + more, depth) == Plus(|t|, StringEnd(more, depth))
  {
    hide StringEnd, PiecesText;
    var tail := [41] + (PiecesText(rest) + more);
    SplitNested(inner, rest, more);
    StringUnfold(PiecesText(Nested(inner, rest)) + more, depth);
    StringUnfold(tail, depth + 1);
    assert tail[1..] == PiecesText(rest) + more;
  }

  lemma SplitText(p: Pieces, more: Bytes)
    requires !p.NoMore? && !p.Nested?
    ensures var c, n := PiecesText(p) + more, if p.Plain? then 1 else 2;
            && |c| >= n && c[0] == (if p.Plain? then p.b else 92)
            && c[n..] == PiecesText(p.rest) + more && |PiecesText(p)| == n + |PiecesText(p.rest)|
  {
    var head: Bytes := if p.Plain? then [p.b] else [92, p.b];
    assert PiecesText(p) + more == head + (PiecesText(p.rest) + more);
  }

  lemma SplitNested(inner: Pieces, rest: Pieces, more: Bytes)
    ensures var t := PiecesText(Nested(inner, rest));
            && t + more != [] && (t + more)[0] == 40
            && (t + more)[1..] == PiecesText(inner) + ([41] + (PiecesText(rest) + more))
            && |t| == 2 + |PiecesText(inner)| + |PiecesText(rest)|
  {
    var i, r := PiecesText(inner), PiecesText(rest);
    hide PiecesText;
    assert PiecesText(Nested(inner, rest)) == [40] + (i + ([41] + r)) by { NestedIs(inner, rest); }
    assert ([40] + (i + ([41] + r))) + more == [40] + (i + ([41] + (r + more)));
  }

  lemma NestedIs(inner: Pieces, rest: Pieces)
    ensures PiecesText(Nested(inner, rest)) == [40] + (PiecesText(inner) + ([41] + PiecesText(rest)))
  {
  }

  /** One byte, or one escaped byte, at a time. */
  lemma StringUnfold(c: Bytes, depth: nat)
    requires depth > 0 && c != []
    ensures c[0] == 92 && |c| >= 2 ==> StringEnd(c, depth) == Plus(2, StringEnd(c[2..], depth))
    ensures c[0] != 92 ==>
      StringEnd(c, depth) == Plus(1, StringEnd(c[1..], if c[0] == 40 then depth + 1 else if c[0] == 41 then depth - 1 else depth))
  {
  }

  lemma StringStep(c: Bytes, depth: nat)
    requires depth > 0 && StringEnd(c, depth).Some?
    ensures c != [] && (c[0] == 92 ==> |c| >= 2)
    ensures StringEnd(c, depth) ==
      if c[0] == 92 then Plus(2, StringEnd(c[2..], depth))
      else Plus(1, StringEnd(c[1..], if c[0] == 40 then depth + 1 else if c[0] == 41 then depth - 1 else depth))
  {
  }

  /** What is skipped first is well-formed pieces and a closing parenthesis. */
  lemma {:induction false} StringSound(c: Bytes, depth: nat) returns (p: Pieces, more: Bytes)
    requires depth > 0 && StringEnd(c, depth).Some?
    ensures PiecesFit(p) && c == PiecesText(p) + ([41] + more)
    ensures StringEnd(c, depth) == Plus(|PiecesText(p)| + 1, StringEnd(more, depth - 1))
    decreases |c|
  {
    StringStep(c, depth);
    EmptyText(c);
    hide StringEnd, PiecesText, PiecesFit;
    if c[0] == 92 {
      var rest;
      rest, more := StringSound(c[2..], depth);
      p := Escaped(c[1], rest);
      EscapedText(c, rest, more);
    } else if c[0] == 41 {
      p, more := NoMore, c[1..];
    } else if c[0] == 40 {
      var inner, mid := StringSound(c[1..], depth + 1);
      assert |mid| < |c|;
      var rest;
      rest, more := StringSound(mid, depth);
      p := Nested(inner, rest);
      NestedText(c, inner, mid, rest, more);
    } else {
      var rest;
      rest, more := StringSound(c[1..], depth);
      p := Plain(c[0], rest);
      PlainText(c, rest, more);
    }
  }

  lemma EmptyText(c: Bytes)
    ensures PiecesFit(NoMore) && PiecesText(NoMore) == [] && (c != [] && c[0] == 41 ==> c == [] + ([41] + c[1..]))
  {
  }

  lemma EscapedText(c: Bytes, rest: Pieces, more: Bytes)
    requires |c| >= 2 && c[0] == 92 && c[2..] == PiecesText(rest) + ([41] + more) && PiecesFit(rest)
    ensures PiecesFit(Escaped(c[1], rest)) && c == PiecesText(Escaped(c[1], rest)) + ([41] + more) && |PiecesText(Escaped(c[1], rest))| == 2 + |PiecesText(rest)|
  {
    assert c == [c[0], c[1]] + c[2..];
  }

  lemma PlainText(c: Bytes, rest: Pieces, more: Bytes)
    requires c != [] && c[0] !in {40, 41, 92} && c[1..] == PiecesText(rest) + ([41] + more) && PiecesFit(rest)
    ensures PiecesFit(Plain(c[0], rest)) && c == PiecesText(Plain(c[0], rest)) + ([41] + more) && |PiecesText(Plain(c[0], rest))| == 1 + |PiecesText(rest)|
  {
    assert c == [c[0]] + c[1..];
  }

  lemma NestedText(c: Bytes, inner: Pieces, mid: Bytes, rest: Pieces, more: Bytes)
    requires c != [] && c[0] == 40 && c[1..] == PiecesText(inner) + ([41] + mid) && mid == PiecesText(rest) + ([41] + more)
    requires PiecesFit(inner) && PiecesFit(rest)
    ensures PiecesFit(Nested(inner, rest)) && c == PiecesText(Nested(inner, rest)) + ([41] + more)
    ensures |PiecesText(Nested(inner, rest))| == 2 + |PiecesText(inner)| + |PiecesText(rest)|
  {
    assert c == [40] + c[1..];
    var i, r := PiecesText(inner), PiecesText(rest);
    assert c == [40] + (i + ([41] + r)) + ([41] + more);
  }

  /** The body of a literal string: pieces and the parenthesis that closes it. */
  ghost predicate LiteralBody(body: Bytes) {
    exists p :: PiecesFit(p) && body == PiecesText(p) + [41]
  }

  lemma LiteralSound(c: Bytes)
    requires StringEnd(c, 1).Some?
    ensures LiteralBody(c[..StringEnd(c, 1).value])
  {
    var p, more := StringSound(c, 1);
    assert c[..|PiecesText(p)| + 1] == PiecesText(p) + [41];
  }

  lemma LiteralComplete(body: Bytes, more: Bytes)
    requires LiteralBody(body)
    ensures StringEnd(body + more, 1) == Some(|body|)
  {
    hide StringEnd, PiecesText, PiecesFit;
    var p :| PiecesFit(p) && body == PiecesText(p) + [41];
    ClosedPieces(p, more);
  }

  lemma ClosedPieces(p: Pieces, more: Bytes)
    requires PiecesFit(p)
    ensures StringEnd((PiecesText(p) + [41]) + more, 1) == Some(|PiecesText(p)| + 1)
  {
    var tail := [41] + more;
    assert StringEnd(more, 0) == Some(0);
    hide StringEnd, PiecesText, PiecesFit;
    assert tail[1..] == more;
    StringUnfold(tail, 1);
    StringComplete(p, tail, 1);
    assert (PiecesText(p) + [41]) + more == PiecesText(p) + tail;
  }

  /* ------------------------------------------------------------ tokens */

  ghost predicate Fits(t: Token) {
    match t
    case Gap(b) => b in PDF_WHITESPACE
    case Comment(body) => forall i :: 0 <= i < |body| ==> body[i] != 10 && body[i] != 13
    case Literal(body) => LiteralBody(body)
    case Hexadecimal(body) => (forall i :: 0 <= i < |body| ==> body[i] != 62) && (body != [] ==> body[0] != 60)
    case Name(body) => forall i :: 0 <= i < |body| ==> Regular(body[i])
    case Word(body) => body != [] && forall i :: 0 <= i < |body| ==> Regular(body[i])
    case _ => true
  }

  /** The token cannot be continued by what follows it. */
  predicate EndsBefore(t: Token, following: Bytes) {
    match t
    case Comment(_) => following == [] || following[0] == 10 || following[0] == 13
    case Name(_) => following == [] || !Regular(following[0])
    case Word(_) => following == [] || !Regular(following[0])
    case _ => true
  }

  ghost predicate StartsWith(c: Bytes, t: Token) {
    && Fits(t) && |Text(t)| <= |c| && c[..|Text(t)|] == Text(t)
    && EndsBefore(t, c[|Text(t)|..])
  }

  lemma {:induction false} RunEquals(c: Bytes, n: nat)
    requires n <= |c|
    ensures (forall i :: 0 <= i < n ==> Regular(c[i])) && (n < |c| ==> !Regular(c[n])) ==> RegularRun(c) == n
    ensures (forall i :: 0 <= i < n ==> c[i] != 10 && c[i] != 13) && (n < |c| ==> c[n] == 10 || c[n] == 13) ==> CommentRun(c) == n
    ensures (forall i :: 0 <= i < n ==> c[i] != 62) && (n < |c| ==> c[n] == 62) ==> HexRun(c) == n
  {
    RegularRunIs(c);
    CommentRunIs(c);
    HexRunIs(c);
  }

  lemma LexSound(c: Bytes)
    requires c != [] && LexOne(c).Ok?
    ensures StartsWith(c, LexOne(c).value)
  {
    TokenIsPrefix(c);
    var t := LexOne(c).value;
    var following := c[|Text(t)|..];
    if t.Comment? {
      CommentRunIs(c[1..]);
    } else if t.Literal? {
      LiteralSound(c[1..]);
    } else if t.Hexadecimal? {
      HexRunIs(c[1..]);
    } else if t.Name? {
      RegularRunIs(c[1..]);
    } else if t.Word? {
      RegularRunIs(c);
    }
  }

  lemma LexWord(c: Bytes, body: Bytes, following: Bytes)
    requires Fits(Word(body)) && EndsBefore(Word(body), following) && c == body + following
    ensures c != [] && LexOne(c) == Ok(Word(body))
  {
    assert c[0] == body[0] && Regular(body[0]);
    RunEquals(c, |body|);
    hide RegularRun, CommentRun, HexRun, StringEnd;
  }

  /** The tokens that are told by their first byte. */
  lemma LexMarked(c: Bytes, t: Token, body: Bytes, following: Bytes)
    requires Fits(t) && EndsBefore(t, following) && c == Text(t) + following
    requires t == Comment(body) || t == Literal(body) || t == Name(body)
    ensures c != [] && LexOne(c) == Ok(t)
  {
    hide RegularRun, CommentRun, HexRun, StringEnd, LiteralBody, Regular, LexOne;
    var first: Byte := if t.Comment? then 37 else if t.Literal? then 40 else 47;
    var tail := c[1..];
    assert c[0] == first && tail == body + following;
    hide Text;
    if t.Literal? {
      LiteralComplete(body, following);
    } else {
      RunStops(t, body, following);
    }
    assert tail[..|body|] == body;
    LexFirst(c, t, body);
  }

  lemma RunStops(t: Token, body: Bytes, following: Bytes)
    requires Fits(t) && EndsBefore(t, following) && (t == Comment(body) || t == Name(body))
    ensures t.Comment? ==> CommentRun(body + following) == |body|
    ensures t.Name? ==> RegularRun(body + following) == |body|
  {
    hide RegularRun, CommentRun, HexRun, Regular;
    var tail := body + following;
    assert following != [] ==> tail[|body|] == following[0];
    assert forall i :: 0 <= i < |body| ==> tail[i] == body[i];
    RunEquals(tail, |body|);
  }

  lemma LexFirst(c: Bytes, t: Token, body: Bytes)
    requires c != [] && |body| < |c| && c[1..][..|body|] == body
    requires || (t == Comment(body) && c[0] == 37 && CommentRun(c[1..]) == |body|)
             || (t == Literal(body) && c[0] == 40 && StringEnd(c[1..], 1) == Some(|body|))
             || (t == Name(body) && c[0] == 47 && RegularRun(c[1..]) == |body|)
    ensures LexOne(c) == Ok(t)
  {
    hide RegularRun, CommentRun, HexRun, StringEnd, Regular;
  }

  lemma LexHexadecimal(c: Bytes, body: Bytes, following: Bytes)
    requires Fits(Hexadecimal(body)) && c == Text(Hexadecimal(body)) + following
    ensures c != [] && LexOne(c) == Ok(Hexadecimal(body))
  {
    assert c[1..] == body + ([62] + following);
    assert c[1] == if body == [] then 62 else body[0];
    RunEquals(c[1..], |body|);
    hide RegularRun, CommentRun, HexRun, StringEnd;
  }

  lemma LexComplete(c: Bytes, t: Token)
    requires StartsWith(c, t)
    ensures c != [] && LexOne(c) == Ok(t)
  {
    var following := c[|Text(t)|..];
    assert c == Text(t) + following;
    match t
    case Comment(body) => LexMarked(c, t, body, following);
    case Literal(body) => LexMarked(c, t, body, following);
    case Name(body) => LexMarked(c, t, body, following);
    case Hexadecimal(body) => LexHexadecimal(c, body, following);
    case Word(body) => LexWord(c, body, following);
    case Open(kind) => assert c[0] == Text(t)[0] && (|Text(t)| == 2 ==> c[1] == Text(t)[1]);
    case Close(kind) => assert c[0] == Text(t)[0] && (|Text(t)| == 2 ==> c[1] == Text(t)[1]);
    case Gap(b) => assert c[0] == b;
  }

  /** The lexer reads a token exactly when the content starts with it. */
  lemma TokensAreUnique(c: Bytes, t: Token)
    ensures StartsWith(c, t) <==> c != [] && LexOne(c) == Ok(t)
  {
    if StartsWith(c, t) {
      LexComplete(c, t);
    }
    if c != [] && LexOne(c) == Ok(t) {
      LexSound(c);
    }
  }

  /** `c` is the tokens `ts` and then `rest`. */
  ghost predicate Lexed(c: Bytes, ts: seq<Token>, rest: Bytes) {
    if ts == [] then c == rest else StartsWith(c, ts[0]) && Lexed(c[|Text(ts[0])|..], ts[1..], rest)
  }

  lemma PrefixFits(c: Bytes, t: Token)
    requires StartsWith(c, t)
    ensures |Text(t)| <= |c|
  {
  }

  lemma {:induction false} LexedTwice(c: Bytes, a: seq<Token>, mid: Bytes, b: seq<Token>, rest: Bytes)
    requires Lexed(c, a, mid) && Lexed(mid, b, rest)
    ensures Lexed(c, a + b, rest)
  {
    hide StartsWith, Text;
    if a == [] {
      assert a + b == b;
    } else {
      assert |Text(a[0])| <= |c| by { PrefixFits(c, a[0]); }
      LexedTwice(c[|Text(a[0])|..], a[1..], mid, b, rest);
      assert (a + b)[1..] == a[1..] + b;
    }
  }

  lemma {:induction false} LexedSplit(c: Bytes, a: seq<Token>, b: seq<Token>, rest: Bytes) returns (mid: Bytes)
    requires Lexed(c, a + b, rest)
    ensures Lexed(c, a, mid) && Lexed(mid, b, rest)
  {
    if a == [] {
      assert a + b == b;
      mid := c;
    } else {
      assert (a + b)[1..] == a[1..] + b;
      mid := LexedSplit(c[|Text(a[0])|..], a[1..], b, rest);
    }
  }

  /* ------------------------------------------------------------ containers */

  /** Balanced arrays and dictionaries around tokens that are no brackets. */
  datatype Forest = Empty | Leaf(t: Token, rest: Forest) | Container(kind: Kind, inner: Forest, rest: Forest)

  predicate LeavesFit(f: Forest) {
    match f
    case Empty => true
    case Leaf(t, rest) => !t.Open? && !t.Close? && LeavesFit(rest)
    case Container(_, inner, rest) => LeavesFit(inner) && LeavesFit(rest)
  }

  function Flatten(f: Forest): seq<Token> {
    match f
    case Empty => []
    case Leaf(t, rest) => [t] + Flatten(rest)
    case Container(kind, inner, rest) => [Open(kind)] + (Flatten(inner) + ([Close(kind)] + Flatten(rest)))
  }

  /** Some word outside all containers is a marking operator. */
  predicate TopMarks(f: Forest) {
    match f
    case Empty => false
    case Leaf(t, rest) => (t.Word? && t.body in PDF_MARKING_OPERATORS) || TopMarks(rest)
    case Container(_, _, rest) => TopMarks(rest)
  }

  /** Some word outside all containers begins an inline image. */
  predicate TopImage(f: Forest) {
    match f
    case Empty => false
    case Leaf(t, rest) => t == Word(BI) || TopImage(rest)
    case Container(_, _, rest) => TopImage(rest)
  }

  ghost predicate Whole(c: Bytes, f: Forest) {
    LeavesFit(f) && !TopImage(f) && Lexed(c, Flatten(f), [])
  }

  ghost predicate UpToImage(c: Bytes, f: Forest, rest: Bytes) {
    LeavesFit(f) && !TopImage(f) && Lexed(c, Flatten(f) + [Word(BI)], rest)
  }

  /** The answer that the grammar prescribes. An inline image at the top cuts the content short. */
  ghost predicate Prescribed(c: Bytes, marks: bool) {
    || (exists f :: Whole(c, f) && marks == TopMarks(f))
    || (marks && exists f, rest :: UpToImage(c, f, rest))
  }

  /* ------------------------------------------------------------ the grammar is complete for the scan */

  lemma {:induction false} ScanForest(c: Bytes, f: Forest, rest: Bytes, containers: seq<Kind>, found: bool)
    requires LeavesFit(f) && (containers == [] ==> !TopImage(f)) && Lexed(c, Flatten(f), rest)
    ensures Scan(c, containers, found) == Scan(rest, containers, found || (containers == [] && TopMarks(f)))
    decreases f
  {
    match f
    case Empty =>
    case Leaf(t, more) =>
      var c' := LexedSplit(c, [t], Flatten(more), rest);
      ScanToken(c, t, c', containers, found);
      ScanForest(c', more, rest, containers, Consume(t, containers, found).found);
    case Container(kind, inner, more) =>
      var tail := Flatten(inner) + ([Close(kind)] + Flatten(more));
      var c1 := LexedSplit(c, [Open(kind)], tail, rest);
      var c2 := LexedSplit(c1, Flatten(inner), [Close(kind)] + Flatten(more), rest);
      var c3 := LexedSplit(c2, [Close(kind)], Flatten(more), rest);
      ScanToken(c, Open(kind), c1, containers, found);
      ScanForest(c1, inner, c2, containers + [kind], found);
      assert (containers + [kind])[..|containers|] == containers;
      ScanToken(c2, Close(kind), c3, containers + [kind], found);
      ScanForest(c3, more, rest, containers, found);
  }

  lemma ScanToken(c: Bytes, t: Token, rest: Bytes, containers: seq<Kind>, found: bool)
    requires Lexed(c, [t], rest)
    ensures var next := Consume(t, containers, found);
            Scan(c, containers, found) == if next.Finished? then next else Scan(rest, next.containers, next.found)
  {
    assert StartsWith(c, t) && Lexed(c[|Text(t)|..], [], rest);
    LexComplete(c, t);
    hide StartsWith, Text, LexOne, Consume;
  }

  lemma GrammarIsComplete(c: Bytes, marks: bool)
    requires Prescribed(c, marks)
    ensures Marks(c) == Ok(marks)
  {
    if exists f :: Whole(c, f) && marks == TopMarks(f) {
      var f :| Whole(c, f) && marks == TopMarks(f);
      ScanForest(c, f, [], [], false);
    } else {
      var f, rest :| UpToImage(c, f, rest);
      var mid := LexedSplit(c, Flatten(f), [Word(BI)], rest);
      ScanForest(c, f, mid, [], false);
      ScanToken(mid, Word(BI), rest, [], TopMarks(f));
    }
  }

  /* ------------------------------------------------------------ the scan is sound for the grammar */

  /** An accepted scan reads a token and goes on behind it. */
  lemma FirstToken(c: Bytes, containers: seq<Kind>, found: bool) returns (t: Token, c1: Bytes)
    requires c != [] && Conclude(Scan(c, containers, found)).Ok?
    ensures Lexed(c, [t], c1) && |c1| < |c|
    ensures var next := Consume(t, containers, found);
            Scan(c, containers, found) == if next.Finished? then next else Scan(c1, next.containers, next.found)
  {
    t := LexOne(c).value;
    LexSound(c);
    TokenIsPrefix(c);
    c1 := c[|Text(t)|..];
    assert [t][1..] == [];
    hide StartsWith, Text, LexOne, Consume;
  }

  lemma JoinLeaf(c: Bytes, t: Token, c1: Bytes, more: Forest, end: seq<Token>, rest: Bytes)
    requires Lexed(c, [t], c1) && Lexed(c1, Flatten(more) + end, rest)
    ensures Lexed(c, Flatten(Leaf(t, more)) + end, rest)
  {
    hide Lexed;
    LexedTwice(c, [t], c1, Flatten(more) + end, rest);
    assert Flatten(Leaf(t, more)) + end == [t] + (Flatten(more) + end);
  }

  lemma JoinContainer(c: Bytes, kind: Kind, c1: Bytes, inner: Forest, c2: Bytes, more: Forest, end: seq<Token>, rest: Bytes)
    requires Lexed(c, [Open(kind)], c1) && Lexed(c1, Flatten(inner) + [Close(kind)], c2) && Lexed(c2, Flatten(more) + end, rest)
    ensures Lexed(c, Flatten(Container(kind, inner, more)) + end, rest)
  {
    hide Lexed;
    LexedTwice(c1, Flatten(inner) + [Close(kind)], c2, Flatten(more) + end, rest);
    LexedTwice(c, [Open(kind)], c1, Flatten(inner) + [Close(kind)] + (Flatten(more) + end), rest);
    assert Flatten(Container(kind, inner, more)) + end
        == [Open(kind)] + (Flatten(inner) + [Close(kind)] + (Flatten(more) + end));
  }

  /** Inside a container an accepted scan reads a forest and then the bracket that closes it. */
  lemma {:induction false} ScanClosesContainer(c: Bytes, containers: seq<Kind>, found: bool) returns (f: Forest, rest: Bytes)
    requires containers != [] && Conclude(Scan(c, containers, found)).Ok?
    ensures LeavesFit(f) && |rest| < |c|
    ensures Lexed(c, Flatten(f) + [Close(containers[|containers| - 1])], rest)
    ensures Scan(c, containers, found) == Scan(rest, containers[..|containers| - 1], found)
    decreases |c|
  {
    assert c != [];
    hide Scan, Lexed;
    var t, c1 := FirstToken(c, containers, found);
    var end := [Close(containers[|containers| - 1])];
    if t.Close? {
      f, rest := Empty, c1;
      assert Flatten(f) + end == end;
    } else if t.Open? {
      var deeper := containers + [t.kind];
      assert deeper[..|deeper| - 1] == containers && deeper[|deeper| - 1] == t.kind;
      var inner, c2 := ScanClosesContainer(c1, deeper, found);
      var more;
      more, rest := ScanClosesContainer(c2, containers, found);
      f := Container(t.kind, inner, more);
      JoinContainer(c, t.kind, c1, inner, c2, more, end, rest);
    } else {
      var more;
      more, rest := ScanClosesContainer(c1, containers, found);
      f := Leaf(t, more);
      JoinLeaf(c, t, c1, more, end, rest);
    }
  }

  /** What a scan outside containers has read: a forest, up to an inline image or to the end. */
  ghost predicate Reads(c: Bytes, f: Forest, image: bool, rest: Bytes) {
    LeavesFit(f) && !TopImage(f) && Lexed(c, Flatten(f) + (if image then [Word(BI)] else []), rest) && (!image ==> rest == [])
  }

  /** Outside containers it reads a forest up to the end or up to an inline image. */
  lemma {:induction false} ScanAtTop(c: Bytes, found: bool) returns (f: Forest, image: bool, rest: Bytes)
    requires Conclude(Scan(c, [], found)).Ok?
    ensures Reads(c, f, image, rest)
    ensures Scan(c, [], found) == if image then Finished(Ok(true)) else Between([], found || TopMarks(f))
    decreases |c|
  {
    if c == [] {
      f, image, rest := Empty, false, [];
      assert Flatten(Empty) + [] == [];
    } else {
      hide Scan, Lexed, Reads, TopMarks, TopImage, LeavesFit, Flatten;
      var t, c1 := FirstToken(c, [], found);
      if t == Word(BI) {
        f, image, rest := Empty, true, c1;
        ImageRead(c, c1);
      } else if t.Open? {
        assert [] + [t.kind] == [t.kind] && [t.kind][..0] == [];
        var inner, c2 := ScanClosesContainer(c1, [t.kind], found);
        var more;
        more, image, rest := ScanAtTop(c2, found);
        f := Container(t.kind, inner, more);
        ContainerRead(c, t.kind, c1, inner, c2, more, image, rest);
      } else {
        var more;
        more, image, rest := ScanAtTop(c1, Consume(t, [], found).found);
        f := Leaf(t, more);
        LeafRead(c, t, c1, more, image, rest);
      }
    }
  }

  lemma ImageRead(c: Bytes, rest: Bytes)
    requires Lexed(c, [Word(BI)], rest)
    ensures Reads(c, Empty, true, rest)
  {
    assert Flatten(Empty) + [Word(BI)] == [Word(BI)];
  }

  lemma ContainerRead(c: Bytes, kind: Kind, c1: Bytes, inner: Forest, c2: Bytes, more: Forest, image: bool, rest: Bytes)
    requires Lexed(c, [Open(kind)], c1) && LeavesFit(inner) && Lexed(c1, Flatten(inner) + [Close(kind)], c2) && Reads(c2, more, image, rest)
    ensures Reads(c, Container(kind, inner, more), image, rest)
    ensures TopMarks(Container(kind, inner, more)) == TopMarks(more)
  {
    hide Lexed, Flatten;
    JoinContainer(c, kind, c1, inner, c2, more, if image then [Word(BI)] else [], rest);
  }

  lemma LeafRead(c: Bytes, t: Token, c1: Bytes, more: Forest, image: bool, rest: Bytes)
    requires Lexed(c, [t], c1) && !t.Open? && !t.Close? && t != Word(BI) && Reads(c1, more, image, rest)
    ensures Reads(c, Leaf(t, more), image, rest)
    ensures TopMarks(Leaf(t, more)) == ((t.Word? && t.body in PDF_MARKING_OPERATORS) || TopMarks(more))
  {
    hide Lexed, Flatten;
    JoinLeaf(c, t, c1, more, if image then [Word(BI)] else [], rest);
  }

  /** The lexer answers exactly what the grammar prescribes, and raises exactly when it prescribes nothing. */
  lemma LexerIsGrammar(c: Bytes, marks: bool)
    ensures Marks(c) == Ok(marks) <==> Prescribed(c, marks)
  {
    if Prescribed(c, marks) {
      GrammarIsComplete(c, marks);
    }
    if Marks(c) == Ok(marks) {
      var f, image, rest := ScanAtTop(c, false);
      assert Flatten(f) + [] == Flatten(f);
      assert if image then UpToImage(c, f, rest) else Whole(c, f);
    }
  }
}
