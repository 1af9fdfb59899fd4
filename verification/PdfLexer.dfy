/**
 The byte lexer of src/cadplot_mcp/audit.py that looks for marking operators in a PDF content stream:
 as one token function with a container stack, and as the loops that the source runs.
 White space, delimiters, comments and strings are those of ISO 32000-1, sections 7.2.2 to 7.3.4.
 */
module PdfLexer {
  import opened Octets
  import opened Wrappers

  const PDF_WHITESPACE: set<Byte> := {0, 9, 10, 12, 13, 32}
  const PDF_DELIMITERS: set<Byte> := {37, 40, 41, 47, 60, 62, 91, 93, 123, 125}

  const BI: Bytes := [66, 73]

  /** S s f F f* B B* b b* sh Tj TJ ' " Do BI, and the two words INLINE IMAGE. */
  const PDF_MARKING_OPERATORS: set<Bytes> := {
    [83], [115], [102], [70], [102, 42], [66], [66, 42], [98], [98, 42], [115, 104], [84, 106], [84, 74], [39], [34],
    [68, 111], BI, [73, 78, 76, 73, 78, 69, 32, 73, 77, 65, 71, 69]}

  datatype PdfError = UnterminatedHexadecimal | UnterminatedLiteral | UnbalancedArray | UnbalancedDictionary
    | UnexpectedDelimiter | UnterminatedContainer

  predicate Regular(b: Byte) {
    b !in PDF_WHITESPACE && b !in PDF_DELIMITERS
  }

  /* ------------------------------------------------------------ runs of bytes */

  /** How many bytes precede the first one that `stop` accepts. */
  function RegularRun(c: Bytes): (n: nat)
    ensures n <= |c|
  {
    if c == [] || !Regular(c[0]) then 0 else 1 + RegularRun(c[1..])
  }

  function CommentRun(c: Bytes): (n: nat)
    ensures n <= |c|
  {
    if c == [] || c[0] == 10 || c[0] == 13 then 0 else 1 + CommentRun(c[1..])
  }

  function HexRun(c: Bytes): (n: nat)
    ensures n <= |c|
  {
    if c == [] || c[0] == 62 then 0 else 1 + HexRun(c[1..])
  }

  /** How many bytes it takes to close `depth` open parentheses. */
  function StringEnd(c: Bytes, depth: nat): (n: Option<nat>)
    ensures n.Some? ==> n.value <= |c|
  {
    if depth == 0 then Some(0)
    else if c == [] then None
    else if c[0] == 92 then (if |c| == 1 then None else Plus(2, StringEnd(c[2..], depth)))
    else if c[0] == 40 then Plus(1, StringEnd(c[1..], depth + 1))
    else if c[0] == 41 then Plus(1, StringEnd(c[1..], depth - 1))
    else Plus(1, StringEnd(c[1..], depth))
  }

  function Plus(k: nat, n: Option<nat>): Option<nat> {
    if n.Some? then Some(k + n.value) else None
  }

  /* ------------------------------------------------------------ tokens */

  datatype Kind = ArrayKind | DictionaryKind

  datatype Token =
    | Gap(b: Byte)
    | Comment(body: Bytes)
    | Literal(body: Bytes)
    | Hexadecimal(body: Bytes)
    | Name(body: Bytes)
    | Open(kind: Kind)
    | Close(kind: Kind)
    | Word(body: Bytes)

  /** The next token of a nonempty content; the body of a literal string includes its last parenthesis. */
  function LexOne(c: Bytes): Result<Token, PdfError>
    requires c != []
  {
    if c[0] in PDF_WHITESPACE then Ok(Gap(c[0]))
    else if c[0] == 37 then Ok(Comment(c[1..][..CommentRun(c[1..])]))
    else if c[0] == 40 then
      var end := StringEnd(c[1..], 1);
      if end.None? then Err(UnterminatedLiteral) else Ok(Literal(c[1..][..end.value]))
    else if c[0] == 60 && |c| > 1 && c[1] == 60 then Ok(Open(DictionaryKind))
    else if c[0] == 60 then
      var run := HexRun(c[1..]);
      if run == |c| - 1 then Err(UnterminatedHexadecimal) else Ok(Hexadecimal(c[1..][..run]))
    else if c[0] == 47 then Ok(Name(c[1..][..RegularRun(c[1..])]))
    else if c[0] == 91 then Ok(Open(ArrayKind))
    else if c[0] == 93 then Ok(Close(ArrayKind))
    else if c[0] == 62 && |c| > 1 && c[1] == 62 then Ok(Close(DictionaryKind))
    else if c[0] in PDF_DELIMITERS then Err(UnexpectedDelimiter)
    else Ok(Word(c[..RegularRun(c)]))
  }

  /** The bytes of a token. */
  function Text(t: Token): Bytes {
    match t
    case Gap(b) => [b]
    case Comment(body) => [37] + body
    case Literal(body) => [40] + body
    case Hexadecimal(body) => [60] + body + [62]
    case Name(body) => [47] + body
    case Open(ArrayKind) => [91]
    case Open(DictionaryKind) => [60, 60]
    case Close(ArrayKind) => [93]
    case Close(DictionaryKind) => [62, 62]
    case Word(body) => body
  }

  lemma {:induction false} RegularRunIs(c: Bytes)
    ensures forall i :: 0 <= i < RegularRun(c) ==> Regular(c[i])
    ensures RegularRun(c) < |c| ==> !Regular(c[RegularRun(c)])
  {
    if c != [] && Regular(c[0]) {
      RegularRunIs(c[1..]);
    }
  }

  lemma {:induction false} CommentRunIs(c: Bytes)
    ensures forall i :: 0 <= i < CommentRun(c) ==> c[i] != 10 && c[i] != 13
    ensures CommentRun(c) < |c| ==> c[CommentRun(c)] == 10 || c[CommentRun(c)] == 13
  {
    if c != [] && c[0] != 10 && c[0] != 13 {
      CommentRunIs(c[1..]);
    }
  }

  lemma {:induction false} HexRunIs(c: Bytes)
    ensures forall i :: 0 <= i < HexRun(c) ==> c[i] != 62
    ensures HexRun(c) < |c| ==> c[HexRun(c)] == 62
  {
    if c != [] && c[0] != 62 {
      HexRunIs(c[1..]);
    }
  }

  /** A token is a nonempty prefix of what is left. */
  lemma TokenIsPrefix(c: Bytes)
    requires c != []
    ensures LexOne(c).Ok? ==> 0 < |Text(LexOne(c).value)| <= |c| && c[..|Text(LexOne(c).value)|] == Text(LexOne(c).value)
  {
    HexRunIs(c[1..]);
    if LexOne(c).Ok? {
      var t := LexOne(c).value;
      assert c == [c[0]] + c[1..];
      if t.Open? || t.Close? {
        assert |Text(t)| == 2 ==> c[..2] == [c[0], c[1]];
      }
    }
  }

  /* ------------------------------------------------------------ scanning */

  /** Where a scan is after some input: between tokens, or finished early. */
  datatype Scanned = Between(containers: seq<Kind>, found: bool) | Finished(answer: Result<bool, PdfError>)

  /** The effect of one token. */
  function Consume(t: Token, containers: seq<Kind>, found: bool): Scanned {
    match t
    case Open(kind) => Between(containers + [kind], found)
    case Close(kind) =>
      if containers == [] || containers[|containers| - 1] != kind
      then Finished(Err(if kind.ArrayKind? then UnbalancedArray else UnbalancedDictionary))
      else Between(containers[..|containers| - 1], found)
    case Word(body) =>
      if containers == [] && body in PDF_MARKING_OPERATORS then (if body == BI then Finished(Ok(true)) else Between(containers, true))
      else Between(containers, found)
    case _ => Between(containers, found)
  }

  function Scan(c: Bytes, containers: seq<Kind>, found: bool): Scanned
    decreases |c|
  {
    if c == [] then Between(containers, found)
    else
      var t := LexOne(c);
      if t.Err? then Finished(Err(t.error))
      else
        var next := Consume(t.value, containers, found);
        if next.Finished? then next
        else
          TokenIsPrefix(c);
          Scan(c[|Text(t.value)|..], next.containers, next.found)
  }

  /** The end of the content: every container must be closed. */
  function Conclude(s: Scanned): Result<bool, PdfError> {
    if s.Finished? then s.answer else if s.containers != [] then Err(UnterminatedContainer) else Ok(s.found)
  }

  /** `_count_marking_operators`: whether a marking operator was found. */
  function Marks(content: Bytes): Result<bool, PdfError> {
    Conclude(Scan(content, [], false))
  }

  /* ------------------------------------------------------------ the loops of the source */

  lemma Rest(content: Bytes, i: nat)
    requires i < |content|
    ensures content[i..][0] == content[i] && content[i..][1..] == content[i + 1..]
    ensures i + 1 < |content| ==> content[i..][1] == content[i + 1]
  {
  }

  method SkipPdfLiteralString(content: Bytes, start: nat) returns (end: Result<nat, PdfError>)
    requires start <= |content|
    ensures end == (match StringEnd(content[start..], 1) case None => Err(UnterminatedLiteral) case Some(n) => Ok(start + n))
  {
    var depth: nat, index := 1, start;
    hide StringEnd;
    while index < |content| && depth > 0
      invariant start <= index && StringTo(content, start, index, depth)
      decreases |content| - index
    {
      StringTurn(content, start, index, depth);
      var current := content[index];
      if current == 92 {
        index := index + 2;
        continue;
      }
      if current == 40 {
        depth := depth + 1;
      } else if current == 41 {
        depth := depth - 1;
      }
      index := index + 1;
    }
    StringStops(content, start, index, depth);
    if depth > 0 {
      return Err(UnterminatedLiteral);
    }
    return Ok(index);
  }

  /** What is left to skip at `index`; an escape at the very end leads past the content. */
  ghost predicate StringTo(content: Bytes, start: nat, index: nat, depth: nat)
    requires start <= |content|
  {
    && start <= index
    && (index <= |content| ==> StringEnd(content[start..], 1) == Plus(index - start, StringEnd(content[index..], depth)))
    && (index > |content| ==> depth > 0 && StringEnd(content[start..], 1).None?)
  }

  lemma StringTurn(content: Bytes, start: nat, index: nat, depth: nat)
    requires start <= |content| && index < |content| && depth > 0 && StringTo(content, start, index, depth)
    ensures content[index] == 92 ==> StringTo(content, start, index + 2, depth)
    ensures content[index] != 92 ==>
      StringTo(content, start, index + 1, if content[index] == 40 then depth + 1 else if content[index] == 41 then depth - 1 else depth)
  {
    Rest(content, index);
    if index + 1 < |content| {
      assert content[index..][2..] == content[index + 2..];
    }
  }

  lemma StringStops(content: Bytes, start: nat, index: nat, depth: nat)
    requires start <= |content| && StringTo(content, start, index, depth) && (index >= |content| || depth == 0)
    ensures depth > 0 ==> StringEnd(content[start..], 1).None?
    ensures depth == 0 ==> StringEnd(content[start..], 1) == Some(index - start)
  {
  }

  method SkipRegular(content: Bytes, start: nat) returns (index: nat)
    requires start <= |content|
    ensures index == start + RegularRun(content[start..])
  {
    index := start;
    while index < |content| && content[index] !in PDF_WHITESPACE && content[index] !in PDF_DELIMITERS
      invariant start <= index <= |content|
      invariant RegularRun(content[start..]) == index - start + RegularRun(content[index..])
    {
      Rest(content, index);
      index := index + 1;
    }
  }

  method SkipComment(content: Bytes, start: nat) returns (index: nat)
    requires start <= |content|
    ensures index == start + CommentRun(content[start..])
  {
    index := start;
    while index < |content| && content[index] !in {10, 13}
      invariant start <= index <= |content|
      invariant CommentRun(content[start..]) == index - start + CommentRun(content[index..])
    {
      Rest(content, index);
      index := index + 1;
    }
  }

  method SkipHexadecimal(content: Bytes, start: nat) returns (index: nat)
    requires start <= |content|
    ensures index == start + HexRun(content[start..])
  {
    index := start;
    while index < |content| && content[index] != 62
      invariant start <= index <= |content|
      invariant HexRun(content[start..]) == index - start + HexRun(content[index..])
    {
      Rest(content, index);
      index := index + 1;
    }
  }

  /** One turn of the main loop reads the token at `index`. */
  method ReadToken(content: Bytes, start: nat) returns (token: Result<Token, PdfError>, index: nat)
    requires start < |content|
    ensures token == LexOne(content[start..])
    ensures token.Ok? ==> index == start + |Text(token.value)| <= |content|
  {
    Rest(content, start);
    var current := content[start];
    index := start;
    hide RegularRun, CommentRun, HexRun, StringEnd, Regular;
    ghost var c := content[start..];
    ghost var after := content[start + 1..];
    assert c[0] == current && c[1..] == after && |c| == |content| - start;
    assert current in PDF_DELIMITERS <==> current in {37, 40, 41, 47, 60, 62, 91, 93, 123, 125};
    if current in PDF_WHITESPACE {
      return Ok(Gap(current)), start + 1;
    }
    if current == 37 {
      index := SkipComment(content, start + 1);
      return Ok(Comment(content[start + 1..][..index - start - 1])), index;
    }
    if current == 40 {
      var end := SkipPdfLiteralString(content, start + 1);
      if end.Err? {
        return Err(end.error), start;
      }
      return Ok(Literal(content[start + 1..][..end.value - start - 1])), end.value;
    }
    if current == 60 && start + 1 < |content| && content[start + 1] == 60 {
      return Ok(Open(DictionaryKind)), start + 2;
    }
    if current == 60 {
      index := SkipHexadecimal(content, start + 1);
      if index >= |content| {
        return Err(UnterminatedHexadecimal), start;
      }
      return Ok(Hexadecimal(content[start + 1..][..index - start - 1])), index + 1;
    }
    if current == 47 {
      index := SkipRegular(content, start + 1);
      return Ok(Name(content[start + 1..][..index - start - 1])), index;
    }
    if current == 91 {
      return Ok(Open(ArrayKind)), start + 1;
    }
    if current == 93 {
      return Ok(Close(ArrayKind)), start + 1;
    }
    if current == 62 && start + 1 < |content| && content[start + 1] == 62 {
      return Ok(Close(DictionaryKind)), start + 2;
    }
    if current in PDF_DELIMITERS {
      return Err(UnexpectedDelimiter), start;
    }
    index := SkipRegular(content, start);
    return Ok(Word(content[start..][..index - start])), index;
  }

  method CountMarkingOperators(content: Bytes) returns (count: Result<nat, PdfError>)
    ensures count == (match Marks(content) case Err(e) => Err(e) case Ok(found) => Ok(if found then 1 else 0))
  {
    var index, containers: seq<Kind>, markingFound := 0, [], false;
    assert content[0..] == content;
    while index < |content|
      invariant 0 <= index <= |content|
      invariant Scan(content, [], false) == Scan(content[index..], containers, markingFound)
      decreases |content| - index
    {
      TokenIsPrefix(content[index..]);
      var token, next := ReadToken(content, index);
      if token.Err? {
        return Err(token.error);
      }
      assert content[index..][|Text(token.value)|..] == content[next..];
      index := next;
      match token.value {
        case Open(kind) => containers := containers + [kind];
        case Close(kind) =>
          if containers == [] || containers[|containers| - 1] != kind {
            return Err(if kind.ArrayKind? then UnbalancedArray else UnbalancedDictionary);
          }
          containers := containers[..|containers| - 1];
        case Word(operator) =>
          if containers == [] && operator in PDF_MARKING_OPERATORS {
            markingFound := true;
            if operator == BI {
              return Ok(1);
            }
          }
        case _ =>
      }
    }
    if containers != [] {
      return Err(UnterminatedContainer);
    }
    return Ok(if markingFound then 1 else 0);
  }
}
