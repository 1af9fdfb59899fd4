/**
 Review inventory and translation plan of src/cadplot_mcp/translation.py, and the expected
 text that src/cadplot_mcp/translation_service.py compares the patched drawing with.
 */
module TranslationPlan {
  import opened Wrappers
  import opened Characters
  import opened MtextLexer
  import opened MtextRelex
  import opened SpanIds

  const MAX_TEXT_CHARS := 32_000
  const MAX_TOTAL_CHARS := 1_000_000

  /* ------------------------------------------------------------ data */

  datatype TextRecord = TextRecord(
    id: string, handle: string, kind: string, block: string, layer: string, property: string,
    row: int, column: int, raw: Text, writable: bool, reason: Option<string>)

  datatype Fingerprint = Fingerprint(sha256: string, sizeBytes: nat, modifiedNs: nat)

  datatype Blocker =
    | Inspected(code: string)
    | UnsupportedFormat(recordId: string)
    | Unreviewed(spanId: string)
    | UncertainSpan(spanId: string)
    | Untranslated(spanId: string)
    | NotWritable(recordId: string, reason: Option<string>)

  datatype Snapshot = Snapshot(
    records: seq<TextRecord>, blockers: set<Blocker>, entityCount: nat, structure: string)

  /** `sha256:` digests are free constructors: equal digests mean equal digested material. */
  datatype InventoryId = InventoryId(drawing: string, fingerprint: Fingerprint, snapshot: Snapshot)
  datatype PlanId = PlanId(
    inventory: InventoryId, decisions: map<string, Decision>, changes: seq<TextChange>)

  datatype TextSpan = TextSpan(id: string, text: Text)

  datatype ReviewedText = ReviewedText(record: TextRecord, spans: seq<TextSpan>)

  datatype Inventory = Inventory(
    drawing: string, id: InventoryId, sourceSha256: string, entityCount: nat, totalRecords: nat, totalReviewSpans: nat,
    offset: nat, nextOffset: Option<nat>, records: seq<ReviewedText>, blockers: set<Blocker>)

  /** The inventory that a caller expects: `None`, the empty string, or an id. */
  datatype ExpectedId = NoId | BlankId | SomeId(id: InventoryId)

  datatype Language = Turkish | English | Other | Uncertain

  datatype Decision = Decision(spanId: string, source: Text, language: Language, target: Text)

  datatype TextChange = TextChange(recordId: string, before: Text, after: Text)

  datatype Plan = Plan(
    id: PlanId, inventory: InventoryId, ready: bool, reviewedSpans: nat,
    changes: seq<TextChange>, blockers: set<Blocker>)

  datatype PlanError =
    | InvalidPage | InventoryChanged | DuplicateDecisions | PayloadTooLarge
    | SourceMismatch | NotTurkish | ControlOrNumber | NoReplacementText | ControlCharacter
    | WhitespaceChanged | RecordTooLong | UnknownSpans

  /* ------------------------------------------------------------ the review inventory */

  /** A piece that must be reviewed: editable and, once decoded, not without letters. */
  predicate Reviewable(u: Alphabet, p: Piece) {
    p.editable && u.AnyAlpha(Decoded(p.text))
  }

  function SpansFrom(u: Alphabet, id: string, ps: seq<Piece>, index: nat): (spans: seq<TextSpan>)
    requires index <= |ps|
    decreases |ps| - index
  {
    if index == |ps| then []
    else
      (if Reviewable(u, ps[index]) then [TextSpan(SpanId(id, index), Decoded(ps[index].text))] else [])
      + SpansFrom(u, id, ps, index + 1)
  }

  /** The spans of one record; a record that the lexer refuses contributes none. */
  function RecordSpans(u: Alphabet, r: TextRecord): seq<TextSpan> {
    match Parts(u, r.raw)
    case Ok(ps) => SpansFrom(u, r.id, ps, 0)
    case Err(_) => []
  }

  function AllSpans(u: Alphabet, records: seq<TextRecord>): seq<TextSpan> {
    if records == [] then [] else RecordSpans(u, records[0]) + AllSpans(u, records[1..])
  }

  /** The spans of one record, gathered as `review_record` does; None when it raises. */
  method ReviewRecord(u: Alphabet, record: TextRecord) returns (reviewed: Option<ReviewedText>)
    ensures reviewed.None? <==> Parts(u, record.raw).Err?
    ensures reviewed.Some? ==> reviewed.value == ReviewedText(record, RecordSpans(u, record))
  {
    var pieces := LexParts(u, record.raw);
    if pieces.Err? {
      return None;
    }
    var spans: seq<TextSpan> := [];
    hide SpanId, Decoded, Alphabet.AnyAlpha, Parts;
    for index := 0 to |pieces.value|
      invariant SpansFrom(u, record.id, pieces.value, 0) == spans + SpansFrom(u, record.id, pieces.value, index)
    {
      var text := Decoded(pieces.value[index].text);
      if pieces.value[index].editable && u.AnyAlpha(text) {
        spans := spans + [TextSpan(SpanId(record.id, index), text)];
      }
    }
    return Some(ReviewedText(record, spans));
  }

  function ReviewedAll(u: Alphabet, records: seq<TextRecord>): (all: seq<ReviewedText>)
    ensures |all| == |records|
  {
    if records == [] then []
    else [ReviewedText(records[0], RecordSpans(u, records[0]))] + ReviewedAll(u, records[1..])
  }

  function FormatBlockers(u: Alphabet, records: seq<TextRecord>): set<Blocker> {
    set r | r in records && Parts(u, r.raw).Err? :: UnsupportedFormat(r.id)
  }

  method ReviewEvery(u: Alphabet, snapshot: Snapshot)
    returns (reviewed: seq<ReviewedText>, blockers: set<Blocker>, total: nat)
    ensures reviewed == ReviewedAll(u, snapshot.records)
    ensures blockers == snapshot.blockers + FormatBlockers(u, snapshot.records)
    ensures total == |AllSpans(u, snapshot.records)|
  {
    hide Parts, ReviewedAll, AllSpans, RecordSpans, FormatBlockers;
    var records := snapshot.records;
    reviewed, blockers, total := [], snapshot.blockers, 0;
    assert records[0..] == records && records[..0] == [];
    NoRecordsReviewed(u);
    for i := 0 to |records|
      invariant ReviewedAll(u, records) == reviewed + ReviewedAll(u, records[i..])
      invariant blockers == snapshot.blockers + FormatBlockers(u, records[..i])
      invariant |AllSpans(u, records)| == total + |AllSpans(u, records[i..])|
    {
      var record := records[i];
      var one := ReviewRecord(u, record);
      assert records[i..][1..] == records[i + 1..];
      ReviewTurn(u, records, i);
      if one.None? {
        blockers := blockers + {UnsupportedFormat(record.id)};
        reviewed := reviewed + [ReviewedText(record, [])];
      } else {
        reviewed := reviewed + [one.value];
        total := total + |one.value.spans|;
      }
    }
    assert records[..|records|] == records && records[|records|..] == [];
  }

  lemma NoRecordsReviewed(u: Alphabet)
    ensures ReviewedAll(u, []) == [] && AllSpans(u, []) == [] && FormatBlockers(u, []) == {}
  {
  }

  lemma ReviewTurn(u: Alphabet, records: seq<TextRecord>, i: nat)
    requires i < |records|
    ensures ReviewedAll(u, records[i..]) == [ReviewedText(records[i], RecordSpans(u, records[i]))] + ReviewedAll(u, records[i + 1..])
    ensures AllSpans(u, records[i..]) == RecordSpans(u, records[i]) + AllSpans(u, records[i + 1..])
    ensures FormatBlockers(u, records[..i + 1])
      == FormatBlockers(u, records[..i]) + (if Parts(u, records[i].raw).Err? then {UnsupportedFormat(records[i].id)} else {})
    ensures Parts(u, records[i].raw).Err? ==> RecordSpans(u, records[i]) == []
  {
    assert records[i..][1..] == records[i + 1..];
    assert records[..i + 1] == records[..i] + [records[i]];
    hide Parts, SpansFrom;
  }

  /** One page of the complete review inventory. */
  method InventoryPage(
      u: Alphabet, path: string, fingerprint: Fingerprint, snapshot: Snapshot,
      expectedId: ExpectedId, offset: int, limit: int)
    returns (page: Result<Inventory, PlanError>)
    ensures page == Err(InvalidPage) <==> !(0 <= offset <= |snapshot.records| && 1 <= limit <= 100)
    ensures page.Ok? <==>
      && 0 <= offset <= |snapshot.records| && 1 <= limit <= 100
      && (offset > 0 ==> !expectedId.NoId?)
      && (expectedId.SomeId? ==> expectedId.id == InventoryId(path, fingerprint, snapshot))
    ensures page.Err? ==> page.error in {InvalidPage, InventoryChanged}
    ensures page.Ok? ==>
      var all := ReviewedAll(u, snapshot.records);
      var end := if page.value.nextOffset.Some? then page.value.nextOffset.value else |all|;
      && page.value.drawing == path && page.value.sourceSha256 == fingerprint.sha256
      && page.value.entityCount == snapshot.entityCount
      && page.value.id == InventoryId(path, fingerprint, snapshot)
      && page.value.totalRecords == |all|
      && page.value.totalReviewSpans == |AllSpans(u, snapshot.records)|
      && page.value.offset == offset <= end <= |all|
      && (if page.value.nextOffset.Some? then end == offset + limit else end <= offset + limit)
      && (page.value.nextOffset.Some? ==> end < |all|)
      && page.value.records == all[offset..end]
      && page.value.blockers == snapshot.blockers + FormatBlockers(u, snapshot.records)
  {
    if !(0 <= offset <= |snapshot.records| && 1 <= limit <= 100) {
      return Err(InvalidPage);
    }
    var id := InventoryId(path, fingerprint, snapshot);
    if (offset > 0 && expectedId.NoId?) || (expectedId.SomeId? && expectedId.id != id) {
      return Err(InventoryChanged);
    }
    var reviewed, blockers, total := ReviewEvery(u, snapshot);
    var end := if offset + limit < |reviewed| then offset + limit else |reviewed|;
    return Ok(Inventory(path, id, fingerprint.sha256, snapshot.entityCount, |reviewed|, total, offset,
                        if offset + limit < |reviewed| then Some(offset + limit) else None,
                        reviewed[offset..end], blockers));
  }

  /* ------------------------------------------------------------ the plan, as a function */

  predicate HasControlCharacter(s: Text) {
    exists i :: 0 <= i < |s| && (s[i] < 32 || s[i] == 127)
  }

  /** The checks on one decision about a span that reads `text`, in the order the plan makes them. */
  function DecisionError(u: Alphabet, text: Text, d: Decision): Option<PlanError> {
    if d.source != text then Some(SourceMismatch)
    else if d.target == text then None
    else if d.language != Turkish then Some(NotTurkish)
    else if || Parts(u, d.target).Err?
            || (exists p :: p in Parts(u, d.target).value && !p.editable)
            || PERCENT in d.target || BACKSLASH in d.target || u.AnyNumeric(d.target)
    then Some(ControlOrNumber)
    else if !u.AnyAlpha(d.target) then Some(NoReplacementText)
    else if HasControlCharacter(d.target) then Some(ControlCharacter)
    else if u.WhitespaceEdges(text) != u.WhitespaceEdges(d.target) then Some(WhitespaceChanged)
    else None
  }

  type Decisions = map<string, Decision>

  function PieceError(u: Alphabet, id: string, k: nat, p: Piece, byId: Decisions): Option<PlanError> {
    if Reviewable(u, p) && SpanId(id, k) in byId then
      DecisionError(u, Decoded(p.text), byId[SpanId(id, k)])
    else None
  }

  function PieceBlockers(u: Alphabet, id: string, k: nat, p: Piece, byId: Decisions): set<Blocker> {
    if !Reviewable(u, p) then {}
    else if SpanId(id, k) !in byId then {Unreviewed(SpanId(id, k))}
    else
      var d := byId[SpanId(id, k)];
      (if d.language == Uncertain then {UncertainSpan(SpanId(id, k))} else {})
      + (if d.target == Decoded(p.text) && d.language == Turkish then {Untranslated(SpanId(id, k))} else {})
  }

  /** An unchanged span keeps its raw encoding; only a differing target replaces it. */
  function PatchedPiece(u: Alphabet, id: string, k: nat, p: Piece, byId: Decisions): Piece {
    if Reviewable(u, p) && SpanId(id, k) in byId && byId[SpanId(id, k)].target != Decoded(p.text) then
      Piece(true, byId[SpanId(id, k)].target)
    else p
  }

  function PiecesError(u: Alphabet, id: string, ps: seq<Piece>, k: nat, byId: Decisions): Option<PlanError>
    requires k <= |ps|
    decreases |ps| - k
  {
    if k == |ps| then None
    else if PieceError(u, id, k, ps[k], byId).Some? then PieceError(u, id, k, ps[k], byId)
    else PiecesError(u, id, ps, k + 1, byId)
  }

  function PiecesBlockers(u: Alphabet, id: string, ps: seq<Piece>, k: nat, byId: Decisions): set<Blocker>
    requires k <= |ps|
    decreases |ps| - k
  {
    if k == |ps| then {}
    else PieceBlockers(u, id, k, ps[k], byId) + PiecesBlockers(u, id, ps, k + 1, byId)
  }

  function PatchedPieces(u: Alphabet, id: string, ps: seq<Piece>, k: nat, byId: Decisions): (qs: seq<Piece>)
    requires k <= |ps|
    ensures |qs| == |ps| - k
    ensures forall i :: 0 <= i < |qs| ==> qs[i] == PatchedPiece(u, id, k + i, ps[k + i], byId)
    decreases |ps| - k
  {
    if k == |ps| then []
    else [PatchedPiece(u, id, k, ps[k], byId)] + PatchedPieces(u, id, ps, k + 1, byId)
  }

  /** The text of a record after the plan; a record the lexer refuses stays as it is. */
  function PatchedText(u: Alphabet, r: TextRecord, byId: Decisions): Text {
    match Parts(u, r.raw)
    case Ok(ps) => Concat(PatchedPieces(u, r.id, ps, 0, byId))
    case Err(_) => r.raw
  }

  function RecordError(u: Alphabet, r: TextRecord, byId: Decisions): Option<PlanError> {
    match Parts(u, r.raw)
    case Ok(ps) =>
      if PiecesError(u, r.id, ps, 0, byId).Some? then PiecesError(u, r.id, ps, 0, byId)
      else if |PatchedText(u, r, byId)| > MAX_TEXT_CHARS then Some(RecordTooLong)
      else None
    case Err(_) => None
  }

  function RecordBlockers(u: Alphabet, r: TextRecord, byId: Decisions): set<Blocker> {
    match Parts(u, r.raw)
    case Ok(ps) =>
      PiecesBlockers(u, r.id, ps, 0, byId)
      + (if PatchedText(u, r, byId) != r.raw && !r.writable then {NotWritable(r.id, r.reason)} else {})
    case Err(_) => {UnsupportedFormat(r.id)}
  }

  function RecordChanges(u: Alphabet, r: TextRecord, byId: Decisions): seq<TextChange> {
    if PatchedText(u, r, byId) == r.raw then [] else [TextChange(r.id, r.raw, PatchedText(u, r, byId))]
  }

  function RecordsError(u: Alphabet, rs: seq<TextRecord>, byId: Decisions): Option<PlanError> {
    if rs == [] then None
    else if RecordError(u, rs[0], byId).Some? then RecordError(u, rs[0], byId)
    else RecordsError(u, rs[1..], byId)
  }

  function RecordsBlockers(u: Alphabet, rs: seq<TextRecord>, byId: Decisions): set<Blocker> {
    if rs == [] then {} else RecordBlockers(u, rs[0], byId) + RecordsBlockers(u, rs[1..], byId)
  }

  function RecordsChanges(u: Alphabet, rs: seq<TextRecord>, byId: Decisions): seq<TextChange> {
    if rs == [] then [] else RecordChanges(u, rs[0], byId) + RecordsChanges(u, rs[1..], byId)
  }

  function SpanIdsOf(spans: seq<TextSpan>): set<string> {
    set t | t in spans :: t.id
  }

  function ById(ds: seq<Decision>): Decisions {
    if ds == [] then map[] else ById(ds[..|ds| - 1])[ds[|ds| - 1].spanId := ds[|ds| - 1]]
  }

  function PayloadSize(ds: seq<Decision>): nat {
    if ds == [] then 0 else |ds[0].source| + |ds[0].target| + PayloadSize(ds[1..])
  }

  function BuildPlan(
      u: Alphabet, path: string, fingerprint: Fingerprint, snapshot: Snapshot,
      expectedId: InventoryId, decisions: seq<Decision>): Result<Plan, PlanError>
  {
    var current := InventoryId(path, fingerprint, snapshot);
    var byId := ById(decisions);
    var rs := snapshot.records;
    if current != expectedId then Err(InventoryChanged)
    else if |byId| != |decisions| then Err(DuplicateDecisions)
    else if PayloadSize(decisions) > 4 * MAX_TOTAL_CHARS then Err(PayloadTooLarge)
    else if RecordsError(u, rs, byId).Some? then Err(RecordsError(u, rs, byId).value)
    else if byId.Keys - SpanIdsOf(AllSpans(u, rs)) != {} then Err(UnknownSpans)
    else
      var changes := RecordsChanges(u, rs, byId);
      var blockers := snapshot.blockers + RecordsBlockers(u, rs, byId);
      Ok(Plan(PlanId(current, byId, changes), current, blockers == {}, |byId|, changes, blockers))
  }
}
