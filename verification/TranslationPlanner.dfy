/** The loops of `build_translation_plan` and of the output check, proved against their functions. */
module TranslationPlanner {
  import opened Wrappers
  import opened Characters
  import opened MtextLexer
  import opened SpanIds
  import opened TranslationPlan
  import opened PlanTheorems

  datatype PieceWork = PieceWork(output: Text, seen: set<string>, blockers: set<Blocker>)

  /** Walk the pieces of one record: patched text, spans seen, blockers, or the first error. */
  method PlanPieces(u: Alphabet, id: string, ps: seq<Piece>, byId: Decisions)
    returns (r: Result<PieceWork, PlanError>)
    ensures r == if PiecesError(u, id, ps, 0, byId).Some? then Err(PiecesError(u, id, ps, 0, byId).value)
                 else Ok(PieceWork(Concat(PatchedPieces(u, id, ps, 0, byId)),
                                   SpanIdsOf(SpansFrom(u, id, ps, 0)),
                                   PiecesBlockers(u, id, ps, 0, byId)))
  {
    hide DecisionError, PiecesError, PatchedPieces, SpansFrom, SpanIdsOf, PiecesBlockers, Concat, SpanId, Decoded, Alphabet.AnyAlpha;
    var output: Text, seen: set<string>, blockers: set<Blocker> := [], {}, {};
    for k := 0 to |ps|
      invariant PiecesError(u, id, ps, 0, byId) == PiecesError(u, id, ps, k, byId)
      invariant Concat(PatchedPieces(u, id, ps, 0, byId)) == output + Concat(PatchedPieces(u, id, ps, k, byId))
      invariant SpanIdsOf(SpansFrom(u, id, ps, 0)) == seen + SpanIdsOf(SpansFrom(u, id, ps, k))
      invariant PiecesBlockers(u, id, ps, 0, byId) == blockers + PiecesBlockers(u, id, ps, k, byId)
    {
      PlanTurn(u, id, ps, k, byId);
      var text, spanId := Decoded(ps[k].text), SpanId(id, k);
      if !ps[k].editable || !u.AnyAlpha(text) {
        output := output + ps[k].text;
        continue;
      }
      seen := seen + {spanId};
      if spanId !in byId {
        blockers := blockers + {Unreviewed(spanId)};
        output := output + ps[k].text;
        continue;
      }
      var d := byId[spanId];
      var error := DecisionError(u, text, d);
      if error.Some? {
        return Err(error.value);
      }
      if d.language == Uncertain {
        blockers := blockers + {UncertainSpan(spanId)};
      }
      if d.target == text {
        if d.language == Turkish {
          blockers := blockers + {Untranslated(spanId)};
        }
        output := output + ps[k].text;
        continue;
      }
      output := output + d.target;
    }
    PlanEnd(u, id, ps, byId);
    assert output + [] == output;
    return Ok(PieceWork(output, seen, blockers));
  }

  /** What one piece adds to each of the four results. */
  lemma PlanTurn(u: Alphabet, id: string, ps: seq<Piece>, k: nat, byId: Decisions)
    requires k < |ps|
    ensures PiecesError(u, id, ps, k, byId)
      == if PieceError(u, id, k, ps[k], byId).Some? then PieceError(u, id, k, ps[k], byId)
         else PiecesError(u, id, ps, k + 1, byId)
    ensures Concat(PatchedPieces(u, id, ps, k, byId))
      == PatchedPiece(u, id, k, ps[k], byId).text + Concat(PatchedPieces(u, id, ps, k + 1, byId))
    ensures SpanIdsOf(SpansFrom(u, id, ps, k))
      == (if Reviewable(u, ps[k]) then {SpanId(id, k)} else {}) + SpanIdsOf(SpansFrom(u, id, ps, k + 1))
    ensures PiecesBlockers(u, id, ps, k, byId)
      == PieceBlockers(u, id, k, ps[k], byId) + PiecesBlockers(u, id, ps, k + 1, byId)
  {
    hide DecisionError, Reviewable;
    var first := if Reviewable(u, ps[k]) then [TextSpan(SpanId(id, k), Decoded(ps[k].text))] else [];
    SpanIdsAppend(first, SpansFrom(u, id, ps, k + 1));
  }

  lemma PlanEnd(u: Alphabet, id: string, ps: seq<Piece>, byId: Decisions)
    ensures PiecesError(u, id, ps, |ps|, byId).None?
    ensures Concat(PatchedPieces(u, id, ps, |ps|, byId)) == []
    ensures SpanIdsOf(SpansFrom(u, id, ps, |ps|)) == {}
    ensures PiecesBlockers(u, id, ps, |ps|, byId) == {}
  {
  }

  lemma SpanIdsAppend(a: seq<TextSpan>, b: seq<TextSpan>)
    ensures SpanIdsOf(a + b) == SpanIdsOf(a) + SpanIdsOf(b)
  {
    assert forall t :: t in a + b <==> t in a || t in b;
  }

  datatype Draft = Draft(changes: seq<TextChange>, seen: set<string>, blockers: set<Blocker>)

  /** The record loop: changes, spans seen and blockers of the whole snapshot, or the first error. */
  method PlanRecords(u: Alphabet, rs: seq<TextRecord>, byId: Decisions) returns (r: Result<Draft, PlanError>)
    ensures r == if RecordsError(u, rs, byId).Some? then Err(RecordsError(u, rs, byId).value)
                 else Ok(Draft(RecordsChanges(u, rs, byId), SpanIdsOf(AllSpans(u, rs)), RecordsBlockers(u, rs, byId)))
  {
    hide Parts, PiecesError, PatchedPieces, SpansFrom, SpanIdsOf, PiecesBlockers, Concat;
    hide RecordsError, RecordsChanges, AllSpans, RecordsBlockers;
    var changes: seq<TextChange>, seen: set<string>, blockers: set<Blocker> := [], {}, {};
    assert rs[0..] == rs;
    for i := 0 to |rs|
      invariant RecordsError(u, rs, byId) == RecordsError(u, rs[i..], byId)
      invariant RecordsChanges(u, rs, byId) == changes + RecordsChanges(u, rs[i..], byId)
      invariant SpanIdsOf(AllSpans(u, rs)) == seen + SpanIdsOf(AllSpans(u, rs[i..]))
      invariant RecordsBlockers(u, rs, byId) == blockers + RecordsBlockers(u, rs[i..], byId)
    {
      var record := rs[i];
      assert rs[i..][1..] == rs[i + 1..];
      RecordTurn(u, rs[i..], byId);
      NoRecords(u, byId);
      var pieces := LexParts(u, record.raw);
      if pieces.Err? {
        blockers := blockers + {UnsupportedFormat(record.id)};
        continue;
      }
      var work := PlanPieces(u, record.id, pieces.value, byId);
      if work.Err? {
        return Err(work.error);
      }
      seen, blockers := seen + work.value.seen, blockers + work.value.blockers;
      var translated := work.value.output;
      if |translated| > MAX_TEXT_CHARS {
        return Err(RecordTooLong);
      }
      if translated != record.raw {
        if !record.writable {
          blockers := blockers + {NotWritable(record.id, record.reason)};
        }
        changes := changes + [TextChange(record.id, record.raw, translated)];
      }
    }
    assert rs[|rs|..] == [] && changes + [] == changes;
    NoRecords(u, byId);
    return Ok(Draft(changes, seen, blockers));
  }

  lemma RecordTurn(u: Alphabet, rs: seq<TextRecord>, byId: Decisions)
    requires rs != []
    ensures RecordsError(u, rs, byId)
      == if RecordError(u, rs[0], byId).Some? then RecordError(u, rs[0], byId) else RecordsError(u, rs[1..], byId)
    ensures RecordsChanges(u, rs, byId) == RecordChanges(u, rs[0], byId) + RecordsChanges(u, rs[1..], byId)
    ensures SpanIdsOf(AllSpans(u, rs)) == SpanIdsOf(RecordSpans(u, rs[0])) + SpanIdsOf(AllSpans(u, rs[1..]))
    ensures RecordsBlockers(u, rs, byId) == RecordBlockers(u, rs[0], byId) + RecordsBlockers(u, rs[1..], byId)
  {
    hide RecordError, RecordChanges, RecordSpans, RecordBlockers;
    SpanIdsAppend(RecordSpans(u, rs[0]), AllSpans(u, rs[1..]));
  }

  lemma NoRecords(u: Alphabet, byId: Decisions)
    ensures RecordsError(u, [], byId).None? && RecordsChanges(u, [], byId) == []
    ensures SpanIdsOf(AllSpans(u, [])) == {} && RecordsBlockers(u, [], byId) == {}
    ensures SpanIdsOf([]) == {}
  {
  }

  /** `build_translation_plan`. */
  method BuildTranslationPlan(
      u: Alphabet, path: string, fingerprint: Fingerprint, snapshot: Snapshot,
      expectedId: InventoryId, decisions: seq<Decision>)
    returns (r: Result<Plan, PlanError>)
    ensures r == BuildPlan(u, path, fingerprint, snapshot, expectedId, decisions)
  {
    var current := InventoryId(path, fingerprint, snapshot);
    if current != expectedId {
      return Err(InventoryChanged);
    }
    var byId: Decisions, size := map[], 0;
    for i := 0 to |decisions|
      invariant byId == ById(decisions[..i])
      invariant PayloadSize(decisions) == size + PayloadSize(decisions[i..])
    {
      assert decisions[..i + 1][..i] == decisions[..i];
      byId := byId[decisions[i].spanId := decisions[i]];
      size := size + |decisions[i].source| + |decisions[i].target|;
    }
    assert decisions[..|decisions|] == decisions;
    if |byId| != |decisions| {
      return Err(DuplicateDecisions);
    }
    if size > 4 * MAX_TOTAL_CHARS {
      return Err(PayloadTooLarge);
    }
    var draft := PlanRecords(u, snapshot.records, byId);
    if draft.Err? {
      return Err(draft.error);
    }
    if byId.Keys - draft.value.seen != {} {
      return Err(UnknownSpans);
    }
    var blockers := snapshot.blockers + draft.value.blockers;
    return Ok(Plan(PlanId(current, byId, draft.value.changes), current, blockers == {}, |byId|,
                   draft.value.changes, blockers));
  }

  /**
   The records `apply_translation` expects after the edit: a dictionary by record id, filled in
   order, whose texts the plan's changes overwrite. `order` is the dictionary's insertion order.
   */
  method ExpectedAfter(u: Alphabet, rs: seq<TextRecord>, byId: Decisions, changes: seq<TextChange>)
    returns (expected: seq<TextRecord>)
    requires changes == RecordsChanges(u, rs, byId)
    ensures UniqueIds(rs) ==> expected == PatchedRecords(u, rs, byId)
  {
    hide RecordsChanges, PatchedText, Parts, RawAfter, UniqueIds;
    var desired, order := ByRecordId(rs);
    ChangedIdsKnown(u, rs, byId);
    desired := WithChanges(rs, desired, changes);
    expected := seq(|order|, i requires 0 <= i < |order| && order[i] in desired => desired[order[i]]);
    if UniqueIds(rs) {
      forall i | 0 <= i < |rs| ensures expected[i] == PatchedRecords(u, rs, byId)[i] {
        ChangesPatch(u, rs, byId, i);
      }
    }
  }

  /** The dictionary of the records and the order in which its keys were first inserted. */
  method ByRecordId(rs: seq<TextRecord>) returns (desired: map<string, TextRecord>, order: seq<string>)
    ensures forall key :: key in order <==> key in desired
    ensures forall j :: 0 <= j < |rs| ==> rs[j].id in desired
    ensures UniqueIds(rs) ==> |order| == |rs| && forall j :: 0 <= j < |rs| ==> order[j] == rs[j].id && desired[rs[j].id] == rs[j]
  {
    desired, order := map[], [];
    for i := 0 to |rs|
      invariant forall key :: key in order <==> key in desired
      invariant forall j :: 0 <= j < i ==> rs[j].id in desired
      invariant forall key :: key in desired ==> exists j :: 0 <= j < i && rs[j].id == key
      invariant UniqueIds(rs) ==> |order| == i && forall j :: 0 <= j < i ==> order[j] == rs[j].id && desired[rs[j].id] == rs[j]
    {
      if rs[i].id !in desired {
        order := order + [rs[i].id];
      }
      desired := desired[rs[i].id := rs[i]];
    }
  }

  /** The changes overwrite the texts of their records, in order. */
  method WithChanges(rs: seq<TextRecord>, records: map<string, TextRecord>, changes: seq<TextChange>) returns (desired: map<string, TextRecord>)
    requires forall j :: 0 <= j < |rs| ==> rs[j].id in records
    requires forall c :: c in changes ==> c.recordId in records
    ensures desired.Keys == records.Keys
    ensures UniqueIds(rs) && (forall j :: 0 <= j < |rs| ==> records[rs[j].id] == rs[j]) ==>
      forall j :: 0 <= j < |rs| ==> desired[rs[j].id] == rs[j].(raw := RawAfter(rs[j], changes))
  {
    hide UniqueIds;
    desired := records;
    assert changes[..0] == [];
    for i := 0 to |changes|
      invariant desired.Keys == records.Keys
      invariant UniqueIds(rs) && (forall j :: 0 <= j < |rs| ==> records[rs[j].id] == rs[j]) ==>
        forall j :: 0 <= j < |rs| ==> desired[rs[j].id] == rs[j].(raw := RawAfter(rs[j], changes[..i]))
    {
      var change := changes[i];
      assert change in changes && changes[..i + 1][..i] == changes[..i];
      desired := desired[change.recordId := desired[change.recordId].(raw := change.after)];
    }
    assert changes[..|changes|] == changes;
  }

  lemma {:induction false} ChangedIdsKnown(u: Alphabet, rs: seq<TextRecord>, byId: Decisions)
    ensures forall c :: c in RecordsChanges(u, rs, byId) ==> exists j :: 0 <= j < |rs| && rs[j].id == c.recordId
  {
    hide PatchedText;
    if rs != [] {
      ChangedIdsKnown(u, rs[1..], byId);
      forall c | c in RecordsChanges(u, rs, byId)
        ensures exists j :: 0 <= j < |rs| && rs[j].id == c.recordId
      {
        if c in RecordsChanges(u, rs[1..], byId) {
          var j :| 0 <= j < |rs| - 1 && rs[1..][j].id == c.recordId;
          assert rs[j + 1].id == c.recordId;
        } else {
          assert rs[0].id == c.recordId;
        }
      }
    }
  }
}
