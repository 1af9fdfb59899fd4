/** What a translation plan guarantees: completeness, acceptance, and a faithful re-review. */
module PlanTheorems {
  import opened Wrappers
  import opened Characters
  import opened MtextLexer
  import opened MtextRelex
  import opened SpanIds
  import opened TranslationPlan

  /* ------------------------------------------------------------ spans */

  ghost predicate UniqueIds(rs: seq<TextRecord>) {
    forall i, j :: 0 <= i < j < |rs| ==> rs[i].id != rs[j].id
  }

  ghost predicate DistinctIds(spans: seq<TextSpan>) {
    forall i, j :: 0 <= i < j < |spans| ==> spans[i].id != spans[j].id
  }

  /** `t` is the span of piece `k` of a record that the lexer accepts. */
  predicate IsSpan(u: Alphabet, r: TextRecord, k: nat, t: TextSpan) {
    && Parts(u, r.raw).Ok?
    && k < |Parts(u, r.raw).value|
    && Reviewable(u, Parts(u, r.raw).value[k])
    && t == TextSpan(SpanId(r.id, k), Decoded(Parts(u, r.raw).value[k].text))
  }

  lemma {:induction false} SpansFromMembers(u: Alphabet, id: string, ps: seq<Piece>, index: nat, t: TextSpan)
    requires index <= |ps|
    ensures t in SpansFrom(u, id, ps, index)
      <==> exists k :: index <= k < |ps| && Reviewable(u, ps[k]) && t == TextSpan(SpanId(id, k), Decoded(ps[k].text))
    decreases |ps| - index
  {
    if index < |ps| {
      SpansFromMembers(u, id, ps, index + 1, t);
    }
  }

  lemma {:induction false} SpansFromDistinct(u: Alphabet, id: string, ps: seq<Piece>, index: nat)
    requires index <= |ps|
    ensures DistinctIds(SpansFrom(u, id, ps, index))
    decreases |ps| - index
  {
    if index < |ps| {
      SpansFromDistinct(u, id, ps, index + 1);
      forall t | t in SpansFrom(u, id, ps, index + 1)
        ensures t.id != SpanId(id, index)
      {
        SpansFromMembers(u, id, ps, index + 1, t);
        var k :| index < k < |ps| && t.id == SpanId(id, k);
        if SpanId(id, k) == SpanId(id, index) {
          SpanIdInjective(id, k, id, index);
        }
      }
    }
  }

  lemma RecordSpanMembers(u: Alphabet, r: TextRecord, t: TextSpan)
    ensures t in RecordSpans(u, r) <==> exists k: nat :: IsSpan(u, r, k, t)
  {
    if Parts(u, r.raw).Ok? {
      SpansFromMembers(u, r.id, Parts(u, r.raw).value, 0, t);
      if t in RecordSpans(u, r) {
        var ps := Parts(u, r.raw).value;
        var k :| 0 <= k < |ps| && Reviewable(u, ps[k]) && t == TextSpan(SpanId(r.id, k), Decoded(ps[k].text));
        assert IsSpan(u, r, k, t);
      }
    }
  }

  lemma {:induction false} AllSpanMembers(u: Alphabet, rs: seq<TextRecord>, t: TextSpan)
    ensures t in AllSpans(u, rs) <==> exists i, k: nat :: 0 <= i < |rs| && IsSpan(u, rs[i], k, t)
  {
    hide Parts, IsSpan, RecordSpans;
    if rs != [] {
      RecordSpanMembers(u, rs[0], t);
      AllSpanMembers(u, rs[1..], t);
      if i, k: nat :| 0 <= i < |rs| && IsSpan(u, rs[i], k, t) {
        if i > 0 {
          assert IsSpan(u, rs[1..][i - 1], k, t);
        }
      }
      if t in AllSpans(u, rs[1..]) {
        var i, k: nat :| 0 <= i < |rs| - 1 && IsSpan(u, rs[1..][i], k, t);
        assert IsSpan(u, rs[i + 1], k, t);
      }
    }
  }

  /** For unique record ids no two spans of the whole inventory share an id. */
  lemma {:induction false} AllSpansDistinct(u: Alphabet, rs: seq<TextRecord>)
    requires UniqueIds(rs)
    ensures DistinctIds(AllSpans(u, rs))
  {
    if rs != [] {
      AllSpansDistinct(u, rs[1..]);
      RecordSpansDistinct(u, rs[0]);
      forall s, t | s in RecordSpans(u, rs[0]) && t in AllSpans(u, rs[1..])
        ensures s.id != t.id
      {
        SpansApart(u, rs, s, t);
      }
    }
  }

  lemma RecordSpansDistinct(u: Alphabet, r: TextRecord)
    ensures DistinctIds(RecordSpans(u, r))
  {
    if Parts(u, r.raw).Ok? {
      SpansFromDistinct(u, r.id, Parts(u, r.raw).value, 0);
    }
  }

  lemma SpansApart(u: Alphabet, rs: seq<TextRecord>, s: TextSpan, t: TextSpan)
    requires UniqueIds(rs) && rs != [] && s in RecordSpans(u, rs[0]) && t in AllSpans(u, rs[1..])
    ensures s.id != t.id
  {
    RecordSpanMembers(u, rs[0], s);
    AllSpanMembers(u, rs[1..], t);
    var k: nat :| IsSpan(u, rs[0], k, s);
    var i, m: nat :| 0 <= i < |rs| - 1 && IsSpan(u, rs[1..][i], m, t);
    assert rs[1..][i].id != rs[0].id;
    if s.id == t.id {
      SpanIdInjective(rs[0].id, k, rs[1..][i].id, m);
    }
  }

  lemma {:induction false} DistinctCount(spans: seq<TextSpan>)
    requires DistinctIds(spans)
    ensures |SpanIdsOf(spans)| == |spans|
  {
    if spans == [] {
      assert SpanIdsOf(spans) == {};
    } else {
      DistinctCount(spans[1..]);
      assert spans == [spans[0]] + spans[1..];
      assert SpanIdsOf(spans) == {spans[0].id} + SpanIdsOf(spans[1..]);
      assert spans[0].id !in SpanIdsOf(spans[1..]);
    }
  }

  /* ------------------------------------------------------------ when a plan is ready */

  /** A span has a certain decision, and Turkish text is not left as it was. */
  predicate Decided(byId: Decisions, t: TextSpan) {
    && t.id in byId
    && byId[t.id].language != Uncertain
    && !(byId[t.id].target == t.text && byId[t.id].language == Turkish)
  }

  lemma {:induction false} PiecesReady(u: Alphabet, id: string, ps: seq<Piece>, index: nat, byId: Decisions)
    requires index <= |ps|
    ensures PiecesBlockers(u, id, ps, index, byId) == {}
      <==> forall t :: t in SpansFrom(u, id, ps, index) ==> Decided(byId, t)
    decreases |ps| - index
  {
    if index < |ps| {
      PiecesReady(u, id, ps, index + 1, byId);
      var first := TextSpan(SpanId(id, index), Decoded(ps[index].text));
      if Reviewable(u, ps[index]) {
        assert first in SpansFrom(u, id, ps, index);
        assert PieceBlockers(u, id, index, ps[index], byId) == {} <==> Decided(byId, first);
      } else {
        assert PieceBlockers(u, id, index, ps[index], byId) == {};
      }
    }
  }

  ghost predicate RecordReady(u: Alphabet, r: TextRecord, byId: Decisions) {
    && Parts(u, r.raw).Ok?
    && (forall t :: t in RecordSpans(u, r) ==> Decided(byId, t))
    && (PatchedText(u, r, byId) != r.raw ==> r.writable)
  }

  lemma {:induction false} RecordsReady(u: Alphabet, rs: seq<TextRecord>, byId: Decisions)
    ensures RecordsBlockers(u, rs, byId) == {} <==> forall r :: r in rs ==> RecordReady(u, r, byId)
  {
    if rs != [] {
      RecordsReady(u, rs[1..], byId);
      RecordBlockersEmpty(u, rs[0], byId);
      assert rs == [rs[0]] + rs[1..];
      hide RecordReady, RecordBlockers;
      assert RecordsBlockers(u, rs, byId) == {}
        <==> RecordBlockers(u, rs[0], byId) == {} && RecordsBlockers(u, rs[1..], byId) == {};
    }
  }

  lemma RecordBlockersEmpty(u: Alphabet, r: TextRecord, byId: Decisions)
    ensures RecordBlockers(u, r, byId) == {} <==> RecordReady(u, r, byId)
  {
    if Parts(u, r.raw).Ok? {
      PiecesReady(u, r.id, Parts(u, r.raw).value, 0, byId);
    }
  }

  /* ------------------------------------------------------------ which decisions are accepted */

  lemma {:induction false} PiecesAccepted(u: Alphabet, id: string, ps: seq<Piece>, index: nat, byId: Decisions)
    requires index <= |ps|
    ensures PiecesError(u, id, ps, index, byId).None?
      <==> forall t :: t in SpansFrom(u, id, ps, index) && t.id in byId ==> DecisionError(u, t.text, byId[t.id]).None?
    ensures PiecesError(u, id, ps, index, byId) != Some(RecordTooLong)
    decreases |ps| - index
  {
    hide Parts;
    if index < |ps| {
      PiecesAccepted(u, id, ps, index + 1, byId);
      if Reviewable(u, ps[index]) {
        assert TextSpan(SpanId(id, index), Decoded(ps[index].text)) in SpansFrom(u, id, ps, index);
      }
    }
  }

  ghost predicate DecisionsFit(u: Alphabet, spans: seq<TextSpan>, byId: Decisions) {
    forall t :: t in spans && t.id in byId ==> DecisionError(u, t.text, byId[t.id]).None?
  }

  lemma RecordAccepted(u: Alphabet, r: TextRecord, byId: Decisions)
    ensures RecordError(u, r, byId).None? || RecordError(u, r, byId) == Some(RecordTooLong)
      <==> DecisionsFit(u, RecordSpans(u, r), byId)
    ensures RecordError(u, r, byId) == Some(RecordTooLong)
      <==> Parts(u, r.raw).Ok? && DecisionsFit(u, RecordSpans(u, r), byId) && |PatchedText(u, r, byId)| > MAX_TEXT_CHARS
  {
    hide DecisionError, PatchedText;
    if Parts(u, r.raw).Ok? {
      PiecesAccepted(u, r.id, Parts(u, r.raw).value, 0, byId);
    }
  }

  /**
   The decisions are accepted exactly when each one fits its span; the only other error a
   record can raise is its length limit.
   */
  lemma {:induction false} RecordsAccepted(u: Alphabet, rs: seq<TextRecord>, byId: Decisions)
    ensures RecordsError(u, rs, byId).None?
      <==> && DecisionsFit(u, AllSpans(u, rs), byId)
           && forall r :: r in rs && Parts(u, r.raw).Ok? ==> |PatchedText(u, r, byId)| <= MAX_TEXT_CHARS
    ensures DecisionsFit(u, AllSpans(u, rs), byId) ==>
      RecordsError(u, rs, byId).None? || RecordsError(u, rs, byId) == Some(RecordTooLong)
  {
    hide DecisionError, PatchedText, Parts, RecordSpans, RecordError;
    if rs != [] {
      RecordAccepted(u, rs[0], byId);
      RecordsAccepted(u, rs[1..], byId);
      assert rs == [rs[0]] + rs[1..];
      assert AllSpans(u, rs) == RecordSpans(u, rs[0]) + AllSpans(u, rs[1..]);
      assert DecisionsFit(u, AllSpans(u, rs), byId)
        <==> DecisionsFit(u, RecordSpans(u, rs[0]), byId) && DecisionsFit(u, AllSpans(u, rs[1..]), byId);
    }
  }

  lemma {:induction false} ByIdMembers(ds: seq<Decision>)
    ensures forall key :: key in ById(ds) ==> ById(ds)[key] in ds && ById(ds)[key].spanId == key
    ensures forall d :: d in ds ==> d.spanId in ById(ds)
    ensures |ById(ds)| == |ds| ==> forall d :: d in ds ==> ById(ds)[d.spanId] == d
    ensures |ById(ds)| <= |ds|
  {
    if ds != [] {
      var init, last := ds[..|ds| - 1], ds[|ds| - 1];
      ByIdMembers(init);
      assert ds == init + [last];
      if last.spanId in ById(init) {
        assert ById(ds).Keys == ById(init).Keys;
        assert |ById(ds).Keys| == |ById(ds)|;
      } else {
        assert ById(ds).Keys == ById(init).Keys + {last.spanId};
        assert |ById(ds).Keys| == |ById(ds)|;
      }
    }
  }

  /** The span, language and target facts that make a review of a drawing complete. */
  ghost predicate CompleteReview(u: Alphabet, rs: seq<TextRecord>, ds: seq<Decision>, byId: Decisions) {
    && |ds| == |AllSpans(u, rs)|
    && byId.Keys == SpanIdsOf(AllSpans(u, rs))
    && (forall d :: d in ds ==> d.spanId in byId && byId[d.spanId] == d)
    && (forall t :: t in AllSpans(u, rs) ==>
          && t.id in byId
          && byId[t.id].source == t.text
          && byId[t.id].language != Uncertain
          && (byId[t.id].target != t.text <==> byId[t.id].language == Turkish))
  }

  /** Among accepted decisions, "every span is decided" is the same as "the review is complete". */
  lemma DecidedMeansComplete(u: Alphabet, rs: seq<TextRecord>, ds: seq<Decision>, byId: Decisions)
    requires UniqueIds(rs) && byId == ById(ds) && |byId| == |ds|
    requires DecisionsFit(u, AllSpans(u, rs), byId) && byId.Keys <= SpanIdsOf(AllSpans(u, rs))
    ensures (forall t :: t in AllSpans(u, rs) ==> Decided(byId, t)) <==> CompleteReview(u, rs, ds, byId)
  {
    hide Parts, AllSpans;
    var spans := AllSpans(u, rs);
    ByIdMembers(ds);
    AllSpansDistinct(u, rs);
    DistinctCount(spans);
    assert |byId.Keys| == |byId|;
    if forall t :: t in spans ==> Decided(byId, t) {
      assert SpanIdsOf(spans) <= byId.Keys;
      forall t | t in spans
        ensures byId[t.id].source == t.text && (byId[t.id].target != t.text <==> byId[t.id].language == Turkish)
      {
        assert Decided(byId, t);
        assert DecisionError(u, t.text, byId[t.id]).None?;
      }
      assert byId.Keys == SpanIdsOf(spans);
      assert forall d :: d in ds ==> d.spanId in byId && byId[d.spanId] == d;
    }
  }

  lemma AllRecordsReady(u: Alphabet, rs: seq<TextRecord>, byId: Decisions)
    ensures (forall r :: r in rs ==> RecordReady(u, r, byId))
      <==> && (forall t :: t in AllSpans(u, rs) ==> Decided(byId, t))
           && (forall r :: r in rs ==> Parts(u, r.raw).Ok? && (PatchedText(u, r, byId) != r.raw ==> r.writable))
  {
    hide Parts, AllSpans, RecordSpans, PatchedText, Decided;
    SpansOfRecords(u, rs);
  }

  /**
   Ready means complete. For unique record ids an accepted plan is ready exactly when the
   inspection found no blocker, every record lexes, every changed record is writable, and the
   decisions are one per inventory span, none uncertain, with exactly the Turkish spans changed.
   */
  lemma ReadyMeansComplete(
      u: Alphabet, path: string, fingerprint: Fingerprint, snapshot: Snapshot,
      expectedId: InventoryId, ds: seq<Decision>)
    requires UniqueIds(snapshot.records)
    requires BuildPlan(u, path, fingerprint, snapshot, expectedId, ds).Ok?
    ensures var rs, byId := snapshot.records, ById(ds);
            var plan := BuildPlan(u, path, fingerprint, snapshot, expectedId, ds).value;
            && (plan.ready <==>
                  && snapshot.blockers == {}
                  && CompleteReview(u, rs, ds, byId)
                  && forall r :: r in rs ==>
                       Parts(u, r.raw).Ok? && (PatchedText(u, r, byId) != r.raw ==> r.writable))
            && (plan.ready ==> plan.reviewedSpans == |AllSpans(u, rs)|)
  {
    hide Parts, PatchedText, CompleteReview, RecordReady, AllSpans, RecordsError, RecordsBlockers, ById;
    var rs, byId := snapshot.records, ById(ds);
    RecordsReady(u, rs, byId);
    RecordsAccepted(u, rs, byId);
    AllRecordsReady(u, rs, byId);
    assert forall key :: key in byId.Keys ==> key !in byId.Keys - SpanIdsOf(AllSpans(u, rs));
    DecidedMeansComplete(u, rs, ds, byId);
    if CompleteReview(u, rs, ds, byId) {
      CompleteCount(u, rs, ds, byId);
    }
  }

  lemma CompleteCount(u: Alphabet, rs: seq<TextRecord>, ds: seq<Decision>, byId: Decisions)
    requires CompleteReview(u, rs, ds, byId)
    ensures |ds| == |AllSpans(u, rs)|
  {
  }

  /** The inventory is the union of the records' spans. */
  lemma {:induction false} SpansOfRecords(u: Alphabet, rs: seq<TextRecord>)
    ensures forall t :: t in AllSpans(u, rs) <==> exists r :: r in rs && t in RecordSpans(u, r)
  {
    hide RecordSpans;
    if rs != [] {
      SpansOfRecords(u, rs[1..]);
      assert rs == [rs[0]] + rs[1..];
    }
  }

  /* ------------------------------------------------------------ merged decisions */

  /** Every decision in `m` is a decision of `a` or of `b`. */
  ghost predicate DrawnFrom(m: Decisions, a: Decisions, b: Decisions) {
    forall key :: key in m ==> (key in a && m[key] == a[key]) || (key in b && m[key] == b[key])
  }

  /**
   Merging accepted decisions: whatever mixture of two accepted decision maps is submitted, the
   records accept it too, or only a record's length limit speaks against it.
   */
  lemma MergedAccepted(u: Alphabet, rs: seq<TextRecord>, m: Decisions, a: Decisions, b: Decisions)
    requires RecordsError(u, rs, a).None? && RecordsError(u, rs, b).None? && DrawnFrom(m, a, b)
    requires a.Keys + b.Keys <= SpanIdsOf(AllSpans(u, rs))
    ensures RecordsError(u, rs, m).None? || RecordsError(u, rs, m) == Some(RecordTooLong)
    ensures m.Keys <= SpanIdsOf(AllSpans(u, rs))
  {
    hide Parts, AllSpans, RecordsError, PatchedText, DecisionError;
    RecordsAccepted(u, rs, a);
    RecordsAccepted(u, rs, b);
    RecordsAccepted(u, rs, m);
    forall key | key in m ensures key in SpanIdsOf(AllSpans(u, rs)) {
      assert key in a.Keys + b.Keys;
    }
  }

  /* ------------------------------------------------------------ the patched record, lexed again */

  lemma PatchRevises(u: Alphabet, r: TextRecord, byId: Decisions)
    requires Parts(u, r.raw).Ok? && DecisionsFit(u, RecordSpans(u, r), byId)
    ensures Revises(u, Parts(u, r.raw).value, PatchedPieces(u, r.id, Parts(u, r.raw).value, 0, byId))
  {
    var ps := Parts(u, r.raw).value;
    var qs := PatchedPieces(u, r.id, ps, 0, byId);
    hide Parts;
    forall k | 0 <= k < |ps| && qs[k] != ps[k]
      ensures ps[k].editable && qs[k].editable && Admissible(u, qs[k].text)
    {
      SpansFromMembers(u, r.id, ps, 0, TextSpan(SpanId(r.id, k), Decoded(ps[k].text)));
    }
  }

  /**
   The plan and the lexer agree about a changed record: lexing the patched text gives the
   original pieces with exactly the reviewed targets in place, if and only if no target brings
   a stray sign or a stray semicolon.
   */
  lemma PatchedRecordRelexes(u: Alphabet, rs: seq<TextRecord>, r: TextRecord, byId: Decisions)
    requires u.Coherent() && RecordsError(u, rs, byId).None? && r in rs && Parts(u, r.raw).Ok?
    ensures var ps := Parts(u, r.raw).value;
            var qs := PatchedPieces(u, r.id, ps, 0, byId);
            Parts(u, PatchedText(u, r, byId)) == Ok(qs) <==> NoStraySign(u, ps, qs) && NoStraySemicolon(ps, qs)
  {
    RecordsAccepted(u, rs, byId);
    SpansOfRecords(u, rs);
    PatchRevises(u, r, byId);
    RelexStable(u, r.raw, PatchedPieces(u, r.id, Parts(u, r.raw).value, 0, byId));
  }

  lemma {:induction false} DecodedPlain(s: Text)
    requires BACKSLASH !in s
    ensures Decoded(s) == s
  {
    if s != [] {
      assert s[0] in s && forall c :: c in s[1..] ==> c in s;
      DecodedPlain(s[1..]);
    }
  }

  /** The spans with every text replaced by its decided target. */
  function Translated(spans: seq<TextSpan>, byId: Decisions): (ts: seq<TextSpan>)
    requires forall t :: t in spans ==> t.id in byId
    ensures |ts| == |spans|
  {
    if spans == [] then []
    else [TextSpan(spans[0].id, byId[spans[0].id].target)] + Translated(spans[1..], byId)
  }

  lemma PieceReviewedAgain(u: Alphabet, id: string, k: nat, p: Piece, byId: Decisions)
    requires Reviewable(u, p) ==>
      SpanId(id, k) in byId && DecisionError(u, Decoded(p.text), byId[SpanId(id, k)]).None?
    ensures var q := PatchedPiece(u, id, k, p, byId);
            && Reviewable(u, q) == Reviewable(u, p)
            && (Reviewable(u, p) ==> Decoded(q.text) == byId[SpanId(id, k)].target)
  {
    hide Parts;
    if Reviewable(u, p) && byId[SpanId(id, k)].target != Decoded(p.text) {
      DecodedPlain(byId[SpanId(id, k)].target);
    }
  }

  lemma {:induction false} ReviewedAgain(u: Alphabet, id: string, ps: seq<Piece>, index: nat, byId: Decisions)
    requires index <= |ps|
    requires DecisionsFit(u, SpansFrom(u, id, ps, index), byId)
    requires forall t :: t in SpansFrom(u, id, ps, index) ==> t.id in byId
    ensures SpansFrom(u, id, PatchedPieces(u, id, ps, 0, byId), index)
         == Translated(SpansFrom(u, id, ps, index), byId)
    decreases |ps| - index
  {
    if index < |ps| {
      hide DecisionError, Decoded, Reviewable, PatchedPiece;
      var t := TextSpan(SpanId(id, index), Decoded(ps[index].text));
      var rest := SpansFrom(u, id, ps, index + 1);
      assert SpansFrom(u, id, ps, index) == (if Reviewable(u, ps[index]) then [t] else []) + rest;
      assert forall s :: s in rest ==> s in SpansFrom(u, id, ps, index);
      ReviewedAgain(u, id, ps, index + 1, byId);
      assert Reviewable(u, ps[index]) ==> t in SpansFrom(u, id, ps, index);
      PieceReviewedAgain(u, id, index, ps[index], byId);
      if !Reviewable(u, ps[index]) {
        assert [] + rest == rest;
      }
    }
  }

  /**
   A second review of a completely reviewed record finds the same span ids in the same order,
   and each span now reads exactly its approved target.
   */
  lemma SecondReview(u: Alphabet, rs: seq<TextRecord>, r: TextRecord, byId: Decisions)
    requires u.Coherent() && RecordsError(u, rs, byId).None? && r in rs && Parts(u, r.raw).Ok?
    requires forall t :: t in RecordSpans(u, r) ==> t.id in byId
    requires var ps := Parts(u, r.raw).value;
             var qs := PatchedPieces(u, r.id, ps, 0, byId);
             NoStraySign(u, ps, qs) && NoStraySemicolon(ps, qs)
    ensures RecordSpans(u, r.(raw := PatchedText(u, r, byId))) == Translated(RecordSpans(u, r), byId)
  {
    RecordsAccepted(u, rs, byId);
    SpansOfRecords(u, rs);
    PatchedRecordRelexes(u, rs, r, byId);
    ReviewedAgain(u, r.id, Parts(u, r.raw).value, 0, byId);
  }

  /* ------------------------------------------------------------ the expected drawing */

  /** The records with every text patched, and nothing else touched. */
  function PatchedRecords(u: Alphabet, rs: seq<TextRecord>, byId: Decisions): (out: seq<TextRecord>)
    ensures |out| == |rs|
    ensures forall i :: 0 <= i < |rs| ==> out[i] == rs[i].(raw := PatchedText(u, rs[i], byId))
  {
    if rs == [] then [] else [rs[0].(raw := PatchedText(u, rs[0], byId))] + PatchedRecords(u, rs[1..], byId)
  }

  /** The last change to a record decides its text. */
  function RawAfter(r: TextRecord, changes: seq<TextChange>): Text {
    if changes == [] then r.raw
    else
      var last := changes[|changes| - 1];
      if last.recordId == r.id then last.after else RawAfter(r, changes[..|changes| - 1])
  }

  lemma {:induction false} RawAfterAppend(r: TextRecord, a: seq<TextChange>, b: seq<TextChange>)
    ensures RawAfter(r, a + b) == RawAfter(r.(raw := RawAfter(r, a)), b)
  {
    if b == [] {
      assert a + b == a;
    } else {
      assert (a + b)[..|a + b| - 1] == a + b[..|b| - 1];
      RawAfterAppend(r, a, b[..|b| - 1]);
    }
  }

  lemma {:induction false} OtherChanges(u: Alphabet, r: TextRecord, rs: seq<TextRecord>, byId: Decisions)
    requires forall i :: 0 <= i < |rs| ==> rs[i].id != r.id
    ensures RawAfter(r, RecordsChanges(u, rs, byId)) == r.raw
  {
    if rs != [] {
      RawAfterAppend(r, RecordChanges(u, rs[0], byId), RecordsChanges(u, rs[1..], byId));
      OtherChanges(u, r, rs[1..], byId);
    }
  }

  /** The plan's change list patches each record of unique id exactly as the plan says. */
  lemma {:induction false} ChangesPatch(u: Alphabet, rs: seq<TextRecord>, byId: Decisions, i: nat)
    requires UniqueIds(rs) && i < |rs|
    ensures RawAfter(rs[i], RecordsChanges(u, rs, byId)) == PatchedText(u, rs[i], byId)
  {
    hide PatchedText;
    var r := rs[i];
    RawAfterAppend(r, RecordChanges(u, rs[0], byId), RecordsChanges(u, rs[1..], byId));
    if i == 0 {
      OtherChanges(u, r.(raw := PatchedText(u, r, byId)), rs[1..], byId);
    } else {
      assert RawAfter(r, RecordChanges(u, rs[0], byId)) == r.raw;
      assert rs[1..][i - 1] == r;
      ChangesPatch(u, rs[1..], byId, i - 1);
    }
  }
}
