/**
 What a plan accepts, in the characters of the texts: which targets may replace a span, and which
 error a decision gets that breaks a rule.
 */
module DecisionTheorems {
  import opened Wrappers
  import opened Characters
  import opened MtextLexer
  import opened MtextRelex
  import opened SpanIds
  import opened TranslationPlan
  import opened PlanTheorems
  import opened TranslationStore
  import ReviewTheorems
  import opened ReviewOrder

  /* ------------------------------------------------------------ spans */

  /** What must be reviewed of a record: the decoded text of every editable piece with a letter in it, under its place in the record. */
  ghost predicate MustBeReviewed(u: Alphabet, r: TextRecord, t: TextSpan, k: nat) {
    && Parts(u, r.raw).Ok? && k < |Parts(u, r.raw).value|
    && var p := Parts(u, r.raw).value[k];
       && p.editable && t.text == Decoded(p.text) && t.id == SpanId(r.id, k)
       && exists i :: 0 <= i < |t.text| && u.alpha(t.text[i])
  }

  lemma {:induction false} SpansFromMean(u: Alphabet, id: string, ps: seq<Piece>, k: nat, t: TextSpan)
    requires k <= |ps|
    ensures t in SpansFrom(u, id, ps, k) <==>
      exists j :: k <= j < |ps| && ps[j].editable && u.AnyAlpha(Decoded(ps[j].text)) && t == TextSpan(SpanId(id, j), Decoded(ps[j].text))
    decreases |ps| - k
  {
    hide SpanId, Decoded, Alphabet.AnyAlpha;
    if k < |ps| {
      SpansFromMean(u, id, ps, k + 1, t);
    }
  }

  /** The spans of a record are exactly those. */
  lemma SpansMean(u: Alphabet, r: TextRecord, t: TextSpan)
    ensures t in RecordSpans(u, r) <==> exists k :: MustBeReviewed(u, r, t, k)
  {
    if Parts(u, r.raw).Ok? {
      var ps := Parts(u, r.raw).value;
      SpansFromMean(u, r.id, ps, 0, t);
      hide Parts, SpansFrom, SpanId, Decoded;
      if j :| 0 <= j < |ps| && ps[j].editable && u.AnyAlpha(Decoded(ps[j].text)) && t == TextSpan(SpanId(r.id, j), Decoded(ps[j].text)) {
        assert MustBeReviewed(u, r, t, j);
      }
    }
  }

  /* ------------------------------------------------------------ white space */

  /** The first `n` code points are all the white space that `t` starts with. */
  predicate LeadingRun(u: Alphabet, t: Text, n: nat) {
    && n <= |t| && (forall i :: 0 <= i < n ==> u.space(t[i]))
    && (n < |t| ==> !u.space(t[n]))
  }

  predicate TrailingRun(u: Alphabet, t: Text, n: nat) {
    && n <= |t| && (forall i :: |t| - n <= i < |t| ==> u.space(t[i]))
    && (n < |t| ==> !u.space(t[|t| - n - 1]))
  }

  function Suffix(t: Text, n: nat): Text
    requires n <= |t|
  {
    t[|t| - n..]
  }

  predicate SameLeading(u: Alphabet, s: Text, t: Text, n: nat) {
    LeadingRun(u, s, n) && LeadingRun(u, t, n) && s[..n] == t[..n]
  }

  predicate SameTrailing(u: Alphabet, s: Text, t: Text, n: nat) {
    TrailingRun(u, s, n) && TrailingRun(u, t, n) && Suffix(s, n) == Suffix(t, n)
  }

  /** Both texts start with the same white space and end with the same white space. */
  predicate SameEdges(u: Alphabet, s: Text, t: Text) {
    (exists n :: 0 <= n <= |s| && SameLeading(u, s, t, n)) && (exists n :: 0 <= n <= |s| && SameTrailing(u, s, t, n))
  }

  lemma {:induction false} LeadingIs(u: Alphabet, t: Text)
    ensures var n := |u.LeadingSpace(t)|; LeadingRun(u, t, n) && u.LeadingSpace(t) == t[..n]
  {
    if t != [] && u.space(t[0]) {
      LeadingIs(u, t[1..]);
      var n := |u.LeadingSpace(t[1..])|;
      assert t[..n + 1] == [t[0]] + t[1..][..n];
      assert forall i :: 1 <= i < n + 1 ==> t[i] == t[1..][i - 1];
    }
  }

  lemma {:induction false} TrailingIs(u: Alphabet, t: Text)
    ensures var n := |u.TrailingSpace(t)|; n <= |t| && TrailingRun(u, t, n) && u.TrailingSpace(t) == Suffix(t, n)
  {
    var m := |t|;
    if m > 0 && u.space(t[m - 1]) {
      TrailingIs(u, t[..m - 1]);
      var n := |u.TrailingSpace(t[..m - 1])|;
      assert t[m - n - 1..] == t[..m - 1][m - 1 - n..] + [t[m - 1]];
    }
  }

  lemma OneLeadingRun(u: Alphabet, t: Text, n: nat, k: nat)
    requires LeadingRun(u, t, n) && LeadingRun(u, t, k)
    ensures n == k
  {
  }

  lemma OneTrailingRun(u: Alphabet, t: Text, n: nat, k: nat)
    requires TrailingRun(u, t, n) && TrailingRun(u, t, k)
    ensures n == k
  {
  }

  lemma LeadingMeans(u: Alphabet, s: Text, t: Text)
    ensures u.LeadingSpace(s) == u.LeadingSpace(t) <==> exists n :: 0 <= n <= |s| && SameLeading(u, s, t, n)
  {
    LeadingIs(u, s);
    LeadingIs(u, t);
    hide LeadingRun, Alphabet.LeadingSpace;
    var k := |u.LeadingSpace(s)|;
    if n :| 0 <= n <= |s| && SameLeading(u, s, t, n) {
      OneLeadingRun(u, s, n, k);
      OneLeadingRun(u, t, n, |u.LeadingSpace(t)|);
    }
    if u.LeadingSpace(s) == u.LeadingSpace(t) {
      assert SameLeading(u, s, t, k);
    }
  }

  lemma TrailingForced(u: Alphabet, s: Text, t: Text, n: nat)
    requires SameTrailing(u, s, t, n)
    ensures u.TrailingSpace(s) == u.TrailingSpace(t)
  {
    TrailingIs(u, s);
    TrailingIs(u, t);
    hide Suffix, Alphabet.TrailingSpace;
    assert n <= |s| && n <= |t|;
    hide TrailingRun;
    OneTrailingRun(u, s, n, |u.TrailingSpace(s)|);
    OneTrailingRun(u, t, n, |u.TrailingSpace(t)|);
  }

  lemma TrailingFound(u: Alphabet, s: Text, t: Text)
    requires u.TrailingSpace(s) == u.TrailingSpace(t)
    ensures |u.TrailingSpace(s)| <= |s| && SameTrailing(u, s, t, |u.TrailingSpace(s)|)
  {
    TrailingIs(u, s);
    TrailingIs(u, t);
    hide TrailingRun, Suffix, Alphabet.TrailingSpace;
  }

  lemma TrailingMeans(u: Alphabet, s: Text, t: Text)
    ensures u.TrailingSpace(s) == u.TrailingSpace(t) <==> exists n :: 0 <= n <= |s| && SameTrailing(u, s, t, n)
  {
    hide *;
    if n :| 0 <= n <= |s| && SameTrailing(u, s, t, n) {
      TrailingForced(u, s, t, n);
    }
    if u.TrailingSpace(s) == u.TrailingSpace(t) {
      TrailingFound(u, s, t);
    }
  }

  lemma EdgesMean(u: Alphabet, s: Text, t: Text)
    ensures u.WhitespaceEdges(s) == u.WhitespaceEdges(t) <==> SameEdges(u, s, t)
  {
    LeadingMeans(u, s, t);
    TrailingMeans(u, s, t);
    hide SameLeading, SameTrailing, Alphabet.LeadingSpace, Alphabet.TrailingSpace;
  }

  /* ------------------------------------------------------------ targets */

  /** No percent sign, backslash or numeric code, and the lexer sees one editable piece. */
  predicate NoControls(u: Alphabet, target: Text) {
    && Parts(u, target) == Ok([Piece(true, target)])
    && forall i :: 0 <= i < |target| ==> target[i] != '%' as int && target[i] != '\\' as int && !u.numeric(target[i])
  }

  predicate HasLetter(u: Alphabet, target: Text) {
    exists i :: 0 <= i < |target| && u.alpha(target[i])
  }

  predicate NoControlCodes(target: Text) {
    forall i :: 0 <= i < |target| ==> 32 <= target[i] && target[i] != 127
  }

  /** Pieces that are all editable are one piece. */
  lemma EditableIsOne(u: Alphabet, t: Text)
    requires t != []
    ensures Parts(u, t) == Ok([Piece(true, t)])
      <==> Parts(u, t).Ok? && forall p :: p in Parts(u, t).value ==> p.editable
  {
    if Parts(u, t).Ok? && forall p :: p in Parts(u, t).value ==> p.editable {
      FirstPiece(u, t);
      PartsSpell(u, t);
      hide Parts, LexStep, EditRun, Concat;
      OnePiece(Parts(u, t).value, t);
    }
  }

  lemma OnePiece(ps: seq<Piece>, t: Text)
    requires ps != [] && (forall p :: p in ps ==> p.editable) && !StartsEditable(ps[1..]) && Concat(ps) == t
    ensures ps == [Piece(true, t)]
  {
    assert forall i :: 0 <= i < |ps| ==> ps[i] in ps;
    assert ps[0].text + [] == ps[0].text;
  }

  /* ------------------------------------------------------------ decisions */

  /** A decision about a span that reads `text` may stand. */
  predicate MayStand(u: Alphabet, text: Text, d: Decision) {
    && d.source == text
    && (d.target != text ==>
          && d.language == Turkish && NoControls(u, d.target) && HasLetter(u, d.target) && NoControlCodes(d.target)
          && SameEdges(u, text, d.target))
  }

  /** The first rule that a decision breaks, with the rules in the order of the plan. */
  predicate BrokenRule(u: Alphabet, text: Text, d: Decision, e: PlanError) {
    if d.source != text then e == SourceMismatch
    else
      && d.target != text
      && if d.language != Turkish then e == NotTurkish
         else if !NoControls(u, d.target) && d.target != [] then e == ControlOrNumber
         else if !HasLetter(u, d.target) then e == NoReplacementText
         else if !NoControlCodes(d.target) then e == ControlCharacter
         else !SameEdges(u, text, d.target) && e == WhitespaceChanged
  }

  lemma TargetChecks(u: Alphabet, target: Text)
    ensures u.AnyAlpha(target) <==> HasLetter(u, target)
    ensures HasControlCharacter(target) <==> !NoControlCodes(target)
    ensures target != [] ==>
      (NoControls(u, target) <==>
         && Parts(u, target).Ok? && (forall p :: p in Parts(u, target).value ==> p.editable)
         && PERCENT !in target && BACKSLASH !in target && !u.AnyNumeric(target))
    ensures target == [] ==> Parts(u, target) == Ok([]) && !HasLetter(u, target) && !u.AnyNumeric(target)
  {
    if target != [] {
      EditableIsOne(u, target);
    }
    hide Parts;
  }

  /** A decision may stand exactly when the plan raises nothing about it, and otherwise it raises the first broken rule. */
  lemma DecisionMeans(u: Alphabet, text: Text, d: Decision)
    ensures DecisionError(u, text, d).None? <==> MayStand(u, text, d)
    ensures DecisionError(u, text, d).Some? ==> BrokenRule(u, text, d, DecisionError(u, text, d).value)
  {
    TargetChecks(u, d.target);
    EdgesMean(u, text, d.target);
    hide Parts, SameEdges, NoControls, HasLetter, NoControlCodes, Alphabet.AnyAlpha, Alphabet.AnyNumeric, HasControlCharacter,
      Alphabet.WhitespaceEdges;
  }

  /* ------------------------------------------------------------ whole plans */

  ghost predicate EachOnce(ds: seq<Decision>) {
    forall i, j :: 0 <= i < j < |ds| ==> ds[i].spanId != ds[j].spanId
  }

  lemma Listed(ds: seq<Decision>, key: string)
    ensures key in ById(ds) <==> exists i :: 0 <= i < |ds| && ds[i].spanId == key
  {
    ByIdMembers(ds);
    hide ById;
    if key in ById(ds) {
      assert ById(ds)[key] in ds;
    }
  }

  lemma OnceAppend(init: seq<Decision>, last: Decision)
    ensures EachOnce(init + [last]) <==> EachOnce(init) && !exists i :: 0 <= i < |init| && init[i].spanId == last.spanId
  {
    var ds := init + [last];
    assert ds[|init|] == last && forall i :: 0 <= i < |init| ==> ds[i] == init[i];
  }

  lemma {:induction false} OnceMeans(ds: seq<Decision>)
    ensures |ById(ds)| == |ds| <==> EachOnce(ds)
  {
    if ds != [] {
      var init, last := ds[..|ds| - 1], ds[|ds| - 1];
      assert ds == init + [last];
      OnceMeans(init);
      ByIdMembers(init);
      Listed(init, last.spanId);
      ReviewTheorems.ByIdGrows(init, last);
      OnceAppend(init, last);
      hide ById, EachOnce;
    }
  }

  /** The decision is about a span of the drawing, and may stand for its text. */
  ghost predicate Reviews(u: Alphabet, spans: seq<TextSpan>, d: Decision) {
    && (exists t :: t in spans && t.id == d.spanId)
    && forall t :: t in spans && t.id == d.spanId ==> MayStand(u, t.text, d)
  }

  lemma ReviewsMean(u: Alphabet, scan: Scan, d: Decision)
    ensures DecisionFits(u, scan, d) <==> Reviews(u, AllSpans(u, scan.snapshot.records), d)
  {
    hide AllSpans, DecisionError, MayStand;
    var spans := AllSpans(u, scan.snapshot.records);
    forall t | t in spans ensures DecisionError(u, t.text, d).None? <==> MayStand(u, t.text, d) {
      DecisionMeans(u, t.text, d);
    }
  }

  /**
   A plan is built exactly when the drawing is the reviewed one, no span is decided twice, every decision
   reviews a span, and the length limits hold.
   */
  lemma PlanAccepts(env: Environment, scan: Scan, expected: InventoryId, ds: seq<Decision>)
    ensures BuildPlan(env.u, scan.path, scan.fingerprint, scan.snapshot, expected, ds).Ok? <==>
      && expected == InventoryId(scan.path, scan.fingerprint, scan.snapshot)
      && EachOnce(ds) && PayloadSize(ds) <= 4_000_000 && RecordsShort(env.u, scan, ds)
      && forall d :: d in ds ==> Reviews(env.u, AllSpans(env.u, scan.snapshot.records), d)
  {
    BatchAccepted(env, scan, ds);
    OnceMeans(ds);
    forall d | d in ds ensures DecisionFits(env.u, scan, d) <==> Reviews(env.u, AllSpans(env.u, scan.snapshot.records), d) {
      ReviewsMean(env.u, scan, d);
    }
    hide AllSpans, ById, RecordsShort, DecisionFits, Reviews, PayloadSize, EachOnce, RecordsError, RecordsBlockers, RecordsChanges;
  }

  /* ------------------------------------------------------------ why a plan is refused */

  /** Some span is decided against the rule that raises `e`. */
  ghost predicate SomeBroken(u: Alphabet, spans: seq<TextSpan>, byId: Decisions, e: PlanError) {
    exists t :: t in spans && t.id in byId && BrokenRule(u, t.text, byId[t.id], e)
  }

  ghost predicate SomeTooLong(u: Alphabet, rs: seq<TextRecord>, byId: Decisions) {
    exists r :: r in rs && |PatchedText(u, r, byId)| > 32_000
  }

  lemma {:induction false} PiecesReason(u: Alphabet, id: string, ps: seq<Piece>, k: nat, byId: Decisions)
    requires k <= |ps| && PiecesError(u, id, ps, k, byId).Some?
    ensures SomeBroken(u, SpansFrom(u, id, ps, k), byId, PiecesError(u, id, ps, k, byId).value)
    decreases |ps| - k
  {
    hide DecisionError, BrokenRule;
    var p := ps[k];
    if PieceError(u, id, k, p, byId).Some? {
      var t := TextSpan(SpanId(id, k), Decoded(p.text));
      DecisionMeans(u, t.text, byId[t.id]);
      assert t in SpansFrom(u, id, ps, k);
    } else {
      PiecesReason(u, id, ps, k + 1, byId);
      var e := PiecesError(u, id, ps, k, byId).value;
      var t :| t in SpansFrom(u, id, ps, k + 1) && t.id in byId && BrokenRule(u, t.text, byId[t.id], e);
      assert t in SpansFrom(u, id, ps, k);
    }
  }

  lemma {:induction false} RecordsReason(u: Alphabet, rs: seq<TextRecord>, byId: Decisions)
    requires RecordsError(u, rs, byId).Some?
    ensures var e := RecordsError(u, rs, byId).value;
            SomeBroken(u, AllSpans(u, rs), byId, e) || (e == RecordTooLong && SomeTooLong(u, rs, byId))
  {
    hide BrokenRule, PatchedText, PiecesError, SpansFrom, Parts;
    var r := rs[0];
    var e := RecordsError(u, rs, byId).value;
    assert r in rs && AllSpans(u, rs) == RecordSpans(u, r) + AllSpans(u, rs[1..]);
    if RecordError(u, r, byId).Some? {
      if PiecesError(u, r.id, Parts(u, r.raw).value, 0, byId).Some? {
        PiecesReason(u, r.id, Parts(u, r.raw).value, 0, byId);
      }
    } else {
      RecordsReason(u, rs[1..], byId);
      assert forall x :: x in rs[1..] ==> x in rs;
    }
  }

  /** Every refusal names its reason. */
  lemma RefusalReason(env: Environment, scan: Scan, expected: InventoryId, ds: seq<Decision>)
    requires BuildPlan(env.u, scan.path, scan.fingerprint, scan.snapshot, expected, ds).Err?
    ensures var e := BuildPlan(env.u, scan.path, scan.fingerprint, scan.snapshot, expected, ds).error;
            var spans := AllSpans(env.u, scan.snapshot.records);
            if expected != InventoryId(scan.path, scan.fingerprint, scan.snapshot) then e == InventoryChanged
            else if !EachOnce(ds) then e == DuplicateDecisions
            else if PayloadSize(ds) > 4_000_000 then e == PayloadTooLarge
            else
              || SomeBroken(env.u, spans, ById(ds), e)
              || (e == RecordTooLong && SomeTooLong(env.u, scan.snapshot.records, ById(ds)))
              || (e == UnknownSpans && exists d :: d in ds && forall t :: t in spans ==> t.id != d.spanId)
  {
    var rs, byId := scan.snapshot.records, ById(ds);
    OnceMeans(ds);
    ByIdMembers(ds);
    if RecordsError(env.u, rs, byId).Some? {
      RecordsReason(env.u, rs, byId);
    }
    hide AllSpans, ById, SomeBroken, SomeTooLong, PayloadSize, EachOnce, RecordsError, RecordsBlockers, RecordsChanges;
    if byId.Keys - SpanIdsOf(AllSpans(env.u, rs)) != {} {
      var key :| key in byId.Keys - SpanIdsOf(AllSpans(env.u, rs));
      assert byId[key] in ds;
    }
  }

  /** A single decision about a span that breaks a rule is refused with the first rule it breaks, unless some record was too long before it. */
  lemma OneRefusal(env: Environment, scan: Scan, d: Decision, text: Text)
    requires PayloadSize([d]) <= 4_000_000 && !MayStand(env.u, text, d)
    requires exists t :: t in AllSpans(env.u, scan.snapshot.records) && t.id == d.spanId
    requires forall t :: t in AllSpans(env.u, scan.snapshot.records) && t.id == d.spanId ==> t.text == text
    ensures var plan := BuildPlan(env.u, scan.path, scan.fingerprint, scan.snapshot, InventoryOf(scan), [d]);
            && plan.Err?
            && (|| BrokenRule(env.u, text, d, plan.error)
                || (plan.error == RecordTooLong && SomeTooLong(env.u, scan.snapshot.records, map[d.spanId := d])))
  {
    assert [d][..0] == [] && ById([]) == map[];
    assert ById([d]) == map[d.spanId := d];
    assert d in [d] && EachOnce([d]);
    PlanAccepts(env, scan, InventoryOf(scan), [d]);
    hide AllSpans, ById, PayloadSize, BuildPlan, MayStand, BrokenRule, RecordsShort, SomeTooLong;
    RefusalReason(env, scan, InventoryOf(scan), [d]);
  }
}
