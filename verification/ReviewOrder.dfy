/**
 Confluence of review submissions: which runs of batches are accepted, and that the stored review
 depends on the submitted decisions and not on their order or on how they are cut into batches.
 */
module ReviewOrder {
  import opened Wrappers
  import opened Characters
  import opened MtextLexer
  import opened TranslationPlan
  import opened PlanTheorems
  import opened TranslationStore
  import opened ReviewTheorems

  function InventoryOf(scan: Scan): InventoryId {
    InventoryId(scan.path, scan.fingerprint, scan.snapshot)
  }

  /** What is stored about the scanned drawing. */
  function Stored(reviews: Reviews, scope: Scope, scan: Scan): Decisions {
    Current(reviews, scope, InventoryOf(scan))
  }

  /** A run of submissions that stops at the first refusal. */
  function SubmitAll(env: Environment, reviews: Reviews, scope: Scope, scan: Scan, requests: seq<SubmitRequest>)
    : Result<Reviews, StoreError>
  {
    if requests == [] then Ok(reviews)
    else
      match SubmitAll(env, reviews, scope, scan, requests[..|requests| - 1])
      case Err(e) => Err(e)
      case Ok(before) =>
        var last := requests[|requests| - 1];
        match MergedReview(env, before, scope, scan, last)
        case Err(e) => Err(e)
        case Ok(merged) => Ok(before[(scope, last.inventory) := merged])
  }

  ghost predicate About(scan: Scan, requests: seq<SubmitRequest>) {
    forall i :: 0 <= i < |requests| ==> requests[i].inventory == InventoryOf(scan)
  }

  ghost predicate Submitted(requests: seq<SubmitRequest>, d: Decision) {
    exists i :: 0 <= i < |requests| && d in requests[i].decisions
  }

  /** No two submitted decisions about the same span differ, and none differs from a stored one. */
  ghost predicate Consistent(start: Decisions, requests: seq<SubmitRequest>) {
    && (forall d, e :: Submitted(requests, d) && Submitted(requests, e) && d.spanId == e.spanId ==> d == e)
    && (forall d :: Submitted(requests, d) && d.spanId in start ==> start[d.spanId] == d)
  }

  /** All batches written over what was stored before. */
  function Gathered(start: Decisions, requests: seq<SubmitRequest>): Decisions {
    if requests == [] then start
    else Gathered(start, requests[..|requests| - 1]) + ById(requests[|requests| - 1].decisions)
  }

  function StoredAfter(reviews: Reviews, scope: Scope, scan: Scan, requests: seq<SubmitRequest>): Reviews {
    if requests == [] then reviews
    else reviews[(scope, InventoryOf(scan)) := Gathered(Stored(reviews, scope, scan), requests)]
  }

  /** The batch names the review that is stored, or repeats stored decisions. */
  predicate AtTurn(reviews: Reviews, scope: Scope, request: SubmitRequest) {
    || request.expected == PreviousId(reviews, scope, request.inventory)
    || ExactRetry(Current(reviews, scope, request.inventory), request.decisions)
  }

  /** Every batch names the review that the batches before it lead to, or repeats what they submitted. */
  ghost predicate InTurn(reviews: Reviews, scope: Scope, scan: Scan, requests: seq<SubmitRequest>) {
    forall i :: 0 <= i < |requests| ==> AtTurn(StoredAfter(reviews, scope, scan, requests[..i]), scope, requests[i])
  }

  /** The review is within both limits of the store. */
  predicate WithinLimits(env: Environment, m: Decisions) {
    |m| <= 100_000 && env.jsonLength(m) <= 8_388_608
  }

  ghost predicate Submap(m: Decisions, n: Decisions) {
    forall key :: key in m ==> key in n && n[key] == m[key]
  }

  /** More decisions have a longer JSON text. */
  ghost predicate Monotone(env: Environment) {
    forall m, n :: Submap(m, n) ==> env.jsonLength(m) <= env.jsonLength(n)
  }

  /* ------------------------------------------------------------ one batch */

  /** The decision is about a span of the drawing and passes its checks. */
  ghost predicate DecisionFits(u: Alphabet, scan: Scan, d: Decision) {
    var spans := AllSpans(u, scan.snapshot.records);
    && d.spanId in SpanIdsOf(spans)
    && forall t :: t in spans && t.id == d.spanId ==> DecisionError(u, t.text, d).None?
  }

  ghost predicate EachFits(u: Alphabet, scan: Scan, ds: seq<Decision>) {
    forall d :: d in ds ==> DecisionFits(u, scan, d)
  }

  ghost predicate RecordsShort(u: Alphabet, scan: Scan, ds: seq<Decision>) {
    forall r :: r in scan.snapshot.records && Parts(u, r.raw).Ok? ==> |PatchedText(u, r, ById(ds))| <= 32_000
  }

  /** No span twice, and within the limits of one batch. */
  ghost predicate BatchFits(u: Alphabet, scan: Scan, ds: seq<Decision>) {
    && |ById(ds)| == |ds|
    && PayloadSize(ds) <= 4_000_000
    && RecordsShort(u, scan, ds)
  }

  /** The batch is valid alone. */
  ghost predicate ValidBatch(u: Alphabet, scan: Scan, ds: seq<Decision>) {
    EachFits(u, scan, ds) && BatchFits(u, scan, ds)
  }

  ghost predicate EveryBatchFits(u: Alphabet, scan: Scan, requests: seq<SubmitRequest>) {
    forall i :: 0 <= i < |requests| ==> BatchFits(u, scan, requests[i].decisions)
  }

  ghost predicate EveryDecisionFits(u: Alphabet, scan: Scan, requests: seq<SubmitRequest>) {
    forall d :: Submitted(requests, d) ==> DecisionFits(u, scan, d)
  }

  function CheckBatch(env: Environment, scan: Scan, ds: seq<Decision>): Result<Plan, PlanError> {
    BuildPlan(env.u, scan.path, scan.fingerprint, scan.snapshot, InventoryOf(scan), ds)
  }

  lemma FitsEach(u: Alphabet, scan: Scan, ds: seq<Decision>)
    requires |ById(ds)| == |ds|
    ensures EachFits(u, scan, ds)
      <==> && ById(ds).Keys <= SpanIdsOf(AllSpans(u, scan.snapshot.records))
           && DecisionsFit(u, AllSpans(u, scan.snapshot.records), ById(ds))
  {
    hide AllSpans, ById, DecisionError;
    ByIdMembers(ds);
    var spans, byId := AllSpans(u, scan.snapshot.records), ById(ds);
    if EachFits(u, scan, ds) {
      forall key | key in byId.Keys ensures key in SpanIdsOf(spans) {
        assert DecisionFits(u, scan, byId[key]);
      }
      forall t | t in spans && t.id in byId ensures DecisionError(u, t.text, byId[t.id]).None? {
        assert DecisionFits(u, scan, byId[t.id]);
      }
    }
  }

  /** A batch is valid exactly when each decision fits and the batch does; fitting decisions are refused only for the batch. */
  lemma BatchAccepted(env: Environment, scan: Scan, ds: seq<Decision>)
    ensures CheckBatch(env, scan, ds).Ok? <==> ValidBatch(env.u, scan, ds)
    ensures EachFits(env.u, scan, ds) && CheckBatch(env, scan, ds).Err? ==>
      CheckBatch(env, scan, ds).error in {DuplicateDecisions, PayloadTooLarge, RecordTooLong}
  {
    hide AllSpans, RecordsError, DecisionsFit, ById, RecordsBlockers, PatchedText, PayloadSize, EachFits, Parts;
    var spans := AllSpans(env.u, scan.snapshot.records);
    RecordsAccepted(env.u, scan.snapshot.records, ById(ds));
    if |ById(ds)| == |ds| {
      FitsEach(env.u, scan, ds);
      EmptyDifference(ById(ds).Keys, SpanIdsOf(spans));
    }
  }

  lemma EmptyDifference(a: set<string>, b: set<string>)
    ensures a - b == {} <==> a <= b
  {
    if a - b == {} {
      forall x | x in a ensures x in b {
        assert x !in a - b;
      }
    }
  }

  /** A batch at its turn that is valid alone can only make the review too large. */
  lemma MergedExactly(env: Environment, reviews: Reviews, scope: Scope, scan: Scan, request: SubmitRequest)
    requires request.inventory == InventoryOf(scan)
    ensures var answer := MergedReview(env, reviews, scope, scan, request);
            var merged := Stored(reviews, scope, scan) + ById(request.decisions);
            var proper := ValidBatch(env.u, scan, request.decisions) && AtTurn(reviews, scope, request);
            && (answer.Ok? <==> proper && WithinLimits(env, merged))
            && (answer.Ok? ==> answer.value == merged)
            && (answer.Err? && proper ==> answer.error == ReviewTooLarge)
  {
    BatchAccepted(env, scan, request.decisions);
    hide BuildPlan, ById, ValidBatch;
  }

  /* ------------------------------------------------------------ what a run gathers */

  /** The map holds exactly the submitted decisions, and what was stored about other spans. */
  ghost predicate Holds(start: Decisions, m: Decisions, requests: seq<SubmitRequest>) {
    && (forall d :: Submitted(requests, d) ==> d.spanId in m && m[d.spanId] == d)
    && (forall key :: key in m ==> HasOrigin(start, requests, key, m[key]))
    && start.Keys <= m.Keys
  }

  ghost predicate HasOrigin(start: Decisions, requests: seq<SubmitRequest>, key: string, d: Decision) {
    (d.spanId == key && Submitted(requests, d)) || (key in start && start[key] == d)
  }

  ghost predicate NoDuplicates(requests: seq<SubmitRequest>) {
    forall i :: 0 <= i < |requests| ==> |ById(requests[i].decisions)| == |requests[i].decisions|
  }

  lemma SubmittedAppend(requests: seq<SubmitRequest>, last: SubmitRequest)
    ensures forall d :: Submitted(requests + [last], d) <==> Submitted(requests, d) || d in last.decisions
  {
    var longer := requests + [last];
    assert longer[|requests|] == last;
    assert forall i :: 0 <= i < |requests| ==> longer[i] == requests[i];
    forall d | Submitted(requests, d) ensures Submitted(longer, d) {
      var i :| 0 <= i < |requests| && d in requests[i].decisions;
      assert d in longer[i].decisions;
    }
  }

  lemma ConsistentPrefix(start: Decisions, requests: seq<SubmitRequest>, n: nat)
    requires Consistent(start, requests) && n <= |requests|
    ensures Consistent(start, requests[..n])
    ensures forall d :: Submitted(requests[..n], d) ==> Submitted(requests, d)
  {
    forall d | Submitted(requests[..n], d) ensures Submitted(requests, d) {
      var i :| 0 <= i < n && d in requests[..n][i].decisions;
      assert d in requests[i].decisions;
    }
    hide Submitted;
  }

  lemma HoldsMore(start: Decisions, m: Decisions, requests: seq<SubmitRequest>, last: SubmitRequest)
    requires Holds(start, m, requests) && Consistent(start, requests + [last])
    requires |ById(last.decisions)| == |last.decisions|
    ensures Holds(start, m + ById(last.decisions), requests + [last])
  {
    OriginsMore(start, m, requests, last);
    SubmittedKept(start, m, requests, last);
    assert start.Keys <= m.Keys;
    hide *;
    HoldsIs(start, m + ById(last.decisions), requests + [last]);
  }

  lemma HoldsIs(start: Decisions, m: Decisions, requests: seq<SubmitRequest>)
    requires forall d :: Submitted(requests, d) ==> d.spanId in m && m[d.spanId] == d
    requires forall key :: key in m ==> HasOrigin(start, requests, key, m[key])
    requires start.Keys <= m.Keys
    ensures Holds(start, m, requests)
  {
  }

  lemma OriginsMore(start: Decisions, m: Decisions, requests: seq<SubmitRequest>, last: SubmitRequest)
    requires Holds(start, m, requests)
    ensures forall key :: key in m + ById(last.decisions) ==>
      HasOrigin(start, requests + [last], key, (m + ById(last.decisions))[key])
  {
    ByIdMembers(last.decisions);
    SubmittedAppend(requests, last);
    hide ById, Submitted;
    forall key | key in m + ById(last.decisions)
      ensures HasOrigin(start, requests + [last], key, (m + ById(last.decisions))[key])
    {
      if key in ById(last.decisions) {
        assert ById(last.decisions)[key] in last.decisions;
      } else {
        assert HasOrigin(start, requests, key, m[key]);
      }
    }
  }

  lemma SubmittedKept(start: Decisions, m: Decisions, requests: seq<SubmitRequest>, last: SubmitRequest)
    requires Holds(start, m, requests) && Consistent(start, requests + [last])
    requires |ById(last.decisions)| == |last.decisions|
    ensures forall d :: Submitted(requests + [last], d) ==>
      d.spanId in m + ById(last.decisions) && (m + ById(last.decisions))[d.spanId] == d
  {
    ByIdMembers(last.decisions);
    SubmittedAppend(requests, last);
    hide ById, Submitted, Consistent, HasOrigin;
    forall d | Submitted(requests + [last], d)
      ensures d.spanId in m + ById(last.decisions) && (m + ById(last.decisions))[d.spanId] == d
    {
      KeptOrSame(start, m, ById(last.decisions), requests + [last], d);
    }
  }

  lemma KeptOrSame(start: Decisions, m: Decisions, batch: Decisions, requests: seq<SubmitRequest>, d: Decision)
    requires Consistent(start, requests) && Submitted(requests, d)
    requires forall key :: key in batch ==> batch[key].spanId == key && Submitted(requests, batch[key])
    requires d.spanId in batch || (d.spanId in m && m[d.spanId] == d)
    ensures d.spanId in m + batch && (m + batch)[d.spanId] == d
  {
    hide Submitted;
  }

  lemma {:induction false} GatheredIs(start: Decisions, requests: seq<SubmitRequest>)
    requires Consistent(start, requests) && NoDuplicates(requests)
    ensures Holds(start, Gathered(start, requests), requests)
  {
    hide ById;
    if requests != [] {
      var n := |requests| - 1;
      assert requests == requests[..n] + [requests[n]];
      ConsistentPrefix(start, requests, n);
      hide Consistent, Holds, Submitted;
      GatheredIs(start, requests[..n]);
      HoldsMore(start, Gathered(start, requests[..n]), requests[..n], requests[n]);
    } else {
      hide Consistent;
    }
  }

  /** The same decisions gather to the same map. */
  lemma SameGathered(start: Decisions, xs: seq<SubmitRequest>, ys: seq<SubmitRequest>)
    requires Consistent(start, xs) && NoDuplicates(xs) && NoDuplicates(ys)
    requires forall d :: Submitted(xs, d) <==> Submitted(ys, d)
    ensures Gathered(start, xs) == Gathered(start, ys)
  {
    hide Gathered, Submitted, NoDuplicates;
    assert Consistent(start, ys);
    GatheredIs(start, xs);
    GatheredIs(start, ys);
    HeldBoth(start, Gathered(start, xs), Gathered(start, ys), xs, ys);
    HeldBoth(start, Gathered(start, ys), Gathered(start, xs), ys, xs);
  }

  lemma HeldBoth(start: Decisions, m: Decisions, n: Decisions, xs: seq<SubmitRequest>, ys: seq<SubmitRequest>)
    requires Holds(start, m, xs) && Holds(start, n, ys) && Consistent(start, ys)
    requires forall d :: Submitted(xs, d) ==> Submitted(ys, d)
    ensures Submap(m, n)
  {
    hide Submitted;
    forall key | key in m ensures key in n && n[key] == m[key] {
      if m[key].spanId == key && Submitted(xs, m[key]) {
        assert Submitted(ys, m[key]);
      } else {
        assert key in n;
      }
    }
  }

  /** Everything gathered so far stays. */
  lemma GatheredGrows(start: Decisions, requests: seq<SubmitRequest>, n: nat)
    requires Consistent(start, requests) && NoDuplicates(requests) && n <= |requests|
    ensures Submap(Gathered(start, requests[..n]), Gathered(start, requests))
  {
    ConsistentPrefix(start, requests, n);
    GatheredIs(start, requests);
    GatheredIs(start, requests[..n]);
    hide Gathered, Submitted;
    HeldBoth(start, Gathered(start, requests[..n]), Gathered(start, requests), requests[..n], requests);
  }

  lemma SmallerWithin(env: Environment, m: Decisions, n: Decisions)
    requires Monotone(env) && Submap(m, n) && WithinLimits(env, n)
    ensures WithinLimits(env, m)
  {
    SmallerSet(m.Keys, n.Keys);
    assert |m| == |m.Keys| && |n| == |n.Keys|;
  }

  lemma SmallerSet(a: set<string>, b: set<string>)
    requires a <= b
    ensures |a| <= |b|
  {
    assert b == a + (b - a);
  }

  /* ------------------------------------------------------------ which runs are accepted */

  lemma StoredAfterIs(reviews: Reviews, scope: Scope, scan: Scan, requests: seq<SubmitRequest>)
    ensures Stored(StoredAfter(reviews, scope, scan, requests), scope, scan) == Gathered(Stored(reviews, scope, scan), requests)
  {
  }

  /** The last batch of a run, seen after the others. */
  lemma LastBatch(env: Environment, reviews: Reviews, scope: Scope, scan: Scan, requests: seq<SubmitRequest>)
    requires requests != [] && About(scan, requests)
    ensures var n := |requests| - 1;
            var before, last := requests[..n], requests[n];
            && About(scan, before)
            && requests == before + [last]
            && Gathered(Stored(reviews, scope, scan), requests)
                 == Stored(StoredAfter(reviews, scope, scan, before), scope, scan) + ById(last.decisions)
            && StoredAfter(reviews, scope, scan, requests)
                 == StoredAfter(reviews, scope, scan, before)[(scope, InventoryOf(scan)) := Gathered(Stored(reviews, scope, scan), requests)]
            && (InTurn(reviews, scope, scan, requests)
                <==> InTurn(reviews, scope, scan, before) && AtTurn(StoredAfter(reviews, scope, scan, before), scope, last))
  {
    var n := |requests| - 1;
    var before, last := requests[..n], requests[n];
    assert requests == before + [last];
    StoredAfterIs(reviews, scope, scan, before);
    LastStored(reviews, scope, scan, requests);
    TurnsAppend(reviews, scope, scan, before, last);
    hide InTurn, AtTurn, ById, Stored, StoredAfter;
  }

  lemma LastStored(reviews: Reviews, scope: Scope, scan: Scan, requests: seq<SubmitRequest>)
    requires requests != []
    ensures StoredAfter(reviews, scope, scan, requests)
         == StoredAfter(reviews, scope, scan, requests[..|requests| - 1])[(scope, InventoryOf(scan)) := Gathered(Stored(reviews, scope, scan), requests)]
  {
    hide Gathered, Stored;
    var start, before := Stored(reviews, scope, scan), requests[..|requests| - 1];
    UpdatedTwice(reviews, (scope, InventoryOf(scan)), Gathered(start, before), Gathered(start, requests));
  }

  lemma UpdatedTwice(reviews: Reviews, key: (Scope, InventoryId), a: Decisions, b: Decisions)
    ensures reviews[key := a][key := b] == reviews[key := b]
  {
  }

  lemma TurnsAppend(reviews: Reviews, scope: Scope, scan: Scan, requests: seq<SubmitRequest>, last: SubmitRequest)
    ensures InTurn(reviews, scope, scan, requests + [last])
      <==> InTurn(reviews, scope, scan, requests) && AtTurn(StoredAfter(reviews, scope, scan, requests), scope, last)
  {
    hide AtTurn, StoredAfter;
    var longer := requests + [last];
    assert longer[..|requests|] == requests && longer[|requests|] == last;
    assert forall i :: 0 <= i < |requests| ==> longer[..i] == requests[..i] && longer[i] == requests[i];
  }

  lemma EveryAppend(u: Alphabet, scan: Scan, requests: seq<SubmitRequest>, last: SubmitRequest)
    ensures EveryBatchFits(u, scan, requests + [last]) <==> EveryBatchFits(u, scan, requests) && BatchFits(u, scan, last.decisions)
    ensures EveryDecisionFits(u, scan, requests + [last]) <==> EveryDecisionFits(u, scan, requests) && EachFits(u, scan, last.decisions)
  {
    SubmittedAppend(requests, last);
    hide BatchFits, DecisionFits, Submitted;
    var longer := requests + [last];
    assert longer[|requests|] == last;
    assert forall i :: 0 <= i < |requests| ==> longer[i] == requests[i];
    if EveryDecisionFits(u, scan, longer) {
      assert forall d :: Submitted(requests, d) ==> Submitted(longer, d);
      assert forall d :: d in last.decisions ==> Submitted(longer, d);
    }
  }

  /** Every batch is valid alone and submitted at its turn. */
  ghost predicate Proper(u: Alphabet, reviews: Reviews, scope: Scope, scan: Scan, requests: seq<SubmitRequest>) {
    InTurn(reviews, scope, scan, requests) && EveryBatchFits(u, scan, requests) && EveryDecisionFits(u, scan, requests)
  }

  /** An accepted run stores what it gathers, took its turns, and consists of valid batches. */
  lemma {:induction false} AcceptedRun(env: Environment, reviews: Reviews, scope: Scope, scan: Scan, requests: seq<SubmitRequest>)
    requires About(scan, requests) && SubmitAll(env, reviews, scope, scan, requests).Ok?
    ensures SubmitAll(env, reviews, scope, scan, requests).value == StoredAfter(reviews, scope, scan, requests)
    ensures Proper(env.u, reviews, scope, scan, requests)
    ensures requests != [] ==> WithinLimits(env, Gathered(Stored(reviews, scope, scan), requests))
  {
    if requests != [] {
      var n := |requests| - 1;
      var before, last := requests[..n], requests[n];
      LastBatch(env, reviews, scope, scan, requests);
      EveryAppend(env.u, scan, before, last);
      hide InTurn, EveryBatchFits, EveryDecisionFits, MergedReview, WithinLimits, Gathered, StoredAfter, AtTurn, ById, EachFits, BatchFits, About;
      AcceptedRun(env, reviews, scope, scan, before);
      MergedExactly(env, StoredAfter(reviews, scope, scan, before), scope, scan, last);
    }
  }

  /** A run of batches that are valid alone and take their turns is refused only when the review becomes too large. */
  lemma {:induction false} OnlyTooLarge(env: Environment, reviews: Reviews, scope: Scope, scan: Scan, requests: seq<SubmitRequest>)
    requires About(scan, requests) && Proper(env.u, reviews, scope, scan, requests)
    ensures SubmitAll(env, reviews, scope, scan, requests) in {Ok(StoredAfter(reviews, scope, scan, requests)), Err(ReviewTooLarge)}
  {
    if requests != [] {
      var n := |requests| - 1;
      var before, last := requests[..n], requests[n];
      LastBatch(env, reviews, scope, scan, requests);
      EveryAppend(env.u, scan, before, last);
      hide InTurn, EveryBatchFits, EveryDecisionFits, MergedReview, WithinLimits, Gathered, StoredAfter, AtTurn, ById, EachFits, BatchFits, About;
      OnlyTooLarge(env, reviews, scope, scan, before);
      MergedExactly(env, StoredAfter(reviews, scope, scan, before), scope, scan, last);
    }
  }

  /** Consistent batches are accepted exactly when each is valid alone and at its turn, and the final review is within the limits. */
  lemma {:induction false} AcceptedExactly(env: Environment, reviews: Reviews, scope: Scope, scan: Scan, requests: seq<SubmitRequest>)
    requires Monotone(env) && WithinLimits(env, Stored(reviews, scope, scan))
    requires About(scan, requests) && Consistent(Stored(reviews, scope, scan), requests)
    ensures SubmitAll(env, reviews, scope, scan, requests).Ok?
      <==> && Proper(env.u, reviews, scope, scan, requests)
           && WithinLimits(env, Gathered(Stored(reviews, scope, scan), requests))
  {
    var start := Stored(reviews, scope, scan);
    if SubmitAll(env, reviews, scope, scan, requests).Ok? {
      hide SubmitAll, Monotone;
      AcceptedRun(env, reviews, scope, scan, requests);
    } else if requests != [] && EveryBatchFits(env.u, scan, requests) && WithinLimits(env, Gathered(start, requests)) {
      var n := |requests| - 1;
      ConsistentPrefix(start, requests, n);
      GatheredGrows(start, requests, n);
      SmallerWithin(env, Gathered(start, requests[..n]), Gathered(start, requests));
      LastAccepted(env, reviews, scope, scan, requests);
      hide *;
      AcceptedExactly(env, reviews, scope, scan, requests[..n]);
    }
  }

  /** The step of `AcceptedExactly`. */
  lemma LastAccepted(env: Environment, reviews: Reviews, scope: Scope, scan: Scan, requests: seq<SubmitRequest>)
    requires requests != [] && About(scan, requests) && WithinLimits(env, Gathered(Stored(reviews, scope, scan), requests))
    ensures About(scan, requests[..|requests| - 1])
    ensures Proper(env.u, reviews, scope, scan, requests) ==>
      && var before := requests[..|requests| - 1];
         && Proper(env.u, reviews, scope, scan, before)
         && (SubmitAll(env, reviews, scope, scan, before).Ok? ==> SubmitAll(env, reviews, scope, scan, requests).Ok?)
  {
    var n := |requests| - 1;
    var before, last := requests[..n], requests[n];
    LastBatch(env, reviews, scope, scan, requests);
    EveryAppend(env.u, scan, before, last);
    hide InTurn, EveryBatchFits, EveryDecisionFits, MergedReview, WithinLimits, Gathered, StoredAfter, AtTurn, ById, EachFits, BatchFits, About;
    if SubmitAll(env, reviews, scope, scan, before).Ok? {
      AcceptedRun(env, reviews, scope, scan, before);
      MergedExactly(env, StoredAfter(reviews, scope, scan, before), scope, scan, last);
    }
  }

  /* ------------------------------------------------------------ confluence */

  ghost predicate SameDecisions(xs: seq<SubmitRequest>, ys: seq<SubmitRequest>) {
    forall d :: Submitted(xs, d) <==> Submitted(ys, d)
  }

  /** Two accepted runs that submit the same decisions store the same review. */
  lemma AcceptedRunsAgree(
      env: Environment, reviews: Reviews, scope: Scope, scan: Scan, xs: seq<SubmitRequest>, ys: seq<SubmitRequest>)
    requires About(scan, xs) && About(scan, ys) && SameDecisions(xs, ys) && Consistent(Stored(reviews, scope, scan), xs)
    requires SubmitAll(env, reviews, scope, scan, xs).Ok? && SubmitAll(env, reviews, scope, scan, ys).Ok?
    ensures Stored(SubmitAll(env, reviews, scope, scan, xs).value, scope, scan)
         == Stored(SubmitAll(env, reviews, scope, scan, ys).value, scope, scan)
  {
    hide SubmitAll, Submitted, Gathered, StoredAfter, Stored, BatchFits, Consistent, EveryDecisionFits;
    AcceptedRun(env, reviews, scope, scan, xs);
    AcceptedRun(env, reviews, scope, scan, ys);
    SameGatheredWhenFitting(env.u, scan, Stored(reviews, scope, scan), xs, ys);
    StoredAfterIs(reviews, scope, scan, xs);
    StoredAfterIs(reviews, scope, scan, ys);
  }

  lemma SameGatheredWhenFitting(u: Alphabet, scan: Scan, start: Decisions, xs: seq<SubmitRequest>, ys: seq<SubmitRequest>)
    requires Consistent(start, xs) && SameDecisions(xs, ys)
    requires EveryBatchFits(u, scan, xs) && EveryBatchFits(u, scan, ys)
    ensures Consistent(start, ys) && Gathered(start, xs) == Gathered(start, ys)
  {
    hide Gathered, Submitted, PayloadSize, RecordsShort, ById;
    SameGathered(start, xs, ys);
  }

  /**
   Confluence. Take the same consistent decisions, in two orders or cut into batches in two ways, with
   every batch valid alone and naming the review that is then current. Both runs are accepted and store
   the same review, or both are refused because the review that they lead to is too large.
   */
  lemma SubmissionOrderIrrelevant(
      env: Environment, reviews: Reviews, scope: Scope, scan: Scan, xs: seq<SubmitRequest>, ys: seq<SubmitRequest>)
    requires Monotone(env) && WithinLimits(env, Stored(reviews, scope, scan))
    requires About(scan, xs) && About(scan, ys) && SameDecisions(xs, ys) && Consistent(Stored(reviews, scope, scan), xs)
    requires Proper(env.u, reviews, scope, scan, xs) && Proper(env.u, reviews, scope, scan, ys)
    ensures var final := Gathered(Stored(reviews, scope, scan), xs);
            var x, y := SubmitAll(env, reviews, scope, scan, xs), SubmitAll(env, reviews, scope, scan, ys);
            if WithinLimits(env, final)
            then x.Ok? && y.Ok? && Stored(x.value, scope, scan) == final == Stored(y.value, scope, scan)
            else x == y == Err(ReviewTooLarge)
  {
    hide SubmitAll, Monotone, WithinLimits, About, Gathered, Consistent, SameDecisions, StoredAfter, Stored,
      InTurn, EveryBatchFits, EveryDecisionFits;
    SameGatheredWhenFitting(env.u, scan, Stored(reviews, scope, scan), xs, ys);
    AcceptedExactly(env, reviews, scope, scan, xs);
    AcceptedExactly(env, reviews, scope, scan, ys);
    OnlyTooLarge(env, reviews, scope, scan, xs);
    OnlyTooLarge(env, reviews, scope, scan, ys);
    StoredAfterIs(reviews, scope, scan, xs);
    StoredAfterIs(reviews, scope, scan, ys);
  }

  /**
   Once a run is accepted, the same decisions in another order and in other batches are accepted exactly
   when every batch names the review that is then current, names no span twice, and is within the
   payload and record length limits of one batch.
   */
  lemma RecutAccepted(
      env: Environment, reviews: Reviews, scope: Scope, scan: Scan, xs: seq<SubmitRequest>, ys: seq<SubmitRequest>)
    requires Monotone(env) && WithinLimits(env, Stored(reviews, scope, scan))
    requires About(scan, xs) && About(scan, ys) && SameDecisions(xs, ys) && Consistent(Stored(reviews, scope, scan), xs)
    requires SubmitAll(env, reviews, scope, scan, xs).Ok?
    ensures var y := SubmitAll(env, reviews, scope, scan, ys);
            && (y.Ok? <==> InTurn(reviews, scope, scan, ys) && EveryBatchFits(env.u, scan, ys))
            && (y.Ok? ==> Stored(y.value, scope, scan) == Stored(SubmitAll(env, reviews, scope, scan, xs).value, scope, scan))
  {
    hide SubmitAll, Monotone, WithinLimits, About, Gathered, Consistent, StoredAfter, Stored, Submitted,
      InTurn, EveryBatchFits, DecisionFits;
    AcceptedExactly(env, reviews, scope, scan, xs);
    if InTurn(reviews, scope, scan, ys) && EveryBatchFits(env.u, scan, ys) {
      SameGatheredWhenFitting(env.u, scan, Stored(reviews, scope, scan), xs, ys);
      AcceptedExactly(env, reviews, scope, scan, ys);
    }
    if SubmitAll(env, reviews, scope, scan, ys).Ok? {
      AcceptedRun(env, reviews, scope, scan, ys);
      AcceptedRunsAgree(env, reviews, scope, scan, xs, ys);
    }
  }
}
