/** Merging reviews: validity of everything stored, plans from stored reviews, and no lost update. */
module ReviewTheorems {
  import opened Wrappers
  import opened Characters
  import opened TranslationPlan
  import opened PlanTheorems
  import opened TranslationStore

  /** Every stored decision sits under its own span id and fits that span of its inventory. */
  ghost predicate FitsInventory(u: Alphabet, inventory: InventoryId, m: Decisions) {
    var spans := AllSpans(u, inventory.snapshot.records);
    && m.Keys <= SpanIdsOf(spans)
    && DecisionsFit(u, spans, m)
    && forall key :: key in m ==> m[key].spanId == key
  }

  ghost predicate ReviewsFit(u: Alphabet, reviews: Reviews) {
    forall key :: key in reviews ==> FitsInventory(u, key.1, reviews[key])
  }

  lemma ValidBatchFits(env: Environment, scan: Scan, request: SubmitRequest)
    requires BuildPlan(env.u, scan.path, scan.fingerprint, scan.snapshot, request.inventory, request.decisions).Ok?
    ensures FitsInventory(env.u, request.inventory, ById(request.decisions))
    ensures |ById(request.decisions)| == |request.decisions|
  {
    hide AllSpans, RecordsError, DecisionsFit, ById, RecordsBlockers;
    var rs, byId := scan.snapshot.records, ById(request.decisions);
    RecordsAccepted(env.u, rs, byId);
    ByIdMembers(request.decisions);
    forall key | key in byId.Keys ensures key in SpanIdsOf(AllSpans(env.u, rs)) {
      assert key !in byId.Keys - SpanIdsOf(AllSpans(env.u, rs));
    }
  }

  lemma MergeFits(u: Alphabet, inventory: InventoryId, a: Decisions, b: Decisions)
    requires FitsInventory(u, inventory, a) && FitsInventory(u, inventory, b)
    ensures FitsInventory(u, inventory, a + b)
  {
    hide AllSpans, DecisionError;
  }

  /** One submission keeps every stored review valid for its inventory. */
  lemma SubmitKeepsReviewsFit(env: Environment, reviews: Reviews, scope: Scope, scan: Scan, request: SubmitRequest)
    requires ReviewsFit(env.u, reviews) && MergedReview(env, reviews, scope, scan, request).Ok?
    ensures ReviewsFit(env.u, reviews[(scope, request.inventory) := MergedReview(env, reviews, scope, scan, request).value])
  {
    hide BuildPlan, FitsInventory;
    ValidBatchFits(env, scan, request);
    EmptyFits(env.u, request.inventory);
    MergeFits(env.u, request.inventory, Current(reviews, scope, request.inventory), ById(request.decisions));
  }

  lemma EmptyFits(u: Alphabet, inventory: InventoryId)
    ensures FitsInventory(u, inventory, map[])
  {
  }

  /**
   Planning from a stored review can fail only because the drawing changed, the decisions
   outgrow the plan's payload limit, or a record outgrows its length limit.
   */
  lemma StoredReviewPlans(u: Alphabet, scan: Scan, inventory: InventoryId, m: Decisions, stored: seq<Decision>)
    requires FitsInventory(u, inventory, m) && ById(stored) == m && |stored| == |m|
    ensures var plan := BuildPlan(u, scan.path, scan.fingerprint, scan.snapshot, inventory, stored);
            plan.Err? ==>
              || (plan.error == InventoryChanged && InventoryId(scan.path, scan.fingerprint, scan.snapshot) != inventory)
              || (plan.error == PayloadTooLarge && PayloadSize(stored) > 4 * MAX_TOTAL_CHARS)
              || (plan.error == RecordTooLong && exists r :: r in scan.snapshot.records && |PatchedText(u, r, m)| > MAX_TEXT_CHARS)
  {
    hide AllSpans, RecordsError, DecisionsFit, ById, RecordsBlockers, PatchedText;
    RecordsAccepted(u, scan.snapshot.records, m);
    if InventoryId(scan.path, scan.fingerprint, scan.snapshot) == inventory {
      assert m.Keys - SpanIdsOf(AllSpans(u, scan.snapshot.records)) == {};
    }
  }

  /* ------------------------------------------------------------ the order of stored decisions */

  lemma {:induction false} PayloadPick(ds: seq<Decision>, i: nat)
    requires i < |ds|
    ensures PayloadSize(ds) == |ds[i].source| + |ds[i].target| + PayloadSize(ds[..i] + ds[i + 1..])
  {
    if i == 0 {
      assert ds[..0] + ds[1..] == ds[1..];
    } else {
      PayloadPick(ds[1..], i - 1);
      assert (ds[..i] + ds[i + 1..])[1..] == ds[1..][..i - 1] + ds[1..][i..];
    }
  }

  lemma WithoutOne(xs: seq<Decision>, i: nat)
    requires i < |xs|
    ensures multiset(xs[..i] + xs[i + 1..]) == multiset(xs) - multiset{xs[i]}
  {
    assert xs == xs[..i] + [xs[i]] + xs[i + 1..];
  }

  lemma WithoutSame(xs: seq<Decision>, ys: seq<Decision>, i: nat)
    requires multiset(xs) == multiset(ys) && xs != [] && i < |ys| && ys[i] == xs[0]
    ensures multiset(xs[..0] + xs[1..]) == multiset(ys[..i] + ys[i + 1..])
  {
    WithoutOne(xs, 0);
    WithoutOne(ys, i);
  }

  lemma {:induction false} PayloadPermutes(xs: seq<Decision>, ys: seq<Decision>)
    requires multiset(xs) == multiset(ys)
    ensures PayloadSize(xs) == PayloadSize(ys)
  {
    if xs != [] {
      hide PayloadSize;
      assert xs[0] in multiset(xs);
      assert xs[0] in multiset(ys);
      var i :| 0 <= i < |ys| && ys[i] == xs[0];
      var x, y := xs[..0] + xs[1..], ys[..i] + ys[i + 1..];
      WithoutSame(xs, ys, i);
      PayloadPick(xs, 0);
      PayloadPick(ys, i);
      PayloadPermutes(x, y);
    } else {
      assert |multiset(ys)| == 0;
      assert ys == [];
    }
  }

  lemma ByIdGrows(init: seq<Decision>, last: Decision)
    ensures |ById(init + [last])| == |ById(init)| + (if last.spanId in ById(init) then 0 else 1)
    ensures ById(init + [last]) == ById(init)[last.spanId := last]
  {
    assert (init + [last])[..|init|] == init;
    var before, after := ById(init), ById(init + [last]);
    assert |before.Keys| == |before| && |after.Keys| == |after|;
    if last.spanId in before {
      assert after.Keys == before.Keys;
    } else {
      assert after.Keys == before.Keys + {last.spanId};
    }
  }

  lemma {:induction false} EachOnce(ds: seq<Decision>, d: Decision)
    requires |ById(ds)| == |ds|
    ensures multiset(ds)[d] == (if d.spanId in ById(ds) && ById(ds)[d.spanId] == d then 1 else 0)
  {
    if ds != [] {
      var init, last := ds[..|ds| - 1], ds[|ds| - 1];
      assert ds == init + [last];
      ByIdMembers(init);
      ByIdGrows(init, last);
      EachOnce(init, d);
    }
  }

  /** The plan depends on the stored decisions only, not on the order in which they are listed. */
  lemma PlanOrderIrrelevant(u: Alphabet, scan: Scan, inventory: InventoryId, xs: seq<Decision>, ys: seq<Decision>)
    requires |ById(xs)| == |xs| && |ById(ys)| == |ys| && ById(xs) == ById(ys)
    ensures BuildPlan(u, scan.path, scan.fingerprint, scan.snapshot, inventory, xs)
         == BuildPlan(u, scan.path, scan.fingerprint, scan.snapshot, inventory, ys)
  {
    hide RecordsError, RecordsBlockers, RecordsChanges, AllSpans, ById;
    forall d ensures multiset(xs)[d] == multiset(ys)[d] {
      EachOnce(xs, d);
      EachOnce(ys, d);
    }
    PayloadPermutes(xs, ys);
  }

  /* ------------------------------------------------------------ retries and lost updates */

  /** An exact retry of stored decisions leaves the stored review as it is. */
  lemma RetryChangesNothing(env: Environment, reviews: Reviews, scope: Scope, scan: Scan, request: SubmitRequest)
    requires (scope, request.inventory) in reviews && MergedReview(env, reviews, scope, scan, request).Ok?
    requires ExactRetry(Current(reviews, scope, request.inventory), request.decisions)
    ensures MergedReview(env, reviews, scope, scan, request).value == reviews[(scope, request.inventory)]
  {
    hide BuildPlan;
    ByIdMembers(request.decisions);
    var current := Current(reviews, scope, request.inventory);
    assert forall key :: key in ById(request.decisions) ==> current[key] == ById(request.decisions)[key];
    assert current + ById(request.decisions) == current;
  }

  /**
   No update is lost: a submission never drops a span, and when it adds or replaces any
   decision the submitter named the id of the review it replaces, so it had seen all of it.
   */
  lemma NoLostUpdate(env: Environment, reviews: Reviews, scope: Scope, scan: Scan, request: SubmitRequest)
    requires MergedReview(env, reviews, scope, scan, request).Ok?
    ensures var before := Current(reviews, scope, request.inventory);
            var after := MergedReview(env, reviews, scope, scan, request).value;
            && before.Keys <= after.Keys
            && (after != before ==>
                  if (scope, request.inventory) in reviews
                  then request.expected.Some? && request.expected.value.decisions == before
                  else request.expected.None?)
            && (forall d :: d in request.decisions ==> d.spanId in after && after[d.spanId] == d)
  {
    hide BuildPlan;
    ByIdMembers(request.decisions);
    ValidBatchFits(env, scan, request);
    var before := Current(reviews, scope, request.inventory);
    if ExactRetry(before, request.decisions) {
      assert before + ById(request.decisions) == before;
    }
  }
}
