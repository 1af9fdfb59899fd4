/**
 Durable state of src/cadplot_mcp/remote_translation.py: merged reviews, stored plans and the
 write journal, one transaction per function, and the class that holds the three tables.
 */
module TranslationStore {
  import opened Wrappers
  import opened Characters
  import opened TranslationPlan
  import opened TranslationPlanner

  const MAX_REVIEW_DECISIONS := 100_000
  const MAX_REVIEW_CHARS := 8 * 1024 * 1024

  /** Digest of tenant, user, device, policy version and drawing: who may share state. */
  datatype Scope = Scope(tenant: string, user: string, device: string, policy: int, drawing: string)

  /** `sha256:` digest of the inventory id and the stored decisions, sorted by span id. */
  datatype ReviewId = ReviewId(inventory: InventoryId, decisions: Decisions)

  datatype StoredPlan = StoredPlan(plan: Plan, review: ReviewId)

  datatype Receipt = Receipt(plan: PlanId, outputId: string, outputSha256: string, changedRecords: nat)

  datatype StoreError =
    | InvalidReview(error: PlanError) | ReviewConflict | ReviewTooLarge
    | ReviewChanged | PlanRejected(error: PlanError) | PageInvalid
    | PlanMissing | PlanMismatch | PlanBlocked | AttentionRequired

  type Reviews = map<(Scope, InventoryId), Decisions>
  type Plans = map<(Scope, PlanId), StoredPlan>
  type Writes = map<(Scope, PlanId), Option<Receipt>>

  /** What a workstation scan of the drawing yields; the scan itself is not modelled. */
  datatype Scan = Scan(path: string, fingerprint: Fingerprint, snapshot: Snapshot)

  datatype SubmitRequest = SubmitRequest(inventory: InventoryId, expected: Option<ReviewId>, decisions: seq<Decision>)

  /** One page of a plan's changes. */
  datatype PlanPage = PlanPage(plan: Plan, offset: nat, nextOffset: Option<nat>, changes: seq<TextChange>)

  function PageOf(plan: Plan, offset: nat, limit: nat): (page: PlanPage)
    requires offset <= |plan.changes|
    ensures page.plan == plan && page.changes <= plan.changes[offset..] && |page.changes| <= limit
    ensures page.nextOffset.None? ==> page.changes == plan.changes[offset..]
  {
    if offset + limit < |plan.changes| then PlanPage(plan, offset, Some(offset + limit), plan.changes[offset..offset + limit])
    else PlanPage(plan, offset, None, plan.changes[offset..])
  }

  /** The pages that a caller reads who follows the next offset. */
  ghost function PagesFrom(plan: Plan, offset: nat, limit: nat): seq<PlanPage>
    requires offset <= |plan.changes| && limit >= 1
    decreases |plan.changes| - offset
  {
    var page := PageOf(plan, offset, limit);
    [page] + match page.nextOffset case None => [] case Some(next) => PagesFrom(plan, next, limit)
  }

  ghost function ChangesOf(pages: seq<PlanPage>): seq<TextChange> {
    if pages == [] then [] else pages[0].changes + ChangesOf(pages[1..])
  }

  /** The reading ends, and yields every change once and in order, on pages that are full except for the last one. */
  lemma {:induction false} PagesCover(plan: Plan, offset: nat, limit: nat)
    requires offset <= |plan.changes| && limit >= 1
    ensures var pages := PagesFrom(plan, offset, limit);
            && ChangesOf(pages) == plan.changes[offset..]
            && (forall i :: 0 <= i < |pages| ==> pages[i].offset == offset + i * limit && pages[i].plan == plan)
            && (forall i :: 0 <= i < |pages| - 1 ==> |pages[i].changes| == limit)
            && (offset < |plan.changes| ==> forall i :: 0 <= i < |pages| ==> pages[i].changes != [])
    decreases |plan.changes| - offset
  {
    var page := PageOf(plan, offset, limit);
    if page.nextOffset.Some? {
      var rest := PagesFrom(plan, page.nextOffset.value, limit);
      PagesCover(plan, page.nextOffset.value, limit);
      assert ([page] + rest)[1..] == rest;
      forall i | 1 <= i < |rest| + 1 ensures ([page] + rest)[i].offset == offset + i * limit {
        assert rest[i - 1].offset == offset + limit + (i - 1) * limit;
      }
    }
  }

  datatype ApplyRequest = ApplyRequest(inventory: InventoryId, review: ReviewId, plan: PlanId)

  /** Lexer alphabet and the length of the JSON text of a stored review. */
  datatype Environment = Environment(u: Alphabet, jsonLength: Decisions -> nat)

  /* ------------------------------------------------------------ submitting a review */

  function Current(reviews: Reviews, scope: Scope, inventory: InventoryId): Decisions {
    if (scope, inventory) in reviews then reviews[(scope, inventory)] else map[]
  }

  function PreviousId(reviews: Reviews, scope: Scope, inventory: InventoryId): Option<ReviewId> {
    if (scope, inventory) in reviews then Some(ReviewId(inventory, reviews[(scope, inventory)])) else None
  }

  predicate ExactRetry(current: Decisions, ds: seq<Decision>) {
    forall d :: d in ds ==> d.spanId in current && current[d.spanId] == d
  }

  /** The new stored review, or the reason why the transaction rolls back. */
  function MergedReview(env: Environment, reviews: Reviews, scope: Scope, scan: Scan, request: SubmitRequest)
    : Result<Decisions, StoreError>
  {
    var checked := BuildPlan(env.u, scan.path, scan.fingerprint, scan.snapshot, request.inventory, request.decisions);
    var current := Current(reviews, scope, request.inventory);
    var merged := current + ById(request.decisions);
    if checked.Err? then Err(InvalidReview(checked.error))
    else if request.expected != PreviousId(reviews, scope, request.inventory) && !ExactRetry(current, request.decisions)
    then Err(ReviewConflict)
    else if |merged| > MAX_REVIEW_DECISIONS || env.jsonLength(merged) > MAX_REVIEW_CHARS then Err(ReviewTooLarge)
    else Ok(merged)
  }

  /* ------------------------------------------------------------ beginning a write */

  datatype BeginOutcome = Granted | Cached(receipt: Receipt) | Refused(error: StoreError)

  /** The decision of the `BEGIN IMMEDIATE` transaction in front of a write. */
  function BeginWrite(plans: Plans, writes: Writes, scope: Scope, request: ApplyRequest): BeginOutcome {
    var key := (scope, request.plan);
    if key !in plans then Refused(PlanMissing)
    else if plans[key].review != request.review || plans[key].plan.inventory != request.inventory then Refused(PlanMismatch)
    else if !plans[key].plan.ready || plans[key].plan.changes == [] then Refused(PlanBlocked)
    else if key !in writes then Granted
    else if writes[key].None? then Refused(AttentionRequired)
    else Cached(writes[key].value)
  }

  /* ------------------------------------------------------------ the tables */

  class RemoteTranslationTables {
    var reviews: Reviews
    var plans: Plans
    var writes: Writes

    constructor ()
      ensures reviews == map[] && plans == map[] && writes == map[]
    {
      reviews, plans, writes := map[], map[], map[];
    }

    /** The review branch of `execute`: validate, then merge in one transaction. */
    method SubmitReview(env: Environment, scope: Scope, scan: Scan, request: SubmitRequest)
      returns (r: Result<ReviewId, StoreError>)
      modifies this`reviews
      ensures var merged := MergedReview(env, old(reviews), scope, scan, request);
              && reviews == (if merged.Ok? then old(reviews)[(scope, request.inventory) := merged.value] else old(reviews))
              && r == (if merged.Ok? then Ok(ReviewId(request.inventory, merged.value)) else Err(merged.error))
    {
      var checked := BuildTranslationPlan(
        env.u, scan.path, scan.fingerprint, scan.snapshot, request.inventory, request.decisions);
      if checked.Err? {
        return Err(InvalidReview(checked.error));
      }
      var key := (scope, request.inventory);
      var current: Decisions := if key in reviews then reviews[key] else map[];
      var previous := if key in reviews then Some(ReviewId(request.inventory, current)) else None;
      if request.expected != previous && !ExactRetry(current, request.decisions) {
        return Err(ReviewConflict);
      }
      current := current + ById(request.decisions);
      if |current| > MAX_REVIEW_DECISIONS || env.jsonLength(current) > MAX_REVIEW_CHARS {
        return Err(ReviewTooLarge);
      }
      reviews := reviews[key := current];
      return Ok(ReviewId(request.inventory, current));
    }

    /**
     The plan branch: rebuild the plan from the stored review and keep the first copy. An offset
     beyond the changes is refused before anything is stored.
     */
    method PlanTranslation(
        env: Environment, scope: Scope, scan: Scan, review: ReviewId, stored: seq<Decision>, offset: nat, limit: nat)
      returns (r: Result<PlanPage, StoreError>)
      requires ById(stored) == Current(reviews, scope, review.inventory)
      requires |stored| == |Current(reviews, scope, review.inventory)|
      modifies this`plans
      ensures var plan := BuildPlan(env.u, scan.path, scan.fingerprint, scan.snapshot, review.inventory, stored);
              && r == (if review.decisions != Current(reviews, scope, review.inventory) then Err(ReviewChanged)
                       else if plan.Err? then Err(PlanRejected(plan.error))
                       else if offset > |plan.value.changes| then Err(PageInvalid)
                       else Ok(PageOf(plan.value, offset, limit)))
              && plans == (if r.Err? || (scope, r.value.plan.id) in old(plans) then old(plans)
                           else old(plans)[(scope, r.value.plan.id) := StoredPlan(r.value.plan, review)])
    {
      hide BuildPlan, ById, PageOf;
      if ReviewId(review.inventory, ById(stored)) != review {
        return Err(ReviewChanged);
      }
      var plan := BuildTranslationPlan(
        env.u, scan.path, scan.fingerprint, scan.snapshot, review.inventory, stored);
      if plan.Err? {
        return Err(PlanRejected(plan.error));
      }
      if offset > |plan.value.changes| {
        return Err(PageInvalid);
      }
      if (scope, plan.value.id) !in plans {
        plans := plans[(scope, plan.value.id) := StoredPlan(plan.value, review)];
      }
      return Ok(PageOf(plan.value, offset, limit));
    }

    /** The durable intent: the journal row exists before any drawing is touched. */
    method Begin(scope: Scope, request: ApplyRequest) returns (outcome: BeginOutcome)
      modifies this`writes
      ensures outcome == BeginWrite(plans, old(writes), scope, request)
      ensures writes == if outcome.Granted? then old(writes)[(scope, request.plan) := None] else old(writes)
    {
      var key := (scope, request.plan);
      if key !in plans {
        return Refused(PlanMissing);
      }
      var stored := plans[key];
      if stored.review != request.review || stored.plan.inventory != request.inventory {
        return Refused(PlanMismatch);
      }
      if !stored.plan.ready || stored.plan.changes == [] {
        return Refused(PlanBlocked);
      }
      if key in writes {
        if writes[key].None? {
          return Refused(AttentionRequired);
        }
        return Cached(writes[key].value);
      }
      writes := writes[key := None];
      return Granted;
    }

    /**
     The apply branch. `applied` is what the drawing editor answers, None when it raises;
     `recorded` says whether the receipt could be committed.
     */
    method ApplyTranslation(scope: Scope, request: ApplyRequest, applied: Option<Receipt>, recorded: bool)
      returns (r: Result<Receipt, StoreError>)
      modifies this`writes
      ensures var key := (scope, request.plan);
              match BeginWrite(plans, old(writes), scope, request)
              case Refused(e) => r == Err(e) && writes == old(writes)
              case Cached(receipt) => r == Ok(receipt) && writes == old(writes)
              case Granted =>
                if applied.Some? && recorded then r == Ok(applied.value) && writes == old(writes)[key := applied]
                else r == Err(AttentionRequired) && writes == old(writes)[key := None]
    {
      var outcome := Begin(scope, request);
      if outcome.Refused? {
        return Err(outcome.error);
      }
      if outcome.Cached? {
        return Ok(outcome.receipt);
      }
      if applied.None? || !recorded {
        return Err(AttentionRequired);
      }
      writes := writes[(scope, request.plan) := applied];
      return Ok(applied.value);
    }
  }
}
