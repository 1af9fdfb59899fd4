/** Invariants of the gateway repository over every run with a nondecreasing clock. */
module GatewayRuns {
  import opened Wrappers
  import opened GatewayModels
  import opened GatewaySteps

  datatype Action =
    | Create(operation: OperationRecord)
    | RefreshOne(id: Id)
    | Lease(tenant: Id, workstation: Id, owner: Id, until: int)
    | StartOne(id: Id, tenant: Id, workstation: Id)
    | FinishOne(id: Id, tenant: Id, workstation: Id, finish: Finish)
    | ApplyOne(id: Id, tenant: Id, workstation: Id, result: TaskResult, projects: seq<ProjectRecord>, drawings: seq<DrawingRecord>)
    | PutWorkstation(w: WorkstationRecord)
    | PutProject(p: ProjectRecord)
    | PutDrawing(d: DrawingRecord)
    | SwitchOnline(id: Id, online: bool)

  /** What callers guarantee: fresh new operations that exist by now, and leases that end later. */
  predicate Permitted(s: Repo, now: int, a: Action) {
    match a
    case Create(r) => r.state == CREATED && r.ValidShape() && r.createdAt <= now && r.id !in s.operations
    case Lease(_, _, _, until) => now < until
    case _ => true
  }

  ghost function Step(s: Repo, now: int, a: Action): Repo {
    match a
    case Create(r) => CreateOrGet(s, r)
    case RefreshOne(id) => Refresh(s, id, now)
    case Lease(tenant, workstation, owner, until) => LeaseNext(s, tenant, workstation, owner, now, until).0
    case StartOne(id, tenant, workstation) => Start(s, id, tenant, workstation, now).0
    case FinishOne(id, tenant, workstation, f) => FinishOperation(s, id, tenant, workstation, now, f).0
    case ApplyOne(id, tenant, workstation, result, ps, ds) => ApplySuccess(s, id, tenant, workstation, now, result, ps, ds).0
    case PutWorkstation(w) => UpsertWorkstation(s, w).0
    case PutProject(p) => UpsertProject(s, p).0
    case PutDrawing(d) => UpsertDrawing(s, d).0
    case SwitchOnline(id, online) => SetOnline(s, id, online).0
  }

  /** `times[i]` is the clock reading of step `i`. */
  ghost predicate IsRun(states: seq<Repo>, times: seq<int>, actions: seq<Action>) {
    && |states| == |actions| + 1 && |times| == |actions|
    && (forall i, j :: 0 <= i < j < |times| ==> times[i] <= times[j])
    && (forall i :: 0 <= i < |actions| ==>
          Permitted(states[i], times[i], actions[i]) && states[i + 1] == Step(states[i], times[i], actions[i]))
  }

  /* ------------------------------------------------------------ the invariant */

  predicate Timely(r: OperationRecord, clock: int) {
    && r.createdAt <= clock
    && (r.startedAt.Some? ==> r.startedAt.value <= clock)
    && (r.completedAt.Some? ==> r.completedAt.value <= clock)
  }

  /** Shape rules hold, no timestamp lies ahead, and a write that started never counts as expired. */
  predicate SoundRecord(r: OperationRecord, clock: int) {
    && r.ValidShape() && Timely(r, clock)
    && (r.task.IsApply() && r.startedAt.Some? ==> r.state != EXPIRED)
  }

  ghost predicate SoundOperations(ops: Operations, clock: int) {
    forall id :: id in ops ==> ops[id].id == id && SoundRecord(ops[id], clock)
  }

  /** Both records occupy the same workstation. */
  predicate Compete(a: OperationRecord, b: OperationRecord) {
    a.state.Active() && b.state.Active() && a.tenant == b.tenant && a.workstation == b.workstation
  }

  /** At most one operation per workstation is leased or running. */
  ghost predicate OneActive(ops: Operations) {
    forall i, j :: i in ops && j in ops && Compete(ops[i], ops[j]) ==> i == j
  }

  /** The idempotency index and the operations are in one-to-one correspondence. */
  ghost predicate IndexBijective(s: Repo) {
    && (forall k :: k in s.idempotency ==> s.idempotency[k] in s.operations && IndexOf(s.operations[s.idempotency[k]]) == k)
    && (forall id :: id in s.operations ==> IndexOf(s.operations[id]) in s.idempotency && s.idempotency[IndexOf(s.operations[id])] == id)
  }

  /** Every project has its workstation and every drawing its project, with the same owner all the way. */
  ghost predicate CatalogSound(s: Repo) {
    && (forall id :: id in s.workstations ==> s.workstations[id].id == id)
    && (forall id :: id in s.projects ==> s.projects[id].id == id && ProjectAdmissible(s, s.projects[id]))
    && (forall id :: id in s.drawings ==> s.drawings[id].id == id && DrawingAdmissible(s, s.drawings[id]))
  }

  ghost predicate RepoInv(s: Repo, clock: int) {
    SoundOperations(s.operations, clock) && OneActive(s.operations) && IndexBijective(s) && CatalogSound(s)
  }

  /* ------------------------------------------------------------ how one record may move */

  function Rank(state: OperationState): nat {
    if state == CREATED then 0 else if state == LEASED then 1 else if state == RUNNING then 2 else 3
  }

  /** The request part of a record, which no transition touches. */
  predicate SameRequest(a: OperationRecord, b: OperationRecord) {
    && a.id == b.id && a.tenant == b.tenant && a.owner == b.owner && a.client == b.client
    && a.workstation == b.workstation && a.idempotencyKey == b.idempotencyKey
    && a.fingerprint == b.fingerprint && a.task == b.task
    && a.createdAt == b.createdAt && a.expiresAt == b.expiresAt
  }

  /** Either nothing happened to the record, or its state moved strictly forward; a start stays on record. */
  predicate Advances(a: OperationRecord, b: OperationRecord) {
    SameRequest(a, b) && (a == b || Rank(a.state) < Rank(b.state)) && (a.startedAt.Some? ==> b.startedAt == a.startedAt)
  }

  lemma RefreshSound(r: OperationRecord, clock: int, now: int)
    requires SoundRecord(r, clock) && clock <= now
    ensures SoundRecord(RefreshDue(r, now), now) && Advances(r, RefreshDue(r, now))
    ensures RefreshDue(r, now) == r <==> !Due(r, now)
    ensures RefreshDue(r, now).state.Active() ==> RefreshDue(r, now) == r
    ensures !Due(RefreshDue(r, now), now)
    ensures Due(r, now) ==> RefreshDue(r, now).state.Terminal()
  {
  }

  /** What a step may do to the operations: keep or advance each, perhaps add one that was created. */
  ghost predicate OperationsAdvance(before: Operations, after: Operations) {
    forall id :: id in before ==> id in after && Advances(before[id], after[id])
  }

  /* ------------------------------------------------------------ each action */

  /** Replacing records by advanced ones of the same request keeps the index bijective. */
  lemma AdvanceKeepsIndex(s: Repo, ops: Operations)
    requires IndexBijective(s) && ops.Keys == s.operations.Keys && OperationsAdvance(s.operations, ops)
    ensures IndexBijective(s.(operations := ops))
  {
    assert forall id :: id in ops ==> IndexOf(ops[id]) == IndexOf(s.operations[id]);
  }

  /** No record becomes active, so no second one does. */
  lemma NoNewActive(before: Operations, after: Operations)
    requires OneActive(before) && after.Keys == before.Keys && OperationsAdvance(before, after)
    requires forall id :: id in after && after[id].state.Active() ==> before[id].state.Active()
    ensures OneActive(after)
  {
    forall i, j | i in after && j in after && Compete(after[i], after[j])
      ensures i == j
    {
      assert SameRequest(before[i], after[i]) && SameRequest(before[j], after[j]);
      assert Compete(before[i], before[j]);
    }
  }

  /** A step that replaces one record by an advanced, sound one that is not newly active. */
  lemma PutKeepsInv(s: Repo, clock: int, now: int, r: OperationRecord)
    requires RepoInv(s, clock) && clock <= now && r.id in s.operations
    requires Advances(s.operations[r.id], r) && SoundRecord(r, now)
    requires r.state.Active() ==> s.operations[r.id].state.Active()
    ensures RepoInv(Put(s, r), now) && OperationsAdvance(s.operations, Put(s, r).operations)
  {
    hide SoundRecord, Advances, IndexBijective, CatalogSound, OneActive;
    var ops := s.operations[r.id := r];
    ClockMayPass(s, clock, now);
    assert OperationsAdvance(s.operations, ops);
    AdvanceKeepsIndex(s, ops);
    NoNewActive(s.operations, ops);
    CatalogApart(s, Put(s, r));
  }

  lemma ClockMayPass(s: Repo, clock: int, now: int)
    requires RepoInv(s, clock) && clock <= now
    ensures RepoInv(s, now) && OperationsAdvance(s.operations, s.operations)
  {
  }

  /** The catalog does not depend on the operations. */
  lemma CatalogApart(s: Repo, t: Repo)
    requires CatalogSound(s)
    requires t.workstations == s.workstations && t.projects == s.projects && t.drawings == s.drawings
    ensures CatalogSound(t)
  {
  }

  lemma CreatedSound(r: OperationRecord, now: int)
    requires r.state == CREATED && r.ValidShape() && r.createdAt <= now
    ensures SoundRecord(r, now)
  {
  }

  lemma CreateIndex(s: Repo, r: OperationRecord)
    requires IndexBijective(s) && r.id !in s.operations
    ensures IndexBijective(CreateOrGet(s, r))
  {
    var t := CreateOrGet(s, r);
    if IndexOf(r) !in s.idempotency {
      forall k | k in t.idempotency
        ensures t.idempotency[k] in t.operations && IndexOf(t.operations[t.idempotency[k]]) == k
      {
        if k != IndexOf(r) {
          assert s.idempotency[k] in s.operations;
        }
      }
      forall id | id in t.operations
        ensures IndexOf(t.operations[id]) in t.idempotency && t.idempotency[IndexOf(t.operations[id])] == id
      {
        if id != r.id {
          assert IndexOf(s.operations[id]) in s.idempotency;
        }
      }
    }
  }

  lemma CreateOperations(s: Repo, now: int, r: OperationRecord)
    requires SoundOperations(s.operations, now) && OneActive(s.operations)
    requires SoundRecord(r, now) && r.state == CREATED && r.id !in s.operations
    ensures SoundOperations(CreateOrGet(s, r).operations, now) && OneActive(CreateOrGet(s, r).operations)
  {
    hide SoundRecord;
  }

  lemma CreateKeepsInv(s: Repo, clock: int, now: int, r: OperationRecord)
    requires RepoInv(s, clock) && clock <= now && Permitted(s, now, Create(r))
    ensures RepoInv(CreateOrGet(s, r), now) && OperationsAdvance(s.operations, CreateOrGet(s, r).operations)
  {
    ClockMayPass(s, clock, now);
    CreatedSound(r, now);
    CreateOperations(s, now, r);
    CreateIndex(s, r);
    CatalogApart(s, CreateOrGet(s, r));
    hide SoundOperations, OneActive, IndexBijective, CatalogSound, Advances, OperationRecord.ValidShape, IndexOf;
  }

  lemma RefreshKeepsInv(s: Repo, clock: int, now: int, id: Id)
    requires RepoInv(s, clock) && clock <= now
    ensures RepoInv(Refresh(s, id, now), now) && OperationsAdvance(s.operations, Refresh(s, id, now).operations)
  {
    if id in s.operations {
      RefreshSound(s.operations[id], clock, now);
      PutKeepsInv(s, clock, now, RefreshDue(s.operations[id], now));
    } else {
      ClockMayPass(s, clock, now);
    }
  }

  lemma StartKeepsInv(s: Repo, clock: int, now: int, id: Id, tenant: Id, workstation: Id)
    requires RepoInv(s, clock) && clock <= now
    ensures var t := Start(s, id, tenant, workstation, now).0;
            RepoInv(t, now) && OperationsAdvance(s.operations, t.operations)
  {
    ClockMayPass(s, clock, now);
    if id in s.operations && s.operations[id].state == LEASED {
      var r := s.operations[id];
      RefreshSound(r, clock, now);
      if r.leaseExpiresAt.value <= now {
        PutKeepsInv(s, clock, now, AttentionRequired(r, now));
      } else {
        PutKeepsInv(s, clock, now, r.(state := RUNNING, leaseExpiresAt := None, startedAt := Some(now)));
      }
    }
  }

  lemma UpToDateKeepsInv(s: Repo, clock: int, now: int, id: Id)
    requires RepoInv(s, clock) && clock <= now && id in s.operations
    ensures var t := BroughtUpToDate(s, id, now).0;
            && RepoInv(t, now) && OperationsAdvance(s.operations, t.operations) && id in t.operations
            && t == s.(operations := t.operations)
            && t.operations[id] == RefreshDue(s.operations[id], now)
  {
    RefreshSound(s.operations[id], clock, now);
    ClockMayPass(s, clock, now);
    if Due(s.operations[id], now) {
      PutKeepsInv(s, clock, now, RefreshDue(s.operations[id], now));
    }
  }

  lemma AdvanceTwice(a: Operations, b: Operations, c: Operations)
    requires OperationsAdvance(a, b) && OperationsAdvance(b, c)
    ensures OperationsAdvance(a, c)
  {
  }

  /** A running record that finishes coherently is sound and has advanced. */
  lemma FinishSound(r: OperationRecord, clock: int, now: int, f: Finish)
    requires SoundRecord(r, clock) && clock <= now && r.state == RUNNING
    requires Finished(r, now, f).ValidShape() && f.state.Terminal() && f.state != EXPIRED
    ensures SoundRecord(Finished(r, now, f), now) && Advances(r, Finished(r, now, f))
  {
  }

  lemma FinishKeepsInv(s: Repo, clock: int, now: int, id: Id, tenant: Id, workstation: Id, f: Finish)
    requires RepoInv(s, clock) && clock <= now
    ensures var t := FinishOperation(s, id, tenant, workstation, now, f).0;
            RepoInv(t, now) && OperationsAdvance(s.operations, t.operations)
  {
    hide RepoInv, Advances, OperationsAdvance, BroughtUpToDate, OperationRecord.ValidShape, RefreshDue, Due;
    ClockMayPass(s, clock, now);
    if id in s.operations {
      UpToDateKeepsInv(s, clock, now, id);
      var t := BroughtUpToDate(s, id, now).0;
      CompleteKeepsInv(t, now, id, f);
      if f.state.Terminal() && f.state != EXPIRED && t.operations[id].state == RUNNING && Finished(t.operations[id], now, f).ValidShape() {
        AdvanceTwice(s.operations, t.operations, Put(t, Finished(t.operations[id], now, f)).operations);
      }
    }
  }

  lemma CompleteKeepsInv(t: Repo, now: int, id: Id, f: Finish)
    requires RepoInv(t, now) && id in t.operations
    ensures t.operations[id].state == RUNNING && Finished(t.operations[id], now, f).ValidShape() && f.state.Terminal() && f.state != EXPIRED ==>
      && RepoInv(Put(t, Finished(t.operations[id], now, f)), now)
      && OperationsAdvance(t.operations, Put(t, Finished(t.operations[id], now, f)).operations)
  {
    var r := t.operations[id];
    if r.state == RUNNING && Finished(r, now, f).ValidShape() && f.state.Terminal() && f.state != EXPIRED {
      FinishSound(r, now, now, f);
      PutKeepsInv(t, now, now, Finished(r, now, f));
    }
  }

  lemma {:induction false} ProjectRows(base: map<Id, ProjectRecord>, ps: seq<ProjectRecord>)
    ensures forall id :: id in WithProjects(base, ps) <==> id in base || exists p :: p in ps && p.id == id
    ensures forall id :: id in WithProjects(base, ps) ==>
      (id in base && WithProjects(base, ps)[id] == base[id]) || (WithProjects(base, ps)[id] in ps && WithProjects(base, ps)[id].id == id)
  {
    if ps != [] {
      ProjectRows(base, ps[..|ps| - 1]);
      assert ps == ps[..|ps| - 1] + [ps[|ps| - 1]];
    }
  }

  lemma {:induction false} DrawingRows(base: map<Id, DrawingRecord>, ds: seq<DrawingRecord>)
    ensures forall id :: id in WithDrawings(base, ds) <==> id in base || exists d :: d in ds && d.id == id
    ensures forall id :: id in WithDrawings(base, ds) ==>
      (id in base && WithDrawings(base, ds)[id] == base[id]) || (WithDrawings(base, ds)[id] in ds && WithDrawings(base, ds)[id].id == id)
  {
    if ds != [] {
      DrawingRows(base, ds[..|ds| - 1]);
      assert ds == ds[..|ds| - 1] + [ds[|ds| - 1]];
    }
  }

  /** Catalog rows stay, and keep their tenant, owner, workstation and project. */
  ghost predicate OwnersKept(s: Repo, t: Repo) {
    && (forall id :: id in s.workstations ==>
          id in t.workstations && t.workstations[id].tenant == s.workstations[id].tenant && t.workstations[id].owner == s.workstations[id].owner)
    && (forall id :: id in s.projects ==> id in t.projects && SameProjectOwner(s.projects[id], t.projects[id]))
    && (forall id :: id in s.drawings ==> id in t.drawings && SameDrawingOwner(s.drawings[id], t.drawings[id]))
  }

  lemma CommitProjects(s: Repo, ps: seq<ProjectRecord>)
    requires CatalogSound(s) && forall p :: p in ps ==> ProjectAdmissible(s, p)
    ensures CatalogSound(s.(projects := WithProjects(s.projects, ps)))
    ensures OwnersKept(s, s.(projects := WithProjects(s.projects, ps)))
  {
    ProjectRows(s.projects, ps);
    var t := s.(projects := WithProjects(s.projects, ps));
    forall id | id in t.projects
      ensures t.projects[id].id == id && ProjectAdmissible(t, t.projects[id])
      ensures id in s.projects ==> SameProjectOwner(s.projects[id], t.projects[id])
    {
      assert ProjectAdmissible(s, t.projects[id]);
    }
    forall id | id in t.drawings ensures DrawingAdmissible(t, t.drawings[id]) {
      assert DrawingAdmissible(s, s.drawings[id]);
    }
  }

  lemma CommitDrawings(s: Repo, ds: seq<DrawingRecord>)
    requires CatalogSound(s) && forall d :: d in ds ==> DrawingAdmissible(s, d)
    ensures CatalogSound(s.(drawings := WithDrawings(s.drawings, ds)))
    ensures OwnersKept(s, s.(drawings := WithDrawings(s.drawings, ds)))
  {
    DrawingRows(s.drawings, ds);
    var t := s.(drawings := WithDrawings(s.drawings, ds));
    forall id | id in t.drawings
      ensures t.drawings[id].id == id && DrawingAdmissible(t, t.drawings[id])
      ensures id in s.drawings ==> SameDrawingOwner(s.drawings[id], t.drawings[id])
    {
      assert DrawingAdmissible(s, t.drawings[id]);
    }
    assert forall id :: id in t.projects ==> ProjectAdmissible(s, t.projects[id]);
  }

  /** What every step guarantees: the invariant, forward movement, and unchanged ownership. */
  ghost predicate GoodStep(s: Repo, t: Repo, now: int) {
    RepoInv(t, now) && OperationsAdvance(s.operations, t.operations) && OwnersKept(s, t)
  }

  lemma OwnersKeptTwice(s: Repo, t: Repo, v: Repo)
    requires OwnersKept(s, t) && OwnersKept(t, v)
    ensures OwnersKept(s, v)
  {
  }

  /** Committing the rows of an accepted success keeps the catalog sound. */
  lemma CommitKeepsCatalog(s: Repo, r: OperationRecord, result: TaskResult, ps: seq<ProjectRecord>, ds: seq<DrawingRecord>)
    requires CatalogSound(s) && CatalogError(s, r, result, ps, ds).None?
    ensures var t := s.(projects := WithProjects(s.projects, ps), drawings := WithDrawings(s.drawings, ds));
            CatalogSound(t) && OwnersKept(s, t)
  {
    var view := s.(projects := WithProjects(s.projects, ps));
    assert forall p :: p in ps ==> ProjectCommittable(s, r, p);
    assert forall d :: d in ds ==> DrawingCommittable(view, r, d);
    CommitProjects(s, ps);
    CommitDrawings(view, ds);
    OwnersKeptTwice(s, view, view.(drawings := WithDrawings(s.drawings, ds)));
  }

  /** An accepted success completes the running record coherently. */
  lemma SuccessFits(r: OperationRecord, now: int, result: TaskResult)
    requires SoundRecord(r, now) && r.state == RUNNING && result.Command() == r.task.Command()
    ensures Finished(r, now, Finish(SUCCEEDED, Some(result), None)).ValidShape()
  {
  }

  /** The running operation accepts the rows. */
  predicate Accepts(t: Repo, id: Id, result: TaskResult, ps: seq<ProjectRecord>, ds: seq<DrawingRecord>) {
    id in t.operations && t.operations[id].state == RUNNING && CatalogError(t, t.operations[id], result, ps, ds).None?
  }

  function Completion(r: OperationRecord, now: int, result: TaskResult): OperationRecord {
    Finished(r, now, Finish(SUCCEEDED, Some(result), None))
  }

  function WithRows(t: Repo, ps: seq<ProjectRecord>, ds: seq<DrawingRecord>): Repo {
    t.(projects := WithProjects(t.projects, ps), drawings := WithDrawings(t.drawings, ds))
  }

  /** Applying a success does nothing, or brings the record up to date, or after that commits everything. */
  lemma ApplyCases(
      s: Repo, id: Id, tenant: Id, workstation: Id, now: int,
      result: TaskResult, ps: seq<ProjectRecord>, ds: seq<DrawingRecord>)
    ensures var after := ApplySuccess(s, id, tenant, workstation, now, result, ps, ds).0;
            || after == s
            || (id in s.operations && after == BroughtUpToDate(s, id, now).0)
            || (id in s.operations
                && var t := BroughtUpToDate(s, id, now).0;
                   id in t.operations && Accepts(t, id, result, ps, ds)
                   && after == (if Completion(t.operations[id], now, result).ValidShape()
                                then Put(WithRows(t, ps, ds), Completion(t.operations[id], now, result))
                                else WithRows(t, ps, ds)))
  {
    hide CatalogError, RefreshDue, Due, WithProjects, WithDrawings;
  }

  lemma CommitKeepsInv(t: Repo, now: int, id: Id, result: TaskResult, ps: seq<ProjectRecord>, ds: seq<DrawingRecord>)
    requires RepoInv(t, now) && Accepts(t, id, result, ps, ds)
    ensures Completion(t.operations[id], now, result).ValidShape()
    ensures GoodStep(t, Put(WithRows(t, ps, ds), Completion(t.operations[id], now, result)), now)
  {
    var r := t.operations[id];
    CommitKeepsCatalog(t, r, result, ps, ds);
    SuccessFits(r, now, result);
    CompleteKeepsInv(t, now, id, Finish(SUCCEEDED, Some(result), None));
    CommittedInv(t, WithRows(t, ps, ds), now, id, Completion(r, now, result));
    hide RepoInv, OperationsAdvance, CatalogError, OperationRecord.ValidShape, CatalogSound, WithProjects, WithDrawings;
  }

  lemma ApplyKeepsInv(
      s: Repo, clock: int, now: int, id: Id, tenant: Id, workstation: Id,
      result: TaskResult, ps: seq<ProjectRecord>, ds: seq<DrawingRecord>)
    requires RepoInv(s, clock) && clock <= now
    ensures GoodStep(s, ApplySuccess(s, id, tenant, workstation, now, result, ps, ds).0, now)
  {
    hide RepoInv, OperationsAdvance, CatalogError, BroughtUpToDate, WithProjects, WithDrawings, Accepts, ApplySuccess;
    ClockMayPass(s, clock, now);
    ApplyCases(s, id, tenant, workstation, now, result, ps, ds);
    if id in s.operations {
      UpToDateKeepsInv(s, clock, now, id);
      var t := BroughtUpToDate(s, id, now).0;
      if Accepts(t, id, result, ps, ds) {
        CommitKeepsInv(t, now, id, result, ps, ds);
        var after := Put(WithRows(t, ps, ds), Completion(t.operations[id], now, result));
        AdvanceTwice(s.operations, t.operations, after.operations);
        OwnersKeptTwice(s, t, after);
      }
    }
  }

  /** Operations and catalog are committed together and do not disturb each other. */
  lemma CommittedInv(t: Repo, committed: Repo, now: int, id: Id, r: OperationRecord)
    requires RepoInv(Put(t, r), now) && CatalogSound(committed)
    requires committed == t.(projects := committed.projects, drawings := committed.drawings)
    ensures RepoInv(Put(committed, r), now)
  {
    CatalogApart(committed, Put(committed, r));
    assert IndexBijective(Put(t, r));
    assert IndexBijective(Put(committed, r));
  }

  lemma RefreshedForAdvances(ops: Operations, clock: int, now: int, tenant: Id, workstation: Id)
    requires SoundOperations(ops, clock) && OneActive(ops) && clock <= now
    ensures var after := RefreshedFor(ops, tenant, workstation, now);
            && after.Keys == ops.Keys && OperationsAdvance(ops, after)
            && SoundOperations(after, now) && OneActive(after)
  {
    var after := RefreshedFor(ops, tenant, workstation, now);
    forall id | id in ops
      ensures Advances(ops[id], after[id]) && SoundRecord(after[id], now) && after[id].id == id
      ensures after[id].state.Active() ==> ops[id].state.Active()
    {
      RefreshSound(ops[id], clock, now);
    }
    hide RefreshedFor, SoundRecord, Advances;
    AdvancesKeepRequest();
    NoNewActive(ops, after);
  }

  lemma AdvancesKeepRequest()
    ensures forall a, b :: Advances(a, b) ==> SameRequest(a, b)
  {
  }

  /** The selected operation is not due, so the branch that would expire it is never taken. */
  lemma LeaseNeverExpires(s: Repo, clock: int, now: int, tenant: Id, workstation: Id, owner: Id, until: int, id: Id)
    requires RepoInv(s, clock) && clock <= now < until
    requires IsNext(RefreshedFor(s.operations, tenant, workstation, now), tenant, workstation, owner, id)
    ensures var r := RefreshedFor(s.operations, tenant, workstation, now)[id];
            && r.id == id && now < Min(until, r.expiresAt) && r == s.operations[id]
            && LeaseTo(r, until).ValidShape() && SoundRecord(LeaseTo(r, until), now) && Advances(r, LeaseTo(r, until))
  {
    RefreshSound(s.operations[id], clock, now);
  }

  lemma LeaseKeepsInv(s: Repo, clock: int, now: int, tenant: Id, workstation: Id, owner: Id, until: int)
    requires RepoInv(s, clock) && clock <= now < until
    ensures GoodStep(s, LeaseNext(s, tenant, workstation, owner, now, until).0, now)
  {
    hide RepoInv, RefreshedFor, Busy, SoundRecord, OperationRecord.ValidShape, Advances, OperationsAdvance, Min;
    var ops := RefreshedFor(s.operations, tenant, workstation, now);
    RefreshedForKeepsInv(s, clock, now, tenant, workstation);
    if !Busy(ops, tenant, workstation) && SomeNext(ops, tenant, workstation, owner) {
      var id := NextId(ops, tenant, workstation, owner);
      LeaseNeverExpires(s, clock, now, tenant, workstation, owner, until, id);
      LeasedInv(s.(operations := ops), now, id, until, tenant, workstation);
      AdvanceTwice(s.operations, ops, ops[id := LeaseTo(ops[id], until)]);
    }
  }

  lemma RefreshedForKeepsInv(s: Repo, clock: int, now: int, tenant: Id, workstation: Id)
    requires RepoInv(s, clock) && clock <= now
    ensures GoodStep(s, s.(operations := RefreshedFor(s.operations, tenant, workstation, now)), now)
  {
    var ops := RefreshedFor(s.operations, tenant, workstation, now);
    RefreshedForAdvances(s.operations, clock, now, tenant, workstation);
    AdvanceKeepsIndex(s, ops);
    CatalogApart(s, s.(operations := ops));
    hide RefreshedFor, SoundRecord, Advances, CatalogSound, IndexBijective, OneActive;
  }

  /** Leasing on a workstation without active operations leaves it with exactly one. */
  lemma LeasedInv(s: Repo, now: int, id: Id, until: int, tenant: Id, workstation: Id)
    requires RepoInv(s, now) && id in s.operations && BelongsTo(s.operations[id], tenant, workstation)
    requires !Busy(s.operations, tenant, workstation)
    requires SoundRecord(LeaseTo(s.operations[id], until), now) && Advances(s.operations[id], LeaseTo(s.operations[id], until))
    ensures var t := s.(operations := s.operations[id := LeaseTo(s.operations[id], until)]);
            RepoInv(t, now) && OperationsAdvance(s.operations, t.operations)
  {
    var ops := s.operations[id := LeaseTo(s.operations[id], until)];
    AdvanceKeepsIndex(s, ops);
    CatalogApart(s, s.(operations := ops));
    hide SoundRecord, Advances, CatalogSound, IndexBijective;
    assert forall o :: o in s.operations && BelongsTo(s.operations[o], tenant, workstation) ==> !s.operations[o].state.Active();
    forall i, j | i in ops && j in ops && Compete(ops[i], ops[j]) ensures i == j {
      if i != id && j != id {
        assert Compete(s.operations[i], s.operations[j]);
      }
    }
  }

  /* ------------------------------------------------------------ catalog actions */

  lemma WorkstationKeepsInv(s: Repo, now: int, w: WorkstationRecord)
    requires CatalogSound(s)
    requires w.id in s.workstations ==> s.workstations[w.id].tenant == w.tenant && s.workstations[w.id].owner == w.owner
    ensures var t := s.(workstations := s.workstations[w.id := w]); CatalogSound(t) && OwnersKept(s, t)
  {
    var t := s.(workstations := s.workstations[w.id := w]);
    assert forall id :: id in s.projects ==> ProjectAdmissible(s, s.projects[id]);
    assert forall id :: id in s.drawings ==> DrawingAdmissible(s, s.drawings[id]) && DrawingAdmissible(t, s.drawings[id]);
  }

  /** An upsert of one row commits a list of one. */
  lemma OneRow(s: Repo, p: ProjectRecord, d: DrawingRecord)
    ensures WithProjects(s.projects, [p]) == s.projects[p.id := p]
    ensures WithDrawings(s.drawings, [d]) == s.drawings[d.id := d]
  {
    assert [p][..0] == [] && [d][..0] == [];
  }

  lemma CatalogActionKeepsInv(s: Repo, clock: int, now: int, a: Action)
    requires RepoInv(s, clock) && clock <= now
    requires a.PutWorkstation? || a.PutProject? || a.PutDrawing? || a.SwitchOnline?
    ensures GoodStep(s, Step(s, now, a), now)
  {
    ClockMayPass(s, clock, now);
    match a
    case PutWorkstation(w) =>
      if UpsertWorkstation(s, w).1.None? {
        WorkstationKeepsInv(s, now, w);
        SameOperations(s, UpsertWorkstation(s, w).0, now);
      }
    case SwitchOnline(id, online) =>
      if id in s.workstations {
        WorkstationKeepsInv(s, now, s.workstations[id].(online := online));
        SameOperations(s, SetOnline(s, id, online).0, now);
      }
    case PutProject(p) =>
      if ProjectAdmissible(s, p) {
        CommitProjects(s, [p]);
        OneRow(s, p, DrawingRecord(0, 0, 0, 0, 0, "", false));
        SameOperations(s, UpsertProject(s, p).0, now);
      }
    case PutDrawing(d) =>
      if DrawingAdmissible(s, d) {
        CommitDrawings(s, [d]);
        OneRow(s, ProjectRecord(0, 0, 0, 0, "", false), d);
        SameOperations(s, UpsertDrawing(s, d).0, now);
      }
  }

  lemma SameOperations(s: Repo, t: Repo, now: int)
    requires RepoInv(s, now) && CatalogSound(t) && t.operations == s.operations && t.idempotency == s.idempotency
    ensures RepoInv(t, now) && OperationsAdvance(s.operations, t.operations)
  {
  }

  lemma NoCatalogChange(s: Repo, t: Repo)
    requires t.workstations == s.workstations && t.projects == s.projects && t.drawings == s.drawings
    ensures OwnersKept(s, t)
  {
  }

  /** Every permitted step keeps the invariant, moves operations only forward and keeps every owner. */
  lemma StepKeepsInv(s: Repo, clock: int, now: int, a: Action)
    requires RepoInv(s, clock) && clock <= now && Permitted(s, now, a)
    ensures GoodStep(s, Step(s, now, a), now)
  {
    hide RepoInv, OperationsAdvance, BroughtUpToDate, RefreshDue, Due, LeaseNext, OwnersKept;
    match a
    case Create(r) => CreateKeepsInv(s, clock, now, r); NoCatalogChange(s, CreateOrGet(s, r));
    case RefreshOne(id) => RefreshKeepsInv(s, clock, now, id); NoCatalogChange(s, Refresh(s, id, now));
    case Lease(tenant, workstation, owner, until) => LeaseKeepsInv(s, clock, now, tenant, workstation, owner, until);
    case StartOne(id, tenant, workstation) =>
      StartKeepsInv(s, clock, now, id, tenant, workstation);
      NoCatalogChange(s, Start(s, id, tenant, workstation, now).0);
    case FinishOne(id, tenant, workstation, f) =>
      FinishKeepsInv(s, clock, now, id, tenant, workstation, f);
      FinishKeepsCatalog(s, id, tenant, workstation, now, f);
    case ApplyOne(id, tenant, workstation, result, ps, ds) =>
      ApplyKeepsInv(s, clock, now, id, tenant, workstation, result, ps, ds);
    case _ => CatalogActionKeepsInv(s, clock, now, a);
  }

  lemma FinishKeepsCatalog(s: Repo, id: Id, tenant: Id, workstation: Id, now: int, f: Finish)
    ensures OwnersKept(s, FinishOperation(s, id, tenant, workstation, now, f).0)
  {
    hide RefreshDue, Due, Finished, OperationRecord.ValidShape, OwnersKept;
    NoCatalogChange(s, FinishOperation(s, id, tenant, workstation, now, f).0);
  }

  lemma EmptyIsSound(clock: int)
    ensures RepoInv(EmptyRepo, clock)
  {
  }

  /* ------------------------------------------------------------ whole runs */

  /** The invariant holds in every state of a run that starts with an empty repository. */
  lemma {:induction false} RunKeepsInv(states: seq<Repo>, times: seq<int>, actions: seq<Action>, i: nat)
    requires IsRun(states, times, actions) && states[0] == EmptyRepo && i < |states|
    ensures forall clock :: (i > 0 ==> times[i - 1] <= clock) ==> RepoInv(states[i], clock)
  {
    if i == 0 {
      forall clock: int ensures RepoInv(states[0], clock) {
        EmptyIsSound(clock);
      }
    } else {
      RunKeepsInv(states, times, actions, i - 1);
      var now := times[i - 1];
      assert i - 1 > 0 ==> times[i - 2] <= now;
      StepKeepsInv(states[i - 1], now, now, actions[i - 1]);
      hide RepoInv, Step;
      forall clock | now <= clock ensures RepoInv(states[i], clock) {
        ClockMayPass(states[i], now, clock);
      }
    }
  }

  /** Between any two states of a run operations have only advanced and owners have stayed. */
  lemma {:induction false} RunAdvances(states: seq<Repo>, times: seq<int>, actions: seq<Action>, i: nat, j: nat)
    requires IsRun(states, times, actions) && states[0] == EmptyRepo && i <= j < |states|
    ensures OperationsAdvance(states[i].operations, states[j].operations) && OwnersKept(states[i], states[j])
    decreases j - i
  {
    if i < j {
      RunAdvances(states, times, actions, i, j - 1);
      RunKeepsInv(states, times, actions, j - 1);
      var now := times[j - 1];
      assert j - 1 > 0 ==> times[j - 2] <= now;
      StepKeepsInv(states[j - 1], now, now, actions[j - 1]);
      hide RepoInv, Step, OperationsAdvance, OwnersKept;
      AdvanceTwice(states[i].operations, states[j - 1].operations, states[j].operations);
      OwnersKeptTwice(states[i], states[j - 1], states[j]);
    }
  }

  /** Once an operation has ended its record never changes again. */
  lemma TerminalIsFinal(states: seq<Repo>, times: seq<int>, actions: seq<Action>, i: nat, j: nat, id: Id)
    requires IsRun(states, times, actions) && states[0] == EmptyRepo && i <= j < |states|
    requires id in states[i].operations && states[i].operations[id].state.Terminal()
    ensures id in states[j].operations && states[j].operations[id] == states[i].operations[id]
  {
    RunAdvances(states, times, actions, i, j);
    assert Advances(states[i].operations[id], states[j].operations[id]);
  }

  /** Step `i` leased operation `id`. */
  ghost predicate Leases(states: seq<Repo>, times: seq<int>, actions: seq<Action>, i: nat, id: Id)
    requires i < |actions| <= |times| && |actions| <= |states|
  {
    && actions[i].Lease?
    && var a := actions[i];
       var leased := LeaseNext(states[i], a.tenant, a.workstation, a.owner, times[i], a.until).1;
       leased.Ok? && leased.value.Some? && leased.value.value.id == id
  }

  lemma LeaseStep(s: Repo, clock: int, now: int, tenant: Id, workstation: Id, owner: Id, until: int)
    requires RepoInv(s, clock) && clock <= now < until
    ensures var (t, leased) := LeaseNext(s, tenant, workstation, owner, now, until);
            && leased.Ok?
            && (leased.value.Some? ==>
                  var r := leased.value.value;
                  && r.id in s.operations && s.operations[r.id].state == CREATED
                  && r.id in t.operations && t.operations[r.id] == r && r.state == LEASED)
  {
    var ops := RefreshedFor(s.operations, tenant, workstation, now);
    if !Busy(ops, tenant, workstation) && SomeNext(ops, tenant, workstation, owner) {
      var id := NextId(ops, tenant, workstation, owner);
      LeaseNeverExpires(s, clock, now, tenant, workstation, owner, until, id);
      hide RefreshedFor, Busy;
    }
  }

  /** No operation is leased twice in a run. */
  lemma LeasedAtMostOnce(states: seq<Repo>, times: seq<int>, actions: seq<Action>, i: nat, j: nat, id: Id)
    requires IsRun(states, times, actions) && states[0] == EmptyRepo && i < |actions| && j < |actions|
    requires Leases(states, times, actions, i, id) && Leases(states, times, actions, j, id)
    ensures i == j
  {
    if i != j {
      var first, second := if i < j then i else j, if i < j then j else i;
      LeasedOnce(states, times, actions, first, second, id);
    }
  }

  lemma LeasedOnce(states: seq<Repo>, times: seq<int>, actions: seq<Action>, i: nat, j: nat, id: Id)
    requires IsRun(states, times, actions) && states[0] == EmptyRepo && i < j < |actions|
    requires Leases(states, times, actions, i, id)
    ensures !Leases(states, times, actions, j, id)
  {
    hide RepoInv, LeaseNext, OwnersKept;
    RunKeepsInv(states, times, actions, i);
    RunKeepsInv(states, times, actions, j);
    RunAdvances(states, times, actions, i + 1, j);
    assert states[i + 1] == Step(states[i], times[i], actions[i]);
    LeaseStep(states[i], times[i], times[i], actions[i].tenant, actions[i].workstation, actions[i].owner, actions[i].until);
    assert Advances(states[i + 1].operations[id], states[j].operations[id]);
    if actions[j].Lease? {
      LeaseStep(states[j], times[j], times[j], actions[j].tenant, actions[j].workstation, actions[j].owner, actions[j].until);
    }
  }

  /** A translation write that has started ends as succeeded, failed or in need of attention, never as expired. */
  lemma StartedWriteNeverExpires(states: seq<Repo>, times: seq<int>, actions: seq<Action>, i: nat, j: nat, id: Id)
    requires IsRun(states, times, actions) && states[0] == EmptyRepo && i <= j < |states|
    requires id in states[i].operations && states[i].operations[id].state == RUNNING && states[i].operations[id].task.IsApply()
    ensures id in states[j].operations && states[j].operations[id].state in {RUNNING, SUCCEEDED, FAILED, ATTENTION_REQUIRED}
  {
    RunAdvances(states, times, actions, i, j);
    assert Advances(states[i].operations[id], states[j].operations[id]);
    RunSound(states, times, actions, i, id);
    RunSound(states, times, actions, j, id);
  }

  lemma RunSound(states: seq<Repo>, times: seq<int>, actions: seq<Action>, i: nat, id: Id)
    requires IsRun(states, times, actions) && states[0] == EmptyRepo && i < |states| && id in states[i].operations
    ensures exists clock :: SoundRecord(states[i].operations[id], clock)
  {
    RunKeepsInv(states, times, actions, i);
    var clock := if i > 0 then times[i - 1] else 0;
    assert RepoInv(states[i], clock);
    assert SoundRecord(states[i].operations[id], clock);
  }

  /** A repeated request finds the operation of the first one in every later state: same id, request and fingerprint. */
  lemma RetryFindsTheSame(states: seq<Repo>, times: seq<int>, actions: seq<Action>, i: nat, j: nat, key: IdempotencyIndex)
    requires IsRun(states, times, actions) && states[0] == EmptyRepo && i <= j < |states| && key in states[i].idempotency
    ensures key in states[j].idempotency && states[j].idempotency[key] == states[i].idempotency[key]
    ensures var id := states[i].idempotency[key];
            && id in states[i].operations && id in states[j].operations
            && SameRequest(states[i].operations[id], states[j].operations[id])
  {
    hide SoundOperations, OneActive, CatalogSound, OwnersKept, Step;
    RunKeepsInv(states, times, actions, i);
    RunKeepsInv(states, times, actions, j);
    RunAdvances(states, times, actions, i, j);
    assert RepoInv(states[i], if i > 0 then times[i - 1] else 0);
    assert RepoInv(states[j], if j > 0 then times[j - 1] else 0);
    var id := states[i].idempotency[key];
    assert Advances(states[i].operations[id], states[j].operations[id]);
  }
}
