/**
 The repository of services/gateway/cadplot_gateway/repositories.py as a state machine. Every
 method of the source runs under one lock, so each is one atomic step from one `Repo` to the next.
 */
module GatewaySteps {
  import opened Wrappers
  import opened GatewayModels

  datatype IdempotencyIndex = IdempotencyIndex(tenant: Id, owner: Id, client: Id, key: Id)

  type Operations = map<Id, OperationRecord>

  datatype Repo = Repo(
    workstations: map<Id, WorkstationRecord>, projects: map<Id, ProjectRecord>,
    drawings: map<Id, DrawingRecord>, operations: Operations, idempotency: map<IdempotencyIndex, Id>)

  const EmptyRepo: Repo := Repo(map[], map[], map[], map[], map[])

  datatype CreateStatus = CreatedNow | Existing | Conflict

  datatype TransitionStatus = Updated | NotFound | InvalidState | LeaseExpired | OperationExpired

  datatype Rejection = InvalidTerminalState | ShapeError | ResultTaskMismatch | InvalidCatalogPayload
    | WorkstationOwnerMismatch | ProjectOwnerMismatch | DrawingOwnerMismatch | WorkstationNotFound

  /** A method answers with a status and a record, or raises. */
  datatype Outcome = Transition(status: TransitionStatus, operation: Option<OperationRecord>) | Raised(reason: Rejection)

  /* ------------------------------------------------------------ deadlines */

  function Expire(r: OperationRecord, now: int): OperationRecord {
    r.(state := EXPIRED, leaseExpiresAt := None, completedAt := Some(now), errorCode := Some("operation_expired"))
  }

  function AttentionRequired(r: OperationRecord, now: int): OperationRecord {
    r.(state := ATTENTION_REQUIRED, leaseExpiresAt := None, completedAt := Some(now), errorCode := Some("lease_expired"))
  }

  /** A deadline has passed that the record does not show yet. */
  predicate Due(r: OperationRecord, now: int) {
    || (r.state == CREATED && r.expiresAt <= now)
    || (r.state == LEASED && r.leaseExpiresAt.Some? && r.leaseExpiresAt.value <= now)
    || (r.state == RUNNING && r.expiresAt <= now)
  }

  /** `_refresh_due`. */
  function RefreshDue(r: OperationRecord, now: int): OperationRecord {
    if r.state == CREATED && r.expiresAt <= now then Expire(r, now)
    else if r.state == LEASED && r.leaseExpiresAt.Some? && r.leaseExpiresAt.value <= now then AttentionRequired(r, now)
    else if r.state == RUNNING && r.expiresAt <= now then
      if r.task.IsApply() then
        r.(state := ATTENTION_REQUIRED, completedAt := Some(now), errorCode := Some("translation_attention_required"))
      else Expire(r, now)
    else r
  }

  predicate BelongsTo(r: OperationRecord, tenant: Id, workstation: Id) {
    r.tenant == tenant && r.workstation == workstation
  }

  /* ------------------------------------------------------------ creating and reading */

  function IndexOf(r: OperationRecord): IdempotencyIndex {
    IdempotencyIndex(r.tenant, r.owner, r.client, r.idempotencyKey)
  }

  function CreateOrGet(s: Repo, r: OperationRecord): Repo {
    if IndexOf(r) in s.idempotency then s
    else s.(operations := s.operations[r.id := r], idempotency := s.idempotency[IndexOf(r) := r.id])
  }

  function Refresh(s: Repo, id: Id, now: int): Repo {
    if id in s.operations then s.(operations := s.operations[id := RefreshDue(s.operations[id], now)]) else s
  }

  /* ------------------------------------------------------------ leasing */

  /** The operations after the deadlines of one workstation have been brought up to date. */
  function RefreshedFor(ops: Operations, tenant: Id, workstation: Id, now: int): Operations {
    map id | id in ops :: if BelongsTo(ops[id], tenant, workstation) then RefreshDue(ops[id], now) else ops[id]
  }

  predicate Busy(ops: Operations, tenant: Id, workstation: Id) {
    exists id :: id in ops && BelongsTo(ops[id], tenant, workstation) && ops[id].state.Active()
  }

  predicate Leasable(r: OperationRecord, tenant: Id, workstation: Id, owner: Id) {
    BelongsTo(r, tenant, workstation) && r.owner == owner && r.state == CREATED
  }

  /** First by creation time, then by operation id. */
  predicate NotAfter(a: OperationRecord, b: OperationRecord) {
    a.createdAt < b.createdAt || (a.createdAt == b.createdAt && a.id <= b.id)
  }

  /** `id` is the operation that a free workstation gets next. */
  predicate IsNext(ops: Operations, tenant: Id, workstation: Id, owner: Id, id: Id) {
    && id in ops
    && Leasable(ops[id], tenant, workstation, owner)
    && forall other :: other in ops && Leasable(ops[other], tenant, workstation, owner) ==> NotAfter(ops[id], ops[other])
  }

  function Min(a: int, b: int): int {
    if b < a then b else a
  }

  function LeaseTo(r: OperationRecord, leaseExpiresAt: int): OperationRecord {
    r.(state := LEASED, leaseExpiresAt := Some(Min(leaseExpiresAt, r.expiresAt)))
  }

  ghost predicate SomeNext(ops: Operations, tenant: Id, workstation: Id, owner: Id) {
    exists id :: IsNext(ops, tenant, workstation, owner, id)
  }

  ghost function NextId(ops: Operations, tenant: Id, workstation: Id, owner: Id): (id: Id)
    requires SomeNext(ops, tenant, workstation, owner)
    ensures IsNext(ops, tenant, workstation, owner, id)
  {
    var id :| IsNext(ops, tenant, workstation, owner, id);
    id
  }

  /**
   The repository after `lease_next_operation`, and the record it returns. The records of the
   workstation stay refreshed even when nothing is leased or the new record is refused.
   */
  ghost function LeaseNext(s: Repo, tenant: Id, workstation: Id, owner: Id, now: int, leaseExpiresAt: int)
    : (Repo, Result<Option<OperationRecord>, Rejection>)
  {
    var ops := RefreshedFor(s.operations, tenant, workstation, now);
    var refreshed := s.(operations := ops);
    if Busy(ops, tenant, workstation) || !SomeNext(ops, tenant, workstation, owner) then (refreshed, Ok(None))
    else
      var selected := ops[NextId(ops, tenant, workstation, owner)];
      if Min(leaseExpiresAt, selected.expiresAt) <= now then (Put(refreshed, Expire(selected, now)), Ok(None))
      else
        var leased := LeaseTo(selected, leaseExpiresAt);
        if !leased.ValidShape() then (refreshed, Err(ShapeError)) else (Put(refreshed, leased), Ok(Some(leased)))
  }

  /* ------------------------------------------------------------ starting and finishing */

  function Put(s: Repo, r: OperationRecord): Repo {
    s.(operations := s.operations[r.id := r])
  }

  function Start(s: Repo, id: Id, tenant: Id, workstation: Id, now: int): (Repo, Outcome) {
    if id !in s.operations || !BelongsTo(s.operations[id], tenant, workstation) then (s, Transition(NotFound, None))
    else
      var r := s.operations[id];
      if r.state == LEASED && r.leaseExpiresAt.Some? && r.leaseExpiresAt.value <= now then
        var attention := AttentionRequired(r, now);
        (Put(s, attention), Transition(LeaseExpired, Some(attention)))
      else if r.state != LEASED then (s, Transition(InvalidState, Some(r)))
      else
        var running := r.(state := RUNNING, leaseExpiresAt := None, startedAt := Some(now));
        if !running.ValidShape() then (s, Raised(ShapeError)) else (Put(s, running), Transition(Updated, Some(running)))
  }

  datatype Finish = Finish(state: OperationState, result: Option<TaskResult>, errorCode: Option<string>)

  function Finished(r: OperationRecord, now: int, f: Finish): OperationRecord {
    r.(state := f.state, completedAt := Some(now), result := f.result, errorCode := f.errorCode)
  }

  /** The part that finishing and applying share: bring the record up to date and report a lost deadline. */
  function BroughtUpToDate(s: Repo, id: Id, now: int): (Repo, Option<Outcome>)
    requires id in s.operations
  {
    var r := s.operations[id];
    var refreshed := RefreshDue(r, now);
    if !Due(r, now) then (s, None)
    else if refreshed.state == EXPIRED then (Put(s, refreshed), Some(Transition(OperationExpired, Some(refreshed))))
    else (Put(s, refreshed), None)
  }

  function FinishOperation(s: Repo, id: Id, tenant: Id, workstation: Id, now: int, f: Finish): (Repo, Outcome) {
    if !(f.state == SUCCEEDED || f.state == FAILED || f.state == ATTENTION_REQUIRED) then (s, Raised(InvalidTerminalState))
    else if id !in s.operations || !BelongsTo(s.operations[id], tenant, workstation) then (s, Transition(NotFound, None))
    else
      var (t, stop) := BroughtUpToDate(s, id, now);
      if stop.Some? then (t, stop.value)
      else if t.operations[id].state != RUNNING then (t, Transition(InvalidState, Some(t.operations[id])))
      else
        var completed := Finished(t.operations[id], now, f);
        if !completed.ValidShape() then (t, Raised(ShapeError))
        else (Put(t, completed), Transition(Updated, Some(completed)))
  }

  /* ------------------------------------------------------------ success with catalog rows */

  predicate AllDistinct(ids: seq<Id>) {
    forall i, j :: 0 <= i < j < |ids| ==> ids[i] != ids[j]
  }

  function ProjectIds(ps: seq<ProjectRecord>, enabledOnly: bool): seq<Id> {
    if ps == [] then []
    else (if enabledOnly && !ps[0].enabled then [] else [ps[0].id]) + ProjectIds(ps[1..], enabledOnly)
  }

  function DrawingIds(ds: seq<DrawingRecord>): seq<Id> {
    if ds == [] then [] else [ds[0].id] + DrawingIds(ds[1..])
  }

  /** The result agrees with the operation's task, and the catalog rows with the result. */
  predicate PayloadMatches(r: OperationRecord, result: TaskResult, ps: seq<ProjectRecord>, ds: seq<DrawingRecord>) {
    match result
    case ProjectsResult(ids) =>
      && r.task.ListProjects? && r.task.workstation == r.workstation && ds == []
      && AllDistinct(ProjectIds(ps, false)) && ProjectIds(ps, true) == ids
    case DrawingsResult(project, ids, _) =>
      && r.task.ScanDrawings? && r.task.project == project && ps == []
      && AllDistinct(DrawingIds(ds)) && DrawingIds(ds) == ids
      && forall d :: d in ds ==> d.project == project
    case _ => ps == [] && ds == []
  }

  predicate SameProjectOwner(a: ProjectRecord, b: ProjectRecord) {
    a.tenant == b.tenant && a.owner == b.owner && a.workstation == b.workstation
  }

  predicate SameDrawingOwner(a: DrawingRecord, b: DrawingRecord) {
    a.tenant == b.tenant && a.owner == b.owner && a.workstation == b.workstation && a.project == b.project
  }

  /** The workstation exists with the project's tenant and owner, and an existing row keeps its owner. */
  predicate ProjectAdmissible(s: Repo, p: ProjectRecord) {
    && p.workstation in s.workstations
    && s.workstations[p.workstation].tenant == p.tenant
    && s.workstations[p.workstation].owner == p.owner
    && (p.id in s.projects ==> SameProjectOwner(s.projects[p.id], p))
  }

  predicate DrawingAdmissible(s: Repo, d: DrawingRecord) {
    && d.project in s.projects
    && s.projects[d.project].tenant == d.tenant
    && s.projects[d.project].owner == d.owner
    && s.projects[d.project].workstation == d.workstation
    && (d.id in s.drawings ==> SameDrawingOwner(s.drawings[d.id], d))
  }

  function WithProjects(projects: map<Id, ProjectRecord>, ps: seq<ProjectRecord>): map<Id, ProjectRecord> {
    if ps == [] then projects else WithProjects(projects, ps[..|ps| - 1])[ps[|ps| - 1].id := ps[|ps| - 1]]
  }

  function WithDrawings(drawings: map<Id, DrawingRecord>, ds: seq<DrawingRecord>): map<Id, DrawingRecord> {
    if ds == [] then drawings else WithDrawings(drawings, ds[..|ds| - 1])[ds[|ds| - 1].id := ds[|ds| - 1]]
  }

  predicate ProjectCommittable(s: Repo, r: OperationRecord, p: ProjectRecord) {
    ProjectAdmissible(s, p) && p.tenant == r.tenant && p.owner == r.owner && p.workstation == r.workstation
  }

  predicate DrawingCommittable(s: Repo, r: OperationRecord, d: DrawingRecord) {
    && DrawingAdmissible(s, d) && s.projects[d.project].enabled
    && d.tenant == r.tenant && d.owner == r.owner && d.workstation == r.workstation
  }

  /** `_validate_worker_catalog_application`: the first check that fails. */
  function CatalogError(s: Repo, r: OperationRecord, result: TaskResult, ps: seq<ProjectRecord>, ds: seq<DrawingRecord>)
    : Option<Rejection>
  {
    var view := s.(projects := WithProjects(s.projects, ps));
    if result.Command() != r.task.Command() then Some(ResultTaskMismatch)
    else if !PayloadMatches(r, result, ps, ds) then Some(InvalidCatalogPayload)
    else if exists p :: p in ps && !ProjectCommittable(s, r, p) then Some(ProjectOwnerMismatch)
    else if exists d :: d in ds && !DrawingCommittable(view, r, d) then Some(DrawingOwnerMismatch)
    else None
  }

  function ApplySuccess(
      s: Repo, id: Id, tenant: Id, workstation: Id, now: int,
      result: TaskResult, ps: seq<ProjectRecord>, ds: seq<DrawingRecord>): (Repo, Outcome)
  {
    if id !in s.operations || !BelongsTo(s.operations[id], tenant, workstation) then (s, Transition(NotFound, None))
    else
      var (t, stop) := BroughtUpToDate(s, id, now);
      if stop.Some? then (t, stop.value)
      else
        var r := t.operations[id];
        if r.state == SUCCEEDED then
          (t, Transition(if r.result == Some(result) then Updated else InvalidState, Some(r)))
        else if r.state != RUNNING then (t, Transition(InvalidState, Some(r)))
        else if CatalogError(t, r, result, ps, ds).Some? then (t, Raised(CatalogError(t, r, result, ps, ds).value))
        else
          var completed := Finished(r, now, Finish(SUCCEEDED, Some(result), None));
          var committed := t.(projects := WithProjects(t.projects, ps), drawings := WithDrawings(t.drawings, ds));
          if !completed.ValidShape() then (committed, Raised(ShapeError))
          else (Put(committed, completed), Transition(Updated, Some(completed)))
  }

  /* ------------------------------------------------------------ catalog rows on their own */

  function UpsertWorkstation(s: Repo, w: WorkstationRecord): (Repo, Option<Rejection>) {
    if w.id in s.workstations && !(s.workstations[w.id].tenant == w.tenant && s.workstations[w.id].owner == w.owner)
    then (s, Some(WorkstationOwnerMismatch))
    else (s.(workstations := s.workstations[w.id := w]), None)
  }

  function UpsertProject(s: Repo, p: ProjectRecord): (Repo, Option<Rejection>) {
    if !ProjectAdmissible(s, p) then (s, Some(ProjectOwnerMismatch)) else (s.(projects := s.projects[p.id := p]), None)
  }

  function UpsertDrawing(s: Repo, d: DrawingRecord): (Repo, Option<Rejection>) {
    if !DrawingAdmissible(s, d) then (s, Some(DrawingOwnerMismatch)) else (s.(drawings := s.drawings[d.id := d]), None)
  }

  function SetOnline(s: Repo, id: Id, online: bool): (Repo, Option<Rejection>) {
    if id !in s.workstations then (s, Some(WorkstationNotFound))
    else (s.(workstations := s.workstations[id := s.workstations[id].(online := online)]), None)
  }
}
