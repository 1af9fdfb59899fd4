/**
 What the repository's methods do for one workstation, in the fields of the records: which operation
 a lease hands out, what a missed deadline becomes, and that other workstations are left alone.
 */
module GatewayScope {
  import opened Wrappers
  import opened GatewayModels
  import opened GatewaySteps
  import opened GatewayRuns
  import opened GatewayCommit

  /** The operation was created for this workstation and this owner, and may still be leased. */
  predicate Waits(r: OperationRecord, tenant: Id, workstation: Id, owner: Id, now: int) {
    r.tenant == tenant && r.workstation == workstation && r.owner == owner && r.state == CREATED && now < r.expiresAt
  }

  /** The operation keeps this workstation busy. */
  predicate Occupies(r: OperationRecord, tenant: Id, workstation: Id, now: int) {
    && r.tenant == tenant && r.workstation == workstation
    && ((r.state == LEASED && r.leaseExpiresAt.Some? && now < r.leaseExpiresAt.value) || (r.state == RUNNING && now < r.expiresAt))
  }

  predicate Before(a: OperationRecord, b: OperationRecord) {
    a.createdAt < b.createdAt || (a.createdAt == b.createdAt && a.id < b.id)
  }

  /** Operations of other tenants and workstations are as they were. */
  ghost predicate OthersKept(before: Operations, after: Operations, tenant: Id, workstation: Id) {
    && after.Keys == before.Keys
    && forall id :: id in before && (before[id].tenant != tenant || before[id].workstation != workstation) ==> after[id] == before[id]
  }

  /** Nothing but operations of this workstation has changed. */
  ghost predicate OthersUntouched(s: Repo, t: Repo, tenant: Id, workstation: Id) {
    t == s.(operations := t.operations) && OthersKept(s.operations, t.operations, tenant, workstation)
  }

  /* ------------------------------------------------------------ deadlines */

  /** What a missed deadline turns a record into; everything else about it stays. */
  lemma DeadlineMeans(r: OperationRecord, now: int)
    requires r.ValidShape()
    ensures var due := RefreshDue(r, now);
            && SameRequest(r, due) && due.startedAt == r.startedAt && due.result == r.result
            && (due.state in {CREATED, LEASED, RUNNING, SUCCEEDED, FAILED} ==> due == r)
            && (due != r ==> due.completedAt == Some(now) && due.leaseExpiresAt.None?)
            && (due.state == CREATED <==> r.state == CREATED && now < r.expiresAt)
            && (due.state == LEASED <==> r.state == LEASED && now < r.leaseExpiresAt.value)
            && (due.state == RUNNING <==> r.state == RUNNING && now < r.expiresAt)
            && (r.state == LEASED && due != r ==> due.state == ATTENTION_REQUIRED && due.errorCode == Some("lease_expired"))
            && (r.state == CREATED && due != r ==> due.state == EXPIRED && due.errorCode == Some("operation_expired"))
            && (r.state == RUNNING && due != r && !(r.task.TranslateDrawing? && r.task.applies) ==>
                  due.state == EXPIRED && due.errorCode == Some("operation_expired"))
            && (r.state == RUNNING && due != r && r.task.TranslateDrawing? && r.task.applies ==>
                  due.state == ATTENTION_REQUIRED && due.errorCode == Some("translation_attention_required"))
  {
  }

  /* ------------------------------------------------------------ leasing */

  lemma RefreshedMeans(s: Repo, clock: int, now: int, tenant: Id, workstation: Id, owner: Id, id: Id)
    requires RepoInv(s, clock) && clock <= now && id in s.operations
    ensures var ops := RefreshedFor(s.operations, tenant, workstation, now);
            && id in ops && ops[id].id == id
            && (Leasable(ops[id], tenant, workstation, owner) <==> Waits(s.operations[id], tenant, workstation, owner, now))
            && (Leasable(ops[id], tenant, workstation, owner) ==> ops[id] == s.operations[id])
            && (BelongsTo(ops[id], tenant, workstation) && ops[id].state.Active() <==> Occupies(s.operations[id], tenant, workstation, now))
            && (s.operations[id].tenant != tenant || s.operations[id].workstation != workstation ==> ops[id] == s.operations[id])
  {
    assert SoundRecord(s.operations[id], clock) && s.operations[id].id == id;
    DeadlineMeans(s.operations[id], now);
    hide RepoInv, RefreshDue;
  }

  /** Among leasable operations one comes first. */
  lemma {:induction false} SomeComesFirst(ops: Operations, tenant: Id, workstation: Id, owner: Id, among: set<Id>)
    requires among <= ops.Keys && among != {} && forall id :: id in among ==> Leasable(ops[id], tenant, workstation, owner)
    ensures exists id :: id in among && forall other :: other in among ==> NotAfter(ops[id], ops[other])
    decreases |among|
  {
    hide Leasable;
    var one :| one in among;
    if among != {one} {
      SomeComesFirst(ops, tenant, workstation, owner, among - {one});
      var id :| id in among - {one} && forall other :: other in among - {one} ==> NotAfter(ops[id], ops[other]);
      var first := if NotAfter(ops[one], ops[id]) then one else id;
      assert forall other :: other in among ==> NotAfter(ops[first], ops[other]);
    } else {
      assert NotAfter(ops[one], ops[one]);
    }
  }

  lemma SomeNextMeans(ops: Operations, tenant: Id, workstation: Id, owner: Id)
    ensures SomeNext(ops, tenant, workstation, owner) <==> exists id :: id in ops && Leasable(ops[id], tenant, workstation, owner)
  {
    hide Leasable, NotAfter;
    var among := set id | id in ops && Leasable(ops[id], tenant, workstation, owner);
    if among != {} {
      SomeComesFirst(ops, tenant, workstation, owner, among);
      var id :| id in among && forall other :: other in among ==> NotAfter(ops[id], ops[other]);
      assert IsNext(ops, tenant, workstation, owner, id);
    } else {
      assert forall id :: id in ops && Leasable(ops[id], tenant, workstation, owner) ==> id in among;
    }
  }

  lemma BusyMeans(s: Repo, clock: int, now: int, tenant: Id, workstation: Id, owner: Id)
    requires RepoInv(s, clock) && clock <= now
    ensures var ops := RefreshedFor(s.operations, tenant, workstation, now);
            && (Busy(ops, tenant, workstation) <==> exists id :: id in s.operations && Occupies(s.operations[id], tenant, workstation, now))
            && (SomeNext(ops, tenant, workstation, owner)
                <==> exists id :: id in s.operations && Waits(s.operations[id], tenant, workstation, owner, now))
            && OthersUntouched(s, s.(operations := ops), tenant, workstation)
  {
    var ops := RefreshedFor(s.operations, tenant, workstation, now);
    SomeNextMeans(ops, tenant, workstation, owner);
    forall id | id in s.operations
      ensures Leasable(ops[id], tenant, workstation, owner) <==> Waits(s.operations[id], tenant, workstation, owner, now)
      ensures BelongsTo(ops[id], tenant, workstation) && ops[id].state.Active() <==> Occupies(s.operations[id], tenant, workstation, now)
      ensures s.operations[id].tenant != tenant || s.operations[id].workstation != workstation ==> ops[id] == s.operations[id]
    {
      RefreshedMeans(s, clock, now, tenant, workstation, owner, id);
    }
    assert ops.Keys == s.operations.Keys;
    hide RefreshedFor, Leasable, BelongsTo, Waits, Occupies, RepoInv, SomeNext;
  }

  /** The operation handed out was waiting, and every other waiting one comes later. */
  lemma FirstMeans(s: Repo, clock: int, now: int, tenant: Id, workstation: Id, owner: Id, id: Id)
    requires RepoInv(s, clock) && clock <= now
    requires IsNext(RefreshedFor(s.operations, tenant, workstation, now), tenant, workstation, owner, id)
    ensures id in s.operations && Waits(s.operations[id], tenant, workstation, owner, now) && s.operations[id].id == id
    ensures RefreshedFor(s.operations, tenant, workstation, now)[id] == s.operations[id]
    ensures forall other :: other in s.operations && other != id && Waits(s.operations[other], tenant, workstation, owner, now) ==>
      Before(s.operations[id], s.operations[other])
  {
    var ops := RefreshedFor(s.operations, tenant, workstation, now);
    RefreshedMeans(s, clock, now, tenant, workstation, owner, id);
    forall other | other in s.operations && other != id && Waits(s.operations[other], tenant, workstation, owner, now)
      ensures Before(s.operations[id], s.operations[other])
    {
      RefreshedMeans(s, clock, now, tenant, workstation, owner, other);
      assert NotAfter(ops[id], ops[other]);
    }
  }

  /**
   A lease goes to the operation of this tenant, workstation and owner that was created first and is
   still waiting; there is none exactly when the workstation is busy or nothing waits for it. No other
   workstation's operations are touched.
   */
  lemma LeaseMeans(s: Repo, clock: int, now: int, tenant: Id, workstation: Id, owner: Id, until: int)
    requires RepoInv(s, clock) && clock <= now < until
    ensures var (t, answer) := LeaseNext(s, tenant, workstation, owner, now, until);
            && answer.Ok?
            && OthersUntouched(s, t, tenant, workstation)
            && (answer.value.None? <==>
                  || (exists id :: id in s.operations && Occupies(s.operations[id], tenant, workstation, now))
                  || (forall id :: id in s.operations ==> !Waits(s.operations[id], tenant, workstation, owner, now)))
            && (answer.value.Some? ==>
                  var r := answer.value.value;
                  && r.id in s.operations
                  && var waiting := s.operations[r.id];
                     && Waits(waiting, tenant, workstation, owner, now)
                     && (forall id :: id in s.operations && id != r.id && Waits(s.operations[id], tenant, workstation, owner, now) ==>
                           Before(waiting, s.operations[id]))
                     && r == waiting.(state := LEASED, leaseExpiresAt := Some(if until < waiting.expiresAt then until else waiting.expiresAt))
                     && r.id in t.operations && t.operations[r.id] == r)
  {
    var ops := RefreshedFor(s.operations, tenant, workstation, now);
    BusyMeans(s, clock, now, tenant, workstation, owner);
    if !Busy(ops, tenant, workstation) && SomeNext(ops, tenant, workstation, owner) {
      var id := NextId(ops, tenant, workstation, owner);
      FirstMeans(s, clock, now, tenant, workstation, owner, id);
      LeaseNeverExpires(s, clock, now, tenant, workstation, owner, until, id);
      WaitsHere(s.operations[id], tenant, workstation, owner, now);
      hide RefreshedFor, Waits, Occupies, Busy, IsNext, RepoInv, SoundRecord, OperationRecord.ValidShape, Advances;
      LeasedOther(s, s.(operations := ops), id, LeaseTo(ops[id], until), tenant, workstation);
    } else {
      hide RefreshedFor, Waits, Occupies, Busy, SomeNext, IsNext, RepoInv;
    }
  }

  lemma WaitsHere(r: OperationRecord, tenant: Id, workstation: Id, owner: Id, now: int)
    requires Waits(r, tenant, workstation, owner, now)
    ensures r.tenant == tenant && r.workstation == workstation
  {
  }

  lemma LeasedOther(s: Repo, t: Repo, id: Id, r: OperationRecord, tenant: Id, workstation: Id)
    requires OthersUntouched(s, t, tenant, workstation) && id in s.operations && r.id == id
    requires s.operations[id].tenant == tenant && s.operations[id].workstation == workstation
    ensures OthersUntouched(s, Put(t, r), tenant, workstation)
  {
    assert Put(t, r).operations.Keys == t.operations.Keys;
  }

  /* ------------------------------------------------------------ starting, finishing and applying */

  /** The operation is none of this workstation's. */
  predicate Foreign(s: Repo, id: Id, tenant: Id, workstation: Id) {
    id !in s.operations || s.operations[id].tenant != tenant || s.operations[id].workstation != workstation
  }

  /** The operation is running and its deadline has not passed. */
  predicate RunsInTime(s: Repo, id: Id, now: int) {
    id in s.operations && s.operations[id].state == RUNNING && now < s.operations[id].expiresAt
  }

  lemma PutApart(s: Repo, r: OperationRecord, tenant: Id, workstation: Id)
    requires r.id in s.operations && s.operations[r.id].tenant == tenant && s.operations[r.id].workstation == workstation
    ensures OthersUntouched(s, Put(s, r), tenant, workstation)
  {
    assert Put(s, r).operations.Keys == s.operations.Keys;
  }

  lemma RecordAt(s: Repo, clock: int, id: Id)
    requires RepoInv(s, clock) && id in s.operations
    ensures s.operations[id].id == id && s.operations[id].ValidShape() && Timely(s.operations[id], clock)
  {
    assert SoundRecord(s.operations[id], clock);
  }

  /** A worker starts exactly the operations leased to its workstation whose lease still runs. */
  lemma StartMeans(s: Repo, clock: int, now: int, id: Id, tenant: Id, workstation: Id)
    requires RepoInv(s, clock) && clock <= now
    ensures var (t, out) := Start(s, id, tenant, workstation, now);
            && OthersUntouched(s, t, tenant, workstation)
            && if Foreign(s, id, tenant, workstation) then out == Transition(NotFound, None) && t == s
               else
                 var r := s.operations[id];
                 if r.state != LEASED then out == Transition(InvalidState, Some(r)) && t == s
                 else if now < r.leaseExpiresAt.value then
                   var running := r.(state := RUNNING, leaseExpiresAt := None, startedAt := Some(now));
                   out == Transition(Updated, Some(running)) && t.operations == s.operations[id := running]
                 else
                   && id in t.operations && t.operations[id].state == ATTENTION_REQUIRED
                   && t.operations[id].errorCode == Some("lease_expired")
                   && out == Transition(LeaseExpired, Some(t.operations[id]))
  {
    hide RepoInv;
    if !Foreign(s, id, tenant, workstation) {
      RecordAt(s, clock, id);
      var r := s.operations[id];
      PutApart(s, AttentionRequired(r, now), tenant, workstation);
      PutApart(s, r.(state := RUNNING, leaseExpiresAt := None, startedAt := Some(now)), tenant, workstation);
      hide OthersUntouched;
      assert OthersUntouched(s, s, tenant, workstation) by {
        Unchanged(s, tenant, workstation);
      }
    }
  }

  lemma Unchanged(s: Repo, tenant: Id, workstation: Id)
    ensures OthersUntouched(s, s, tenant, workstation)
  {
  }

  /** The deadline of an operation that was not started, or of one that writes nothing, has passed. */
  predicate Expires(r: OperationRecord, now: int) {
    r.expiresAt <= now && (r.state == CREATED || (r.state == RUNNING && !(r.task.TranslateDrawing? && r.task.applies)))
  }

  /** A worker finishes exactly the operations of its workstation that run in time. */
  lemma FinishMeans(s: Repo, clock: int, now: int, id: Id, tenant: Id, workstation: Id, f: Finish)
    requires RepoInv(s, clock) && clock <= now && f.state in {SUCCEEDED, FAILED, ATTENTION_REQUIRED}
    ensures var (t, out) := FinishOperation(s, id, tenant, workstation, now, f);
            && OthersUntouched(s, t, tenant, workstation)
            && if Foreign(s, id, tenant, workstation) then out == Transition(NotFound, None) && t == s
               else if RunsInTime(s, id, now) then
                 var ended := s.operations[id].(state := f.state, completedAt := Some(now), result := f.result, errorCode := f.errorCode);
                 if ended.ValidShape() then out == Transition(Updated, Some(ended)) && t.operations == s.operations[id := ended]
                 else out == Raised(ShapeError) && t == s
               else
                 && id in t.operations
                 && out == Transition(if Expires(s.operations[id], now) then OperationExpired else InvalidState, Some(t.operations[id]))
  {
    hide RepoInv;
    Unchanged(s, tenant, workstation);
    if !Foreign(s, id, tenant, workstation) {
      RecordAt(s, clock, id);
      var r := s.operations[id];
      DeadlineMeans(r, now);
      PutApart(s, RefreshDue(r, now), tenant, workstation);
      PutApart(s, Finished(r, now, f), tenant, workstation);
      hide OthersUntouched, RefreshDue, OperationRecord.ValidShape;
    }
  }

  /* ------------------------------------------------------------ the rows that a success may bring */

  /** The ids of the enabled projects, in order. */
  function EnabledIds(ps: seq<ProjectRecord>): seq<Id> {
    if ps == [] then []
    else
      var last := ps[|ps| - 1];
      if last.enabled then EnabledIds(ps[..|ps| - 1]) + [last.id] else EnabledIds(ps[..|ps| - 1])
  }

  /** The result answers the task, and lists exactly the rows. */
  ghost predicate Answers(r: OperationRecord, result: TaskResult, ps: seq<ProjectRecord>, ds: seq<DrawingRecord>) {
    match result
    case EnvironmentResult(_) => r.task.ValidateEnvironment? && ps == [] && ds == []
    case InspectionResult(_, _) => r.task.InspectDrawing? && ps == [] && ds == []
    case PublishPlanResult(_, _) => r.task.CreatePublishPlan? && ps == [] && ds == []
    case TranslationResult(_, _) => r.task.TranslateDrawing? && ps == [] && ds == []
    case ProjectsResult(ids) =>
      && r.task.ListProjects? && r.task.workstation == r.workstation && ds == []
      && (forall i, j :: 0 <= i < j < |ps| ==> ps[i].id != ps[j].id)
      && ids == EnabledIds(ps)
    case DrawingsResult(project, ids, _) =>
      && r.task.ScanDrawings? && r.task.project == project && ps == []
      && |ids| == |ds| && (forall i :: 0 <= i < |ds| ==> ds[i].id == ids[i] && ds[i].project == project)
      && (forall i, j :: 0 <= i < j < |ds| ==> ds[i].id != ds[j].id)
  }

  /** The project belongs to the operation's owner and workstation, and so does a row that it replaces. */
  predicate OwnProject(s: Repo, r: OperationRecord, p: ProjectRecord) {
    && p.tenant == r.tenant && p.owner == r.owner && p.workstation == r.workstation
    && p.workstation in s.workstations
    && s.workstations[p.workstation].tenant == r.tenant && s.workstations[p.workstation].owner == r.owner
    && (p.id in s.projects ==>
          var row := s.projects[p.id]; row.tenant == r.tenant && row.owner == r.owner && row.workstation == r.workstation)
  }

  /** The drawing and its project belong to the operation's owner and workstation, and the project is enabled. */
  predicate OwnDrawing(s: Repo, r: OperationRecord, d: DrawingRecord) {
    && d.tenant == r.tenant && d.owner == r.owner && d.workstation == r.workstation
    && d.project in s.projects
    && (var project := s.projects[d.project];
        project.enabled && project.tenant == r.tenant && project.owner == r.owner && project.workstation == r.workstation)
    && (d.id in s.drawings ==>
          var row := s.drawings[d.id];
          row.tenant == r.tenant && row.owner == r.owner && row.workstation == r.workstation && row.project == d.project)
  }

  lemma {:induction false} ProjectIdsAppend(ps: seq<ProjectRecord>, last: ProjectRecord)
    ensures ProjectIds(ps + [last], true) == ProjectIds(ps, true) + if last.enabled then [last.id] else []
  {
    if ps == [] {
      assert [] + [last] == [last] && [last][1..] == [];
    } else {
      ProjectIdsAppend(ps[1..], last);
      assert (ps + [last])[1..] == ps[1..] + [last];
    }
  }

  lemma {:induction false} EnabledMeans(ps: seq<ProjectRecord>)
    ensures ProjectIds(ps, true) == EnabledIds(ps)
  {
    if ps != [] {
      var init, last := ps[..|ps| - 1], ps[|ps| - 1];
      assert ps == init + [last];
      EnabledMeans(init);
      ProjectIdsAppend(init, last);
    }
  }

  lemma DistinctMeans(ps: seq<ProjectRecord>, ds: seq<DrawingRecord>)
    ensures AllDistinct(ProjectIds(ps, false)) <==> forall i, j :: 0 <= i < j < |ps| ==> ps[i].id != ps[j].id
    ensures AllDistinct(DrawingIds(ds)) <==> forall i, j :: 0 <= i < j < |ds| ==> ds[i].id != ds[j].id
    ensures |DrawingIds(ds)| == |ds| && forall i :: 0 <= i < |ds| ==> DrawingIds(ds)[i] == ds[i].id
  {
    forall i | 0 <= i < |ps| ensures |ProjectIds(ps, false)| == |ps| && ProjectIds(ps, false)[i] == ps[i].id {
      ProjectIdsAt(ps, i);
    }
    forall i | 0 <= i < |ds| ensures |DrawingIds(ds)| == |ds| && DrawingIds(ds)[i] == ds[i].id {
      DrawingIdsAt(ds, i);
    }
  }

  lemma AnswersMean(r: OperationRecord, result: TaskResult, ps: seq<ProjectRecord>, ds: seq<DrawingRecord>)
    ensures result.Command() == r.task.Command() && PayloadMatches(r, result, ps, ds) <==> Answers(r, result, ps, ds)
  {
    EnabledMeans(ps);
    DistinctMeans(ps, ds);
    hide AllDistinct, ProjectIds, DrawingIds, EnabledIds;
    if result.DrawingsResult? {
      var ids := DrawingIds(ds);
      assert ids == result.drawingIds <==> |result.drawingIds| == |ds| && forall i :: 0 <= i < |ds| ==> ds[i].id == result.drawingIds[i];
      assert (forall d :: d in ds ==> d.project == result.project) <==> forall i :: 0 <= i < |ds| ==> ds[i].project == result.project;
    }
  }

  /** Exactly the rows that answer the task and belong to the operation's owner and workstation are accepted. */
  lemma AcceptedRowsMean(s: Repo, r: OperationRecord, result: TaskResult, ps: seq<ProjectRecord>, ds: seq<DrawingRecord>)
    ensures CatalogError(s, r, result, ps, ds).None? <==>
      && Answers(r, result, ps, ds)
      && (forall p :: p in ps ==> OwnProject(s, r, p))
      && (forall d :: d in ds ==> OwnDrawing(s, r, d))
  {
    AnswersMean(r, result, ps, ds);
    forall p ensures ProjectCommittable(s, r, p) <==> OwnProject(s, r, p) {
    }
    var view := s.(projects := WithProjects(s.projects, ps));
    if Answers(r, result, ps, ds) {
      NoRowsBoth(r, result, ps, ds);
      if ds != [] {
        assert view == s;
      }
    }
    forall d | ds != [] ==> view == s ensures d in ds ==> (DrawingCommittable(view, r, d) <==> OwnDrawing(s, r, d)) {
    }
    hide Answers, PayloadMatches, ProjectCommittable, DrawingCommittable, OwnProject, OwnDrawing, WithProjects;
  }

  lemma NoRowsBoth(r: OperationRecord, result: TaskResult, ps: seq<ProjectRecord>, ds: seq<DrawingRecord>)
    requires Answers(r, result, ps, ds)
    ensures ps == [] || ds == []
  {
  }

  /** A worker's success is taken exactly for the running operations of its workstation, in time and with acceptable rows, or as a repetition. */
  lemma ApplyMeans(
      s: Repo, clock: int, now: int, id: Id, tenant: Id, workstation: Id,
      result: TaskResult, ps: seq<ProjectRecord>, ds: seq<DrawingRecord>)
    requires RepoInv(s, clock) && clock <= now
    ensures var (t, out) := ApplySuccess(s, id, tenant, workstation, now, result, ps, ds);
            && OthersKept(s.operations, t.operations, tenant, workstation)
            && (out == Transition(NotFound, None) <==> Foreign(s, id, tenant, workstation))
            && (Foreign(s, id, tenant, workstation) ==> t == s)
            && (out.Transition? && out.status == OperationExpired <==>
                  !Foreign(s, id, tenant, workstation) && Expires(s.operations[id], now))
            && (out.Transition? && out.status == Updated <==>
                  && !Foreign(s, id, tenant, workstation)
                  && var r := s.operations[id];
                     || (r.state == SUCCEEDED && r.result == Some(result))
                     || (RunsInTime(s, id, now) && Answers(r, result, ps, ds)
                         && (forall p :: p in ps ==> OwnProject(s, r, p)) && (forall d :: d in ds ==> OwnDrawing(s, r, d))))
  {
    hide RepoInv;
    AcceptedMeans(s, id, result, ps, ds);
    if Foreign(s, id, tenant, workstation) {
      hide CatalogError, Answers, OwnProject, OwnDrawing;
    } else if RunsInTime(s, id, now) {
      RecordAt(s, clock, id);
      ApplyInTime(s, now, id, tenant, workstation, result, ps, ds);
      hide ApplySuccess, CatalogError, Answers, OwnProject, OwnDrawing, WithProjects, WithDrawings;
    } else {
      RecordAt(s, clock, id);
      ApplyTooLate(s, now, id, tenant, workstation, result, ps, ds);
      hide ApplySuccess, CatalogError, Answers, OwnProject, OwnDrawing;
    }
  }

  lemma AcceptedMeans(s: Repo, id: Id, result: TaskResult, ps: seq<ProjectRecord>, ds: seq<DrawingRecord>)
    ensures id in s.operations ==>
      (CatalogError(s, s.operations[id], result, ps, ds).None? <==>
         && Answers(s.operations[id], result, ps, ds)
         && (forall p :: p in ps ==> OwnProject(s, s.operations[id], p))
         && (forall d :: d in ds ==> OwnDrawing(s, s.operations[id], d)))
  {
    if id in s.operations {
      AcceptedRowsMean(s, s.operations[id], result, ps, ds);
    }
  }

  lemma ApplyInTime(
      s: Repo, now: int, id: Id, tenant: Id, workstation: Id,
      result: TaskResult, ps: seq<ProjectRecord>, ds: seq<DrawingRecord>)
    requires !Foreign(s, id, tenant, workstation) && RunsInTime(s, id, now)
    requires s.operations[id].id == id && s.operations[id].ValidShape() && Timely(s.operations[id], now)
    ensures var (t, out) := ApplySuccess(s, id, tenant, workstation, now, result, ps, ds);
            && OthersKept(s.operations, t.operations, tenant, workstation)
            && (CatalogError(s, s.operations[id], result, ps, ds).Some? ==> out.Raised?)
            && (CatalogError(s, s.operations[id], result, ps, ds).None? ==>
                  var done := Completion(s.operations[id], now, result);
                  out == Transition(Updated, Some(done)) && t == Put(WithRows(s, ps, ds), done))
  {
    var r := s.operations[id];
    PutApart(s, Completion(r, now, result), tenant, workstation);
    if CatalogError(s, r, result, ps, ds).None? {
      CommandAccepted(s, r, result, ps, ds);
      hide CatalogError, WithProjects, WithDrawings;
      assert Completion(r, now, result).ValidShape();
    } else {
      hide CatalogError, WithProjects, WithDrawings;
    }
  }

  lemma ApplyTooLate(
      s: Repo, now: int, id: Id, tenant: Id, workstation: Id,
      result: TaskResult, ps: seq<ProjectRecord>, ds: seq<DrawingRecord>)
    requires !Foreign(s, id, tenant, workstation) && !RunsInTime(s, id, now)
    requires s.operations[id].id == id && s.operations[id].ValidShape()
    ensures var (t, out) := ApplySuccess(s, id, tenant, workstation, now, result, ps, ds);
            && OthersKept(s.operations, t.operations, tenant, workstation)
            && id in t.operations
            && out == Transition(
                 if s.operations[id].state == SUCCEEDED && s.operations[id].result == Some(result) then Updated
                 else if Expires(s.operations[id], now) then OperationExpired
                 else InvalidState,
                 Some(t.operations[id]))
  {
    DeadlineMeans(s.operations[id], now);
    PutApart(s, RefreshDue(s.operations[id], now), tenant, workstation);
    hide CatalogError, WithProjects, WithDrawings, RefreshDue, OperationRecord.ValidShape;
  }

  /**
   What a commit leaves in the catalog: every reported row as reported, with the operation's tenant,
   owner and workstation; and every reported drawing in an enabled project of the same owner.
   */
  lemma CommittedRows(
      s: Repo, clock: int, now: int, id: Id, tenant: Id, workstation: Id,
      result: TaskResult, ps: seq<ProjectRecord>, ds: seq<DrawingRecord>)
    requires RepoInv(s, clock) && clock <= now
    requires id in s.operations && s.operations[id].state != SUCCEEDED
    requires var out := ApplySuccess(s, id, tenant, workstation, now, result, ps, ds).1; out.Transition? && out.status == Updated
    ensures var t := ApplySuccess(s, id, tenant, workstation, now, result, ps, ds).0;
            var r := s.operations[id];
            && (forall p :: p in ps ==>
                  p.id in t.projects && t.projects[p.id] == p && p.tenant == r.tenant && p.owner == r.owner && p.workstation == r.workstation)
            && (forall d :: d in ds ==>
                  && d.id in t.drawings && t.drawings[d.id] == d
                  && d.tenant == r.tenant && d.owner == r.owner && d.workstation == r.workstation
                  && d.project in t.projects && t.projects[d.project].enabled && t.projects[d.project].tenant == r.tenant
                  && t.projects[d.project].owner == r.owner && t.projects[d.project].workstation == r.workstation)
            && id in t.operations && t.operations[id].state == SUCCEEDED && t.operations[id].result == Some(result)
            && t.operations[id].completedAt == Some(now)
  {
    ApplyMeans(s, clock, now, id, tenant, workstation, result, ps, ds);
    RecordAt(s, clock, id);
    AcceptedMeans(s, id, result, ps, ds);
    ApplyInTime(s, now, id, tenant, workstation, result, ps, ds);
    hide RepoInv, ApplySuccess, CatalogError, OperationRecord.ValidShape, WithRows, OthersKept;
    var t := Put(WithRows(s, ps, ds), Completion(s.operations[id], now, result));
    RowsOf(s, t, s.operations[id], result, ps, ds);
  }

  lemma RowsOf(s: Repo, t: Repo, r: OperationRecord, result: TaskResult, ps: seq<ProjectRecord>, ds: seq<DrawingRecord>)
    requires Answers(r, result, ps, ds) && t == WithRows(s, ps, ds).(operations := t.operations)
    requires forall p :: p in ps ==> OwnProject(s, r, p)
    requires forall d :: d in ds ==> OwnDrawing(s, r, d)
    ensures forall p :: p in ps ==>
      p.id in t.projects && t.projects[p.id] == p && p.tenant == r.tenant && p.owner == r.owner && p.workstation == r.workstation
    ensures forall d :: d in ds ==>
      && d.id in t.drawings && t.drawings[d.id] == d
      && d.tenant == r.tenant && d.owner == r.owner && d.workstation == r.workstation
      && d.project in t.projects && t.projects[d.project].enabled && t.projects[d.project].tenant == r.tenant
      && t.projects[d.project].owner == r.owner && t.projects[d.project].workstation == r.workstation
  {
    AnswersMean(r, result, ps, ds);
    NoRowsBoth(r, result, ps, ds);
    hide Answers, PayloadMatches;
    RowsAreStored(s, t, r, result, ps, ds);
    hide WithRows;
    forall d | d in ds ensures d.project in t.projects && t.projects[d.project] == s.projects[d.project] {
      assert forall p :: p in ps ==> p.id != d.project;
    }
  }

  /* ------------------------------------------------------------ the life of one operation */

  /**
   Every operation in every state of a run, in its own fields: it starts before its deadline and under a
   lease, ends after it starts, expires only after its deadline, and carries a result or an error exactly
   when it ended so.
   */
  lemma LifeOfAnOperation(states: seq<Repo>, times: seq<int>, actions: seq<Action>, i: nat, id: Id)
    requires IsRun(states, times, actions) && states[0] == EmptyRepo && i < |states| && id in states[i].operations
    ensures var r := states[i].operations[id];
            && r.id == id && r.createdAt < r.expiresAt
            && (r.startedAt.Some? ==> r.createdAt <= r.startedAt.value < r.expiresAt)
            && (r.completedAt.Some? <==> r.state !in {CREATED, LEASED, RUNNING})
            && (r.completedAt.Some? ==> r.createdAt <= r.completedAt.value)
            && (r.completedAt.Some? && r.startedAt.Some? ==> r.startedAt.value <= r.completedAt.value)
            && (r.leaseExpiresAt.Some? <==> r.state == LEASED)
            && (r.leaseExpiresAt.Some? ==> r.createdAt < r.leaseExpiresAt.value <= r.expiresAt)
            && (r.state in {CREATED, LEASED} ==> r.startedAt.None?)
            && (r.state in {RUNNING, SUCCEEDED, FAILED} ==> r.startedAt.Some?)
            && (r.state == EXPIRED ==> r.expiresAt <= r.completedAt.value)
            && (r.result.Some? <==> r.state == SUCCEEDED)
            && (r.state == SUCCEEDED ==> r.result.value.Command() == r.task.Command())
            && (r.errorCode.Some? <==> r.state in {FAILED, EXPIRED, ATTENTION_REQUIRED})
  {
    RunKeepsInv(states, times, actions, i);
    var clock := if i > 0 then times[i - 1] else 0;
    RecordAt(states[i], clock, id);
    hide RepoInv;
  }
}
