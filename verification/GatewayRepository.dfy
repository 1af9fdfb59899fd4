/** The in-memory repository itself: five dictionaries that its methods update in place under one lock. */
module GatewayRepository {
  import opened Wrappers
  import opened GatewayModels
  import opened GatewaySteps

  /** Two records with different ids cannot both come first. */
  lemma NextIsUnique(ops: Operations, tenant: Id, workstation: Id, owner: Id, a: Id, b: Id)
    requires forall id :: id in ops ==> ops[id].id == id
    requires IsNext(ops, tenant, workstation, owner, a) && IsNext(ops, tenant, workstation, owner, b)
    ensures a == b
  {
    assert NotAfter(ops[a], ops[b]) && NotAfter(ops[b], ops[a]);
  }

  lemma {:induction false} ProjectPrefix(base: map<Id, ProjectRecord>, ps: seq<ProjectRecord>, i: nat)
    requires i < |ps|
    ensures WithProjects(base, ps[..i + 1]) == WithProjects(base, ps[..i])[ps[i].id := ps[i]]
  {
    assert ps[..i + 1][..i] == ps[..i];
  }

  lemma {:induction false} DrawingPrefix(base: map<Id, DrawingRecord>, ds: seq<DrawingRecord>, i: nat)
    requires i < |ds|
    ensures WithDrawings(base, ds[..i + 1]) == WithDrawings(base, ds[..i])[ds[i].id := ds[i]]
  {
    assert ds[..i + 1][..i] == ds[..i];
  }

  lemma RefreshKeepsParty(ops: Operations, tenant: Id, workstation: Id, now: int)
    ensures RefreshedFor(ops, tenant, workstation, now).Keys == ops.Keys
    ensures forall id :: id in ops ==>
      var r := RefreshedFor(ops, tenant, workstation, now)[id];
      && r == (if BelongsTo(ops[id], tenant, workstation) then RefreshDue(ops[id], now) else ops[id])
      && r.id == ops[id].id && r.owner == ops[id].owner
      && (BelongsTo(r, tenant, workstation) <==> BelongsTo(ops[id], tenant, workstation))
  {
  }

  /** The pass that turns `before` into `after` has dealt with all but the pending operations. */
  ghost predicate Collected(
      before: Operations, after: Operations, ops: Operations, pending: set<Id>,
      eligible: seq<OperationRecord>, active: bool, tenant: Id, workstation: Id, owner: Id)
  {
    && after.Keys == before.Keys && ops.Keys == before.Keys
    && (forall id :: id in after ==> after[id].id == id)
    && (forall id :: id in before ==> ops[id] == if id in pending then before[id] else after[id])
    && (active ==> Busy(after, tenant, workstation))
    && (forall id :: id in after && id !in pending && BelongsTo(after[id], tenant, workstation) && after[id].state.Active() ==> active)
    && (forall r :: r in eligible ==> r.id in after && after[r.id] == r && Leasable(r, tenant, workstation, owner))
    && (forall id :: id in after && id !in pending && Leasable(after[id], tenant, workstation, owner) ==> after[id] in eligible)
  }

  lemma CollectStart(before: Operations, tenant: Id, workstation: Id, owner: Id, now: int)
    requires forall id :: id in before ==> before[id].id == id
    ensures var after := RefreshedFor(before, tenant, workstation, now);
            Collected(before, after, before, before.Keys, [], false, tenant, workstation, owner)
  {
    RefreshKeepsParty(before, tenant, workstation, now);
    hide RefreshDue, RefreshedFor, BelongsTo, Leasable;
  }

  lemma CollectTurn(
      before: Operations, after: Operations, ops: Operations, pending: set<Id>,
      eligible: seq<OperationRecord>, active: bool, tenant: Id, workstation: Id, owner: Id, id: Id)
    requires Collected(before, after, ops, pending, eligible, active, tenant, workstation, owner) && id in pending && id in before
    ensures id in ops && ops[id] == before[id] && id in after
    ensures Collected(
        before, after, ops[id := after[id]], pending - {id},
        if Leasable(after[id], tenant, workstation, owner) then eligible + [after[id]] else eligible,
        active || (BelongsTo(after[id], tenant, workstation) && after[id].state.Active()),
        tenant, workstation, owner)
  {
    hide Leasable, BelongsTo;
  }

  /** The same by the branches of the loop body. */
  lemma CollectBranches(
      before: Operations, ops: Operations, pending: set<Id>,
      eligible: seq<OperationRecord>, active: bool, tenant: Id, workstation: Id, owner: Id, now: int, id: Id)
    requires Collected(before, RefreshedFor(before, tenant, workstation, now), ops, pending, eligible, active, tenant, workstation, owner)
    requires id in pending && id in before
    ensures id in ops && ops[id] == before[id]
    ensures var after, r, f := RefreshedFor(before, tenant, workstation, now), before[id], RefreshDue(before[id], now);
            && (!BelongsTo(r, tenant, workstation) ==>
                  Collected(before, after, ops, pending - {id}, eligible, active, tenant, workstation, owner))
            && (BelongsTo(r, tenant, workstation) && (f.state == LEASED || f.state == RUNNING) ==>
                  Collected(before, after, ops[id := f], pending - {id}, eligible, true, tenant, workstation, owner))
            && (BelongsTo(r, tenant, workstation) && !(f.state == LEASED || f.state == RUNNING) && f.owner == owner && f.state == CREATED ==>
                  Collected(before, after, ops[id := f], pending - {id}, eligible + [f], active, tenant, workstation, owner))
            && (BelongsTo(r, tenant, workstation) && !(f.state == LEASED || f.state == RUNNING) && !(f.owner == owner && f.state == CREATED) ==>
                  Collected(before, after, ops[id := f], pending - {id}, eligible, active, tenant, workstation, owner))
  {
    var after := RefreshedFor(before, tenant, workstation, now);
    RefreshKeepsParty(before, tenant, workstation, now);
    CollectTurn(before, after, ops, pending, eligible, active, tenant, workstation, owner, id);
    hide Collected, RefreshDue, RefreshedFor;
    if !BelongsTo(before[id], tenant, workstation) {
      assert ops[id := after[id]] == ops;
    }
  }

  lemma CollectEnd(
      before: Operations, after: Operations, ops: Operations,
      eligible: seq<OperationRecord>, active: bool, tenant: Id, workstation: Id, owner: Id)
    requires Collected(before, after, ops, {}, eligible, active, tenant, workstation, owner)
    ensures ops == after && ops.Keys == before.Keys && forall id :: id in ops ==> ops[id].id == id
    ensures active <==> Busy(ops, tenant, workstation)
    ensures forall r :: r in eligible <==> r.id in ops && ops[r.id] == r && Leasable(r, tenant, workstation, owner)
  {
    hide Leasable, BelongsTo;
  }

  class InMemoryGatewayRepository {
    var workstations: map<Id, WorkstationRecord>
    var projects: map<Id, ProjectRecord>
    var drawings: map<Id, DrawingRecord>
    var operations: map<Id, OperationRecord>
    var idempotency: map<IdempotencyIndex, Id>

    ghost function Value(): Repo
      reads this
    {
      Repo(workstations, projects, drawings, operations, idempotency)
    }

    /** Operations are stored under their own id, and the index points at stored operations. */
    ghost predicate Valid()
      reads this
    {
      && (forall id :: id in operations ==> operations[id].id == id)
      && (forall k :: k in idempotency ==> idempotency[k] in operations)
    }

    constructor ()
      ensures Valid() && Value() == EmptyRepo
    {
      workstations, projects, drawings, operations, idempotency := map[], map[], map[], map[], map[];
    }

    method UpsertWorkstation(record: WorkstationRecord) returns (error: Option<Rejection>)
      modifies this
      ensures (Value(), error) == GatewaySteps.UpsertWorkstation(old(Value()), record)
    {
      if record.id in workstations {
        var existing := workstations[record.id];
        if existing.tenant != record.tenant || existing.owner != record.owner {
          return Some(WorkstationOwnerMismatch);
        }
      }
      workstations := workstations[record.id := record];
      error := None;
    }

    method UpsertProject(record: ProjectRecord) returns (error: Option<Rejection>)
      modifies this
      ensures (Value(), error) == GatewaySteps.UpsertProject(old(Value()), record)
    {
      var admissible := ProjectRowFits(record);
      if !admissible {
        return Some(ProjectOwnerMismatch);
      }
      projects := projects[record.id := record];
      error := None;
    }

    method ProjectRowFits(record: ProjectRecord) returns (fits: bool)
      ensures fits == ProjectAdmissible(Value(), record)
    {
      if record.workstation !in workstations {
        return false;
      }
      var workstation := workstations[record.workstation];
      if workstation.tenant != record.tenant || workstation.owner != record.owner {
        return false;
      }
      if record.id in projects {
        var existing := projects[record.id];
        return existing.tenant == record.tenant && existing.owner == record.owner && existing.workstation == record.workstation;
      }
      return true;
    }

    method UpsertDrawing(record: DrawingRecord) returns (error: Option<Rejection>)
      modifies this
      ensures (Value(), error) == GatewaySteps.UpsertDrawing(old(Value()), record)
    {
      var admissible := DrawingRowFits(projects, record);
      if !admissible {
        return Some(DrawingOwnerMismatch);
      }
      drawings := drawings[record.id := record];
      error := None;
    }

    method DrawingRowFits(view: map<Id, ProjectRecord>, record: DrawingRecord) returns (fits: bool)
      ensures fits == DrawingAdmissible(Value().(projects := view), record)
    {
      if record.project !in view {
        return false;
      }
      var project := view[record.project];
      if project.tenant != record.tenant || project.owner != record.owner || project.workstation != record.workstation {
        return false;
      }
      if record.id in drawings {
        var existing := drawings[record.id];
        return existing.tenant == record.tenant && existing.owner == record.owner
            && existing.workstation == record.workstation && existing.project == record.project;
      }
      return true;
    }

    method SetWorkstationOnline(id: Id, online: bool) returns (error: Option<Rejection>)
      modifies this
      ensures (Value(), error) == SetOnline(old(Value()), id, online)
    {
      if id !in workstations {
        return Some(WorkstationNotFound);
      }
      workstations := workstations[id := workstations[id].(online := online)];
      error := None;
    }

    method CreateOrGetOperation(operation: OperationRecord) returns (status: CreateStatus, record: OperationRecord)
      requires Valid() && operation.id !in operations
      modifies this
      ensures Valid() && Value() == CreateOrGet(old(Value()), operation)
      ensures record.id in operations && operations[record.id] == record
      ensures status == CreatedNow <==> IndexOf(operation) !in old(idempotency)
      ensures status == CreatedNow ==> record == operation
      ensures status != CreatedNow ==> record.id == old(idempotency)[IndexOf(operation)]
      ensures status == Existing ==> record.fingerprint == operation.fingerprint
      ensures status == Conflict ==> record.fingerprint != operation.fingerprint
    {
      var key := IndexOf(operation);
      if key in idempotency {
        var existing := operations[idempotency[key]];
        return if existing.fingerprint == operation.fingerprint then Existing else Conflict, existing;
      }
      operations := operations[operation.id := operation];
      idempotency := idempotency[key := operation.id];
      return CreatedNow, operation;
    }

    method RefreshOperation(id: Id, now: int) returns (record: Option<OperationRecord>)
      requires Valid()
      modifies this
      ensures Valid() && Value() == Refresh(old(Value()), id, now)
      ensures record == if id in operations then Some(operations[id]) else None
    {
      if id !in operations {
        return None;
      }
      var refreshed := RefreshDue(operations[id], now);
      operations := operations[id := refreshed];
      record := Some(refreshed);
    }

    /** The pass over all operations that precedes a lease. */
    method RefreshAndCollect(tenant: Id, workstation: Id, owner: Id, now: int) returns (eligible: seq<OperationRecord>, active: bool)
      requires Valid()
      modifies this`operations
      ensures Valid() && Value() == old(Value()).(operations := RefreshedFor(old(operations), tenant, workstation, now))
      ensures active <==> Busy(operations, tenant, workstation)
      ensures forall r :: r in eligible <==> r.id in operations && operations[r.id] == r && Leasable(r, tenant, workstation, owner)
    {
      ghost var before := operations;
      ghost var after := RefreshedFor(before, tenant, workstation, now);
      eligible, active := [], false;
      var pending := operations.Keys;
      CollectStart(before, tenant, workstation, owner, now);
      hide Collected, RefreshDue, RefreshedFor, Busy, BelongsTo, Leasable;
      while pending != {}
        invariant pending <= before.Keys
        invariant Collected(before, after, operations, pending, eligible, active, tenant, workstation, owner)
        decreases pending
      {
        var id :| id in pending;
        CollectBranches(before, operations, pending, eligible, active, tenant, workstation, owner, now, id);
        pending := pending - {id};
        var record := operations[id];
        if BelongsTo(record, tenant, workstation) {
          var refreshed := RefreshDue(record, now);
          operations := operations[id := refreshed];
          if refreshed.state == LEASED || refreshed.state == RUNNING {
            active := true;
          } else if refreshed.owner == owner && refreshed.state == CREATED {
            eligible := eligible + [refreshed];
          }
        }
      }
      CollectEnd(before, after, operations, eligible, active, tenant, workstation, owner);
    }

    static method Earliest(eligible: seq<OperationRecord>) returns (selected: OperationRecord)
      requires eligible != []
      ensures selected in eligible && forall r :: r in eligible ==> NotAfter(selected, r)
    {
      selected := eligible[0];
      for i := 1 to |eligible|
        invariant selected in eligible && forall j :: 0 <= j < i ==> NotAfter(selected, eligible[j])
      {
        if !NotAfter(selected, eligible[i]) {
          selected := eligible[i];
        }
      }
    }

    method LeaseNextOperation(tenant: Id, workstation: Id, owner: Id, now: int, leaseExpiresAt: int)
      returns (leased: Result<Option<OperationRecord>, Rejection>)
      requires Valid()
      modifies this
      ensures Valid() && (Value(), leased) == LeaseNext(old(Value()), tenant, workstation, owner, now, leaseExpiresAt)
    {
      var eligible, active := RefreshAndCollect(tenant, workstation, owner, now);
      ghost var refreshed := operations;
      if active {
        return Ok(None);
      }
      if eligible == [] {
        assert forall id :: id in refreshed && Leasable(refreshed[id], tenant, workstation, owner) ==> refreshed[id] in eligible;
        return Ok(None);
      }
      var selected := Earliest(eligible);
      assert IsNext(refreshed, tenant, workstation, owner, selected.id);
      NextIsUnique(refreshed, tenant, workstation, owner, selected.id, NextId(refreshed, tenant, workstation, owner));
      var effective := Min(leaseExpiresAt, selected.expiresAt);
      if effective <= now {
        operations := operations[selected.id := Expire(selected, now)];
        return Ok(None);
      }
      var updated := selected.(state := LEASED, leaseExpiresAt := Some(effective));
      if !updated.ValidShape() {
        return Err(ShapeError);
      }
      operations := operations[selected.id := updated];
      return Ok(Some(updated));
    }

    method StartOperation(id: Id, tenant: Id, workstation: Id, now: int) returns (outcome: Outcome)
      requires Valid()
      modifies this
      ensures Valid() && (Value(), outcome) == Start(old(Value()), id, tenant, workstation, now)
    {
      if id !in operations || !BelongsTo(operations[id], tenant, workstation) {
        return Transition(NotFound, None);
      }
      var record := operations[id];
      if record.state == LEASED && record.leaseExpiresAt.Some? && record.leaseExpiresAt.value <= now {
        var attention := AttentionRequired(record, now);
        operations := operations[id := attention];
        return Transition(LeaseExpired, Some(attention));
      }
      if record.state != LEASED {
        return Transition(InvalidState, Some(record));
      }
      var running := record.(state := RUNNING, leaseExpiresAt := None, startedAt := Some(now));
      if !running.ValidShape() {
        return Raised(ShapeError);
      }
      operations := operations[id := running];
      return Transition(Updated, Some(running));
    }

    method FinishOperation(id: Id, tenant: Id, workstation: Id, now: int, f: Finish) returns (outcome: Outcome)
      requires Valid()
      modifies this
      ensures Valid() && (Value(), outcome) == GatewaySteps.FinishOperation(old(Value()), id, tenant, workstation, now, f)
    {
      if f.state != SUCCEEDED && f.state != FAILED && f.state != ATTENTION_REQUIRED {
        return Raised(InvalidTerminalState);
      }
      if id !in operations || !BelongsTo(operations[id], tenant, workstation) {
        return Transition(NotFound, None);
      }
      var record := operations[id];
      var refreshed := RefreshDue(record, now);
      if Due(record, now) {
        operations := operations[id := refreshed];
        if refreshed.state == EXPIRED {
          return Transition(OperationExpired, Some(refreshed));
        }
        record := refreshed;
      }
      if record.state != RUNNING {
        return Transition(InvalidState, Some(record));
      }
      var completed := Finished(record, now, f);
      if !completed.ValidShape() {
        return Raised(ShapeError);
      }
      operations := operations[id := completed];
      return Transition(Updated, Some(completed));
    }

    /** The checks that come before a success is committed, in order. */
    method ValidateWorkerCatalogApplication(operation: OperationRecord, result: TaskResult, ps: seq<ProjectRecord>, ds: seq<DrawingRecord>)
      returns (error: Option<Rejection>)
      ensures error == CatalogError(Value(), operation, result, ps, ds)
    {
      if result.Command() != operation.task.Command() {
        return Some(ResultTaskMismatch);
      }
      if !PayloadMatches(operation, result, ps, ds) {
        return Some(InvalidCatalogPayload);
      }
      for i := 0 to |ps|
        invariant forall j :: 0 <= j < i ==> ProjectCommittable(Value(), operation, ps[j])
      {
        var fits := ProjectRowFits(ps[i]);
        if !fits || ps[i].tenant != operation.tenant || ps[i].owner != operation.owner || ps[i].workstation != operation.workstation {
          assert ps[i] in ps && !ProjectCommittable(Value(), operation, ps[i]);
          return Some(ProjectOwnerMismatch);
        }
      }
      assert forall p :: p in ps ==> ProjectCommittable(Value(), operation, p);
      var view := WithProjects(projects, ps);
      for i := 0 to |ds|
        invariant forall j :: 0 <= j < i ==> DrawingCommittable(Value().(projects := view), operation, ds[j])
      {
        var fits := DrawingRowFits(view, ds[i]);
        if !fits || !view[ds[i].project].enabled
           || ds[i].tenant != operation.tenant || ds[i].owner != operation.owner || ds[i].workstation != operation.workstation {
          assert ds[i] in ds && !DrawingCommittable(Value().(projects := view), operation, ds[i]);
          return Some(DrawingOwnerMismatch);
        }
      }
      assert forall d :: d in ds ==> DrawingCommittable(Value().(projects := view), operation, d);
      return None;
    }

    method ApplyWorkerSuccess(id: Id, tenant: Id, workstation: Id, now: int, result: TaskResult, ps: seq<ProjectRecord>, ds: seq<DrawingRecord>)
      returns (outcome: Outcome)
      requires Valid()
      modifies this
      ensures Valid() && (Value(), outcome) == ApplySuccess(old(Value()), id, tenant, workstation, now, result, ps, ds)
    {
      hide CatalogError, OperationRecord.ValidShape;
      if id !in operations || !BelongsTo(operations[id], tenant, workstation) {
        return Transition(NotFound, None);
      }
      var record := operations[id];
      var refreshed := RefreshDue(record, now);
      if Due(record, now) {
        operations := operations[id := refreshed];
        if refreshed.state == EXPIRED {
          return Transition(OperationExpired, Some(refreshed));
        }
        record := refreshed;
      }
      if record.state == SUCCEEDED {
        return Transition(if record.result == Some(result) then Updated else InvalidState, Some(record));
      }
      if record.state != RUNNING {
        return Transition(InvalidState, Some(record));
      }
      var error := ValidateWorkerCatalogApplication(record, result, ps, ds);
      if error.Some? {
        return Raised(error.value);
      }
      CommitRows(ps, ds);
      var completed := Finished(record, now, Finish(SUCCEEDED, Some(result), None));
      if !completed.ValidShape() {
        return Raised(ShapeError);
      }
      operations := operations[id := completed];
      return Transition(Updated, Some(completed));
    }

    method CommitRows(ps: seq<ProjectRecord>, ds: seq<DrawingRecord>)
      modifies this`projects, this`drawings
      ensures projects == WithProjects(old(projects), ps) && drawings == WithDrawings(old(drawings), ds)
    {
      assert ps[..0] == [] && ds[..0] == [];
      for i := 0 to |ps|
        invariant projects == WithProjects(old(projects), ps[..i]) && drawings == old(drawings)
      {
        ProjectPrefix(old(projects), ps, i);
        projects := projects[ps[i].id := ps[i]];
      }
      assert ps[..|ps|] == ps;
      for i := 0 to |ds|
        invariant projects == WithProjects(old(projects), ps) && drawings == WithDrawings(old(drawings), ds[..i])
      {
        DrawingPrefix(old(drawings), ds, i);
        drawings := drawings[ds[i].id := ds[i]];
      }
      assert ds[..|ds|] == ds;
    }
  }
}
