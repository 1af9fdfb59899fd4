/**
 What a delivery does at the gateway, in the fields of the record: how a failure ends an operation,
 when a report is acknowledged, and what then is on record.
 */
module WorkerDelivery {
  import opened Wrappers
  import opened Timestamps
  import opened LocalTables
  import opened GatewayModels
  import opened GatewaySteps
  import opened GatewayRuns
  import opened GatewayScope
  import opened WorkerProtocol

  /** The error codes that may be shown to the owner of an operation. */
  const PUBLIC_CODES: set<string> := {
    "autocad_unavailable", "drawing_changed", "drawing_not_found", "inspection_failed", "operation_timeout", "plan_blocked",
    "unsupported_runtime", "worker_disconnected", "worker_failure", "translation_disabled", "translation_attention_required"}

  /** The record that a failure reported at `now` leaves. */
  function Ended(r: OperationRecord, now: int, code: string, attention: bool): OperationRecord {
    if attention then
      r.(state := ATTENTION_REQUIRED, completedAt := Some(now), result := None,
         errorCode := Some(if r.task.TranslateDrawing? then "translation_attention_required" else "worker_failure"))
    else
      r.(state := FAILED, completedAt := Some(now), result := None,
         errorCode := Some(if code in PUBLIC_CODES then code else "worker_failure"))
  }

  /** The record shows this failure already. */
  predicate EndedSo(r: OperationRecord, code: string, attention: bool) {
    r.state == Ended(r, 0, code, attention).state && r.errorCode == Ended(r, 0, code, attention).errorCode
  }

  /** A write whose deadline has passed while it was running: its outcome needs attention in any case. */
  predicate OverdueWrite(r: OperationRecord, now: int) {
    r.state == RUNNING && r.expiresAt <= now && r.task.TranslateDrawing? && r.task.applies
  }

  lemma FailInTime(s: Repo, now: int, id: Id, tenant: Id, workstation: Id, code: string, attention: bool)
    requires RepoInv(s, now) && !Foreign(s, id, tenant, workstation) && RunsInTime(s, id, now)
    ensures Fail(s, id, tenant, workstation, now, code, attention)
         == (s.(operations := s.operations[id := Ended(s.operations[id], now, code, attention)]), true)
  {
    var r := s.operations[id];
    var f := Finish(FailureState(attention), None, Some(SafeError(r.task, code, attention)));
    RecordAt(s, now, id);
    FinishMeans(s, now, now, id, tenant, workstation, f);
    EndedIsShaped(r, now, code, attention);
    hide RepoInv, FinishOperation, OperationRecord.ValidShape;
    assert r.(state := f.state, completedAt := Some(now), result := f.result, errorCode := f.errorCode) == Ended(r, now, code, attention);
  }

  lemma EndedIsShaped(r: OperationRecord, now: int, code: string, attention: bool)
    requires r.ValidShape() && Timely(r, now) && r.state == RUNNING
    ensures Ended(r, now, code, attention).ValidShape()
  {
  }

  lemma FailTooLate(s: Repo, now: int, id: Id, tenant: Id, workstation: Id, code: string, attention: bool)
    requires RepoInv(s, now) && !Foreign(s, id, tenant, workstation) && s.operations[id].state == RUNNING && !RunsInTime(s, id, now)
    ensures FailTwice(s, id, tenant, workstation, now, code, attention).1 <==> attention && OverdueWrite(s.operations[id], now)
  {
    RecordAt(s, now, id);
    DeadlineMeans(s.operations[id], now);
    hide RepoInv, RefreshDue, OperationRecord.ValidShape;
    var t := Fail(s, id, tenant, workstation, now, code, attention).0;
    assert t == Put(s, RefreshDue(s.operations[id], now));
    assert !Due(t.operations[id], now);
  }

  /**
   A failure that is reported for a running operation in time ends it as it was reported, and is
   acknowledged; otherwise it is acknowledged only if the record shows that very failure.
   */
  lemma FailureDelivered(s: Repo, now: int, e: SignedResult)
    requires RepoInv(s, now) && e.payload.Trouble?
    ensures var (t, done) := Deliver(s, now, e);
            var code, attention := e.payload.code, e.payload.attention;
            if Foreign(s, e.operation, e.tenant, e.device) then t == s && !done
            else
              var r := s.operations[e.operation];
              if RunsInTime(s, e.operation, now) then
                done && t == s.(operations := s.operations[e.operation := Ended(r, now, code, attention)])
              else
                done <==> EndedSo(r, code, attention) || (attention && OverdueWrite(r, now))
  {
    if !Foreign(s, e.operation, e.tenant, e.device) && s.operations[e.operation].state == RUNNING {
      if RunsInTime(s, e.operation, now) {
        FailInTime(s, now, e.operation, e.tenant, e.device, e.payload.code, e.payload.attention);
        hide Fail, RepoInv, SafeError;
      } else {
        FailTooLate(s, now, e.operation, e.tenant, e.device, e.payload.code, e.payload.attention);
        hide FailTwice, RepoInv, SafeError;
      }
    }
  }

  /** A finding is acknowledged exactly when it is on record, or the operation runs in time and the rows are its own. */
  lemma FindingDelivered(s: Repo, now: int, e: SignedResult)
    requires RepoInv(s, now) && e.payload.Finding?
    ensures var (t, done) := Deliver(s, now, e);
            var result, ps, ds := e.payload.result, e.payload.projects, e.payload.drawings;
            if Foreign(s, e.operation, e.tenant, e.device) then t == s && !done
            else
              var r := s.operations[e.operation];
              && (done <==>
                    || (r.state == SUCCEEDED && r.result == Some(result))
                    || (RunsInTime(s, e.operation, now) && Answers(r, result, ps, ds)
                        && (forall p :: p in ps ==> OwnProject(s, r, p)) && (forall d :: d in ds ==> OwnDrawing(s, r, d))))
              && (done && r.state != SUCCEEDED ==>
                    e.operation in t.operations
                    && t.operations[e.operation] == r.(state := SUCCEEDED, completedAt := Some(now), result := Some(result), errorCode := None))
  {
    hide RepoInv, Answers, OwnProject, OwnDrawing;
    ApplyMeans(s, now, now, e.operation, e.tenant, e.device, e.payload.result, e.payload.projects, e.payload.drawings);
    if !Foreign(s, e.operation, e.tenant, e.device) && RunsInTime(s, e.operation, now) {
      RecordAt(s, now, e.operation);
      AcceptedMeans(s, e.operation, e.payload.result, e.payload.projects, e.payload.drawings);
      ApplyInTime(s, now, e.operation, e.tenant, e.device, e.payload.result, e.payload.projects, e.payload.drawings);
    }
    hide ApplySuccess, CatalogError;
  }

  /* ------------------------------------------------------------ where results come from */

  /** The result reports the task, operation and command of a dispatch that this site has executed. */
  ghost predicate FromExecution(site: Site, w: World, e: SignedResult) {
    && e.tenant == site.tenant && e.device == site.device
    && exists d :: d in w.executed && d.task == e.task && d.operation == e.operation && d.command == e.command
  }

  ghost predicate AllFromExecutions(site: Site, w: World) {
    && (forall k :: k in w.outbox ==> FromExecution(site, w, w.outbox[k]))
    && (w.phase.Running? ==> w.phase.d in w.executed)
    && (w.phase.Reporting? || w.phase.Delivering? || w.phase.Delivered? ==> FromExecution(site, w, w.phase.e))
  }

  lemma StillExecuted(site: Site, w: World, v: World, e: SignedResult)
    requires FromExecution(site, w, e) && w.executed <= v.executed
    ensures FromExecution(site, v, e)
  {
    var d :| d in w.executed && d.task == e.task && d.operation == e.operation && d.command == e.command;
    assert forall i :: 0 <= i < |w.executed| ==> v.executed[i] == w.executed[i];
    assert d in v.executed;
  }

  lemma OriginStep(site: Site, w: World, v: World, now: int, event: Event)
    requires AllFromExecutions(site, w) && Next(site, w, v, now, event)
    ensures AllFromExecutions(site, v)
  {
    hide Step, Permitted, Start, Consume, Deliver, Instant, Moment.Valid, NotLater, FromExecution;
    assert w.executed <= v.executed;
    forall e | FromExecution(site, w, e) ensures FromExecution(site, v, e) {
      StillExecuted(site, w, v, e);
    }
    if event.EndExecution? {
      ReportedFrom(site, v, w.phase.d, event.e);
    }
  }

  lemma ReportedFrom(site: Site, w: World, d: Dispatch, e: SignedResult)
    requires d in w.executed && Reports(site, d, e)
    ensures FromExecution(site, w, e)
  {
  }

  /** In every state of every run each result in the outbox, or on its way, reports an execution of this site. */
  lemma {:induction false} ResultsComeFromExecutions(site: Site, worlds: seq<World>, times: seq<int>, events: seq<Event>, n: nat)
    requires IsWorkerRun(site, worlds, times, events) && n < |worlds|
    ensures AllFromExecutions(site, worlds[n])
  {
    if n > 0 {
      ResultsComeFromExecutions(site, worlds, times, events, n - 1);
      OriginStep(site, worlds[n - 1], worlds[n], times[n - 1], events[n - 1]);
    }
  }
}
