/**
 The worker and the gateway together. Every durable commit is one step, a crash may happen between
 any two, requests may be repeated or lost, and other clients keep using the gateway.
 */
module WorkerProtocol {
  import opened Wrappers
  import opened Timestamps
  import opened LocalTables
  import opened GatewayModels
  import opened GatewaySteps
  import opened GatewayRuns

  datatype Dispatch = Dispatch(task: nat, operation: Id, command: nat, nonce: string, expires: Moment)

  datatype Report =
    | Finding(result: TaskResult, projects: seq<ProjectRecord>, drawings: seq<DrawingRecord>)
    | Trouble(code: string, attention: bool)

  type SignedResult = Envelope<Report>

  /* ------------------------------------------------------------ the gateway's side of a delivery */

  const SAFE_WORKER_ERROR_CODES: set<string> := {
    "autocad_unavailable", "drawing_changed", "drawing_not_found", "inspection_failed", "operation_timeout",
    "plan_blocked", "unsupported_runtime", "worker_disconnected", "worker_failure", "translation_disabled",
    "translation_attention_required"}

  function SafeError(task: Task, code: string, attention: bool): string {
    if attention then (if task.TranslateDrawing? then "translation_attention_required" else "worker_failure")
    else if code in SAFE_WORKER_ERROR_CODES then code else "worker_failure"
  }

  function FailureState(attention: bool): OperationState {
    if attention then ATTENTION_REQUIRED else FAILED
  }

  predicate Answered(out: Outcome) {
    out.Transition? && out.status == Updated
  }

  /** The operation records exactly this failure. */
  predicate RecordsFailure(r: OperationRecord, code: string, attention: bool) {
    r.state == FailureState(attention) && r.errorCode == Some(SafeError(r.task, code, attention))
  }

  /** `worker_fail`: an exact repetition is answered from the record, otherwise the operation is finished. */
  function Fail(s: Repo, id: Id, tenant: Id, workstation: Id, now: int, code: string, attention: bool): (Repo, bool) {
    if id !in s.operations || !BelongsTo(s.operations[id], tenant, workstation) then (s, false)
    else
      var r := s.operations[id];
      if r.state == FailureState(attention) then (s, RecordsFailure(r, code, attention))
      else
        var (t, out) := FinishOperation(s, id, tenant, workstation, now,
                                        Finish(FailureState(attention), None, Some(SafeError(r.task, code, attention))));
        (t, Answered(out))
  }

  /** A failure is reported once more when the operation was no longer running. */
  function FailTwice(s: Repo, id: Id, tenant: Id, workstation: Id, now: int, code: string, attention: bool): (Repo, bool) {
    var (t, done) := Fail(s, id, tenant, workstation, now, code, attention);
    if done then (t, true) else Fail(t, id, tenant, workstation, now, code, attention)
  }

  /** `complete`: an operation that already records this result needs no application. */
  function Deliver(s: Repo, now: int, e: SignedResult): (Repo, bool) {
    if e.operation !in s.operations || !BelongsTo(s.operations[e.operation], e.tenant, e.device) then (s, false)
    else
      var r := s.operations[e.operation];
      match e.payload
      case Finding(result, ps, ds) =>
        if r.state == SUCCEEDED then (s, r.result == Some(result))
        else if r.state != RUNNING then (s, false)
        else
          var (t, out) := ApplySuccess(s, e.operation, e.tenant, e.device, now, result, ps, ds);
          (t, Answered(out))
      case Trouble(code, attention) =>
        if r.state == FailureState(attention) then (s, RecordsFailure(r, code, attention))
        else if r.state != RUNNING then (s, false)
        else FailTwice(s, e.operation, e.tenant, e.device, now, code, attention)
  }

  /** The gateway's record holds exactly what the envelope reports. */
  predicate Holds(s: Repo, e: SignedResult) {
    && e.operation in s.operations && BelongsTo(s.operations[e.operation], e.tenant, e.device)
    && var r := s.operations[e.operation];
       match e.payload
       case Finding(result, _, _) => r.state == SUCCEEDED && r.result == Some(result)
       case Trouble(code, attention) => RecordsFailure(r, code, attention)
  }

  /* ------------------------------------------------------------ states and steps */

  datatype Phase =
    | Idle
    | Polled(d: Dispatch, at: Moment)
    | Authorized(d: Dispatch)
    | Started(d: Dispatch)
    | Running(d: Dispatch)
    | Reporting(e: SignedResult)
    | Delivering(e: SignedResult)
    | Delivered(e: SignedResult)

  /** `phase` is lost in a crash, the tables are not; `authorized` and `executed` are history. */
  datatype World = World(
    repo: Repo, nonces: Nonces, outbox: Outbox<Report>, phase: Phase,
    lastPoll: int, authorized: seq<Dispatch>, executed: seq<Dispatch>)

  datatype Event =
    | Gateway(a: Action)
    | Crash
    | ReadOutbox(e: SignedResult)
    | Poll(d: Dispatch, at: Moment)
    | ConsumeNonce
    | StartOnGateway
    | BeginExecution
    | EndExecution(e: SignedResult)
    | SaveResult
    | CompleteOnGateway
    | AcknowledgeResult

  /** Tenant and device of the one runner. */
  datatype Site = Site(tenant: nat, device: nat)

  predicate Reports(site: Site, d: Dispatch, e: SignedResult) {
    e.tenant == site.tenant && e.device == site.device && e.task == d.task && e.operation == d.operation && e.command == d.command
  }

  /** `now` is the gateway's clock; the worker reads its own clock when it polls. */
  ghost predicate Next(site: Site, w: World, v: World, now: int, event: Event) {
    match event
    case Gateway(a) => Permitted(w.repo, now, a) && v == w.(repo := Step(w.repo, now, a))
    case Crash => v == w.(phase := Idle)
    case ReadOutbox(e) => w.phase.Idle? && IsFirst(w.outbox, site.tenant, site.device, e) && v == w.(phase := Delivering(e))
    case Poll(d, at) =>
      && w.phase.Idle? && (forall k :: k in w.outbox ==> !Mine(w.outbox[k], site.tenant, site.device))
      && at.Valid() && d.expires.Valid() && w.lastPoll <= Instant(at)
      && v == w.(phase := Polled(d, at), lastPoll := Instant(at))
    case ConsumeNonce =>
      && w.phase.Polled? && w.phase.at.Valid() && w.phase.d.expires.Valid()
      && var d := w.phase.d;
         var (rows, answer) := Consume(w.nonces, NonceKey(site.tenant, site.device, d.nonce), w.phase.at, d.expires);
         v == if answer == Ok(true) then w.(nonces := rows, phase := Authorized(d), authorized := w.authorized + [d])
              else w.(nonces := rows, phase := Idle)
    case StartOnGateway =>
      && w.phase.Authorized?
      && var (t, out) := Start(w.repo, w.phase.d.operation, site.tenant, site.device, now);
         v == w.(repo := t, phase := if Answered(out) then Started(w.phase.d) else Idle)
    case BeginExecution => w.phase.Started? && v == w.(phase := Running(w.phase.d), executed := w.executed + [w.phase.d])
    case EndExecution(e) => w.phase.Running? && Reports(site, w.phase.d, e) && v == w.(phase := Reporting(e))
    case SaveResult =>
      && w.phase.Reporting?
      && var (rows, problem) := Saved(w.outbox, w.phase.e);
         v == w.(outbox := rows, phase := if problem.None? then Delivering(w.phase.e) else Idle)
    case CompleteOnGateway =>
      && w.phase.Delivering?
      && var (t, done) := Deliver(w.repo, now, w.phase.e);
         v == w.(repo := t, phase := if done then Delivered(w.phase.e) else Idle)
    case AcknowledgeResult =>
      && w.phase.Delivered?
      && v == w.(outbox := Acknowledged(w.outbox, w.phase.e).0, phase := Idle)
  }

  const InitialWorld: World := World(EmptyRepo, map[], map[], Idle, 0, [], [])

  ghost predicate IsWorkerRun(site: Site, worlds: seq<World>, times: seq<int>, events: seq<Event>) {
    && |worlds| == |events| + 1 && |times| == |events| && worlds[0] == InitialWorld
    && (forall i, j :: 0 <= i < j < |times| ==> times[i] <= times[j])
    && (forall i :: 0 <= i < |events| ==> Next(site, worlds[i], worlds[i + 1], times[i], events[i]))
  }
}
