/**
 Operation and catalog records of services/gateway/cadplot_gateway/models.py. Identifiers are
 fixed-width lower-case UUID strings in the source, so their text order is a number's order and
 they are numbers here; timestamps are UTC instants on an integer axis.
 */
module GatewayModels {
  import opened Wrappers

  type Id = nat

  datatype Command = TranslationCommand | EnvironmentCommand | ProjectsCommand | DrawingsCommand | InspectionCommand | PlanCommand

  datatype Task =
    | ValidateEnvironment(workstation: Id)
    | ListProjects(workstation: Id)
    | ScanDrawings(project: Id, recursive: bool, limit: int)
    | InspectDrawing(drawing: Id)
    | CreatePublishPlan(drawing: Id)
    | TranslateDrawing(drawing: Id, applies: bool, request: int)
  {
    function Command(): Command {
      match this
      case ValidateEnvironment(_) => EnvironmentCommand
      case ListProjects(_) => ProjectsCommand
      case ScanDrawings(_, _, _) => DrawingsCommand
      case InspectDrawing(_) => InspectionCommand
      case CreatePublishPlan(_) => PlanCommand
      case TranslateDrawing(_, _, _) => TranslationCommand
    }

    /** A translation task that writes a drawing. */
    predicate IsApply() {
      TranslateDrawing? && applies
    }
  }

  /** `detail` stands for the fields of a result that the repository only stores and compares. */
  datatype TaskResult =
    | EnvironmentResult(detail: int)
    | ProjectsResult(projectIds: seq<Id>)
    | DrawingsResult(project: Id, drawingIds: seq<Id>, truncated: bool)
    | InspectionResult(drawing: Id, detail: int)
    | PublishPlanResult(drawing: Id, detail: int)
    | TranslationResult(drawing: Id, detail: int)
  {
    function Command(): Command {
      match this
      case EnvironmentResult(_) => EnvironmentCommand
      case ProjectsResult(_) => ProjectsCommand
      case DrawingsResult(_, _, _) => DrawingsCommand
      case InspectionResult(_, _) => InspectionCommand
      case PublishPlanResult(_, _) => PlanCommand
      case TranslationResult(_, _) => TranslationCommand
    }
  }

  datatype OperationState = CREATED | LEASED | RUNNING | SUCCEEDED | FAILED | EXPIRED | ATTENTION_REQUIRED
  {
    predicate Active() {
      LEASED? || RUNNING?
    }

    predicate Terminal() {
      SUCCEEDED? || FAILED? || EXPIRED? || ATTENTION_REQUIRED?
    }
  }

  datatype OperationRecord = OperationRecord(
    id: Id, tenant: Id, owner: Id, client: Id, workstation: Id, idempotencyKey: Id,
    fingerprint: string, task: Task, state: OperationState,
    createdAt: int, expiresAt: int, leaseExpiresAt: Option<int>, startedAt: Option<int>,
    completedAt: Option<int>, result: Option<TaskResult>, errorCode: Option<string>)
  {
    /** `validate_state_shape`. */
    predicate ValidShape() {
      && createdAt < expiresAt
      && (leaseExpiresAt.Some? ==> createdAt < leaseExpiresAt.value <= expiresAt)
      && (startedAt.Some? ==> createdAt <= startedAt.value < expiresAt)
      && (completedAt.Some? ==> createdAt <= completedAt.value)
      && (completedAt.Some? && startedAt.Some? ==> startedAt.value <= completedAt.value)
      && match state
         case CREATED => leaseExpiresAt.None? && startedAt.None? && completedAt.None? && result.None? && errorCode.None?
         case LEASED => leaseExpiresAt.Some? && startedAt.None? && completedAt.None? && result.None? && errorCode.None?
         case RUNNING => startedAt.Some? && leaseExpiresAt.None? && completedAt.None? && result.None? && errorCode.None?
         case SUCCEEDED =>
           && startedAt.Some? && completedAt.Some? && result.Some? && errorCode.None? && leaseExpiresAt.None?
           && result.value.Command() == task.Command()
         case FAILED =>
           completedAt.Some? && errorCode.Some? && result.None? && leaseExpiresAt.None? && startedAt.Some?
         case EXPIRED =>
           && completedAt.Some? && errorCode.Some? && result.None? && leaseExpiresAt.None?
           && expiresAt <= completedAt.value
         case ATTENTION_REQUIRED =>
           completedAt.Some? && errorCode.Some? && result.None? && leaseExpiresAt.None?
    }
  }

  datatype WorkstationRecord = WorkstationRecord(id: Id, tenant: Id, owner: Id, displayName: string, enabled: bool, online: bool)

  datatype ProjectRecord = ProjectRecord(id: Id, tenant: Id, owner: Id, workstation: Id, displayName: string, enabled: bool)

  datatype DrawingRecord = DrawingRecord(id: Id, tenant: Id, owner: Id, workstation: Id, project: Id, displayName: string, enabled: bool)
}
