/** The execution state machine of `agent/state.py`. */
module ExecutionState {
  import opened Wrappers
  import opened TaskGraph

  datatype Status =
    | Pending | Running | Implementing | Validating | TaskCompleted | FinalValidating
    | PrCreated | InReview | ReadyForHuman | Completed
    | InvalidSpec | ScopeViolation | Failed | Escalated

  datatype LastResult = PassedResult | FailedResult

  datatype State = State(
    taskId: string,
    status: Status,
    currentTask: Option<string>,
    completedTasks: seq<string>,
    repairAttempts: nat,
    reviewAttempts: nat,
    lastValidation: Option<string>,
    lastResult: Option<LastResult>,
    branch: string,
    pullRequest: Option<string>)

  /** The errors the modelled code raises itself; `External` are those of calls it makes. */
  datatype AgentError =
    | InvalidTransition
    | SchemaError
    | InvalidState
    | DependencyBlocked
    | InvalidCycleResult
    | InvalidWorkUnitReport
    | UnsupportedCycleOutcome
    | LoopBoundExceeded
    | External(code: string)

  function AllowedTransitions(s: Status): set<Status> {
    match s
    case Pending => {Running, InvalidSpec}
    case Running => {Implementing, InvalidSpec, Failed, Escalated}
    case Implementing => {Validating, ScopeViolation, Failed, Escalated}
    case Validating => {TaskCompleted, Implementing, ScopeViolation, Failed, Escalated}
    case TaskCompleted => {Implementing, FinalValidating, Failed, Escalated}
    case FinalValidating => {PrCreated, Failed, Escalated}
    case PrCreated => {InReview, Failed, Escalated}
    case InReview => {ReadyForHuman, Implementing, Failed, Escalated}
    case ReadyForHuman => {Completed}
    case Failed => {Running}
    case _ => {}
  }

  predicate IsAlnum(c: char) {
    'A' <= c <= 'Z' || 'a' <= c <= 'z' || '0' <= c <= '9'
  }

  /** The identifier pattern of both JSON schemas. */
  predicate IsTaskId(s: string) {
    && |s| > 0
    && IsAlnum(s[0])
    && forall i :: 0 < i < |s| ==> IsAlnum(s[i]) || s[i] == '_' || s[i] == '-'
  }

  /** `execution-state.schema.json`, beyond what the field types already say. */
  predicate SchemaValid(s: State) {
    && IsTaskId(s.taskId)
    && (s.currentTask.Some? ==> IsTaskId(s.currentTask.value))
    && (forall i :: 0 <= i < |s.completedTasks| ==> IsTaskId(s.completedTasks[i]))
    && s.branch != ""
  }

  function NewExecutionState(spec: TaskSpec): State {
    State(spec.id, Pending, None, [], 0, 0, None, None, spec.targetBranch, None)
  }

  /** A keyword argument that may be omitted. */
  datatype Change<+T> = Keep | To(value: T)

  function Changed<T>(c: Change<T>, current: T): T {
    if c.To? then c.value else current
  }

  /** `apply_transition`, for the keyword arguments that the execution loop passes. */
  function ApplyTransition(
    s: State,
    target: Status,
    currentTask: Change<Option<string>> := Keep,
    completedTasks: Change<seq<string>> := Keep,
    repairAttempts: Change<nat> := Keep,
    lastValidation: Change<Option<string>> := Keep,
    lastResult: Change<Option<LastResult>> := Keep): Result<State, AgentError>
  {
    if target !in AllowedTransitions(s.status) then Err(InvalidTransition)
    else
      var updated := s.(
        status := target,
        currentTask := Changed(currentTask, s.currentTask),
        completedTasks := Changed(completedTasks, s.completedTasks),
        repairAttempts := Changed(repairAttempts, s.repairAttempts),
        lastValidation := Changed(lastValidation, s.lastValidation),
        lastResult := Changed(lastResult, s.lastResult));
      if SchemaValid(updated) then Ok(updated) else Err(SchemaError)
  }

  /** What `parse_spec` guarantees of the fields the execution loop reads. */
  ghost predicate WellFormedSpec(spec: TaskSpec) {
    && IsTaskId(spec.id)
    && spec.targetBranch != ""
    && spec.tasks != []
    && (forall i :: 0 <= i < |spec.tasks| ==> IsTaskId(spec.tasks[i].id))
    && ValidTasks(spec.tasks)
  }
}
