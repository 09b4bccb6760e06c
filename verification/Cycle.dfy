/**
 * One cycle of the execution machine, `agent/cycle.py`: selection, a Codex turn, the
 * scope check, validation, bounded repair and transport retry, or final verification.
 * Every foreign call is answered by an oracle; every effect is an event of the trace.
 */
module Cycle {
  import opened Wrappers
  import opened TaskGraph
  import opened ExecutionState
  import opened Select

  const TRANSPORT_RETRY_MAX: nat := 2
  const REPAIR_ATTEMPT_LIMIT := "REPAIR_ATTEMPT_LIMIT"
  const REPAIR_LIMIT_MESSAGE := "repair_attempt_limit reached"
  const CODEX_TRANSPORT_RETRY_LIMIT := "CODEX_TRANSPORT_RETRY_LIMIT"
  const STATE_TAMPERED := "STATE_TAMPERED"

  // ---------- What the environment may answer ----------

  /** `StateFileFingerprint`; the digest and the link target are opaque values. */
  datatype Fingerprint = Absent | Regular(digest: int) | Symlink(target: int) | Directory | OtherFile

  predicate RegularOrAbsent(f: Fingerprint) {
    f.Absent? || f.Regular?
  }

  datatype FailureClass = AgentRepairable | EnvironmentFailure | EscalationRequired

  datatype CodexRun =
    | CodexRaised(code: string)
    | CodexExited(exitCode: int, transportError: bool, failureClass: FailureClass)

  datatype ScopeCheck = ScopeRaised(code: string) | ScopeAllowed | ScopeViolated(paths: string)

  datatype ValidationRecord = ValidationRecord(command: string, passed: bool, failureClass: FailureClass)

  /** `run_validation_text` runs at least one command and stops at the first failure. */
  predicate WellFormedRecords(records: seq<ValidationRecord>) {
    |records| > 0 && forall i :: 0 <= i < |records| - 1 ==> records[i].passed
  }

  type Records = r: seq<ValidationRecord> | WellFormedRecords(r)
    witness [ValidationRecord("true", true, EscalationRequired)]

  datatype ValidationRun = ValidationRaised(code: string) | ValidationRan(records: Records)

  /**
   * The observations around one Codex turn, in the order the code makes them; `before` is what
   * building the prompt or reading the state file's fingerprint raises ahead of Codex.
   */
  datatype TurnObservation = TurnObservation(
    before: Option<string>,
    preFingerprint: Fingerprint,
    codex: CodexRun,
    afterCodex: Fingerprint,
    beforeScope: Fingerprint,
    scope: ScopeCheck,
    validation: ValidationRun)

  datatype CycleStart = StartRaised(code: string) | Started(stateFile: Fingerprint, dirty: bool)

  /**
   * Adversarial answers: one per cycle, one per Codex turn of the whole run, and one per event:
   * whether the state can be written there, which it cannot be when the path holds no regular file.
   */
  datatype Oracle = Oracle(
    start: nat -> CycleStart,
    turn: nat -> TurnObservation,
    finalRun: nat -> ValidationRun,
    writable: nat -> bool)

  datatype Context = Context(spec: TaskSpec, persist: bool, requireCleanWorktree: bool, oracle: Oracle)

  // ---------- Results and traces ----------

  datatype CycleOutcome =
    | TaskCompletedOutcome | FinalVerificationPassed | FailedOutcome | EscalatedOutcome | ScopeViolationOutcome

  datatype CycleResult = CycleResult(
    outcome: CycleOutcome,
    taskId: Option<string>,
    state: State,
    failureClass: Option<FailureClass>,
    message: string,
    code: Option<string>)

  /** `validate_cycle_result` */
  predicate ValidCycleResult(r: CycleResult) {
    && r.code != Some("")
    && match r.outcome
       case TaskCompletedOutcome => r.failureClass.None? && r.code.None?
       case FinalVerificationPassed => r.failureClass.None? && r.code.None?
       case FailedOutcome => r.failureClass == Some(EnvironmentFailure)
       case EscalatedOutcome =>
         && r.failureClass in {Some(AgentRepairable), Some(EscalationRequired)}
         && (r.failureClass == Some(AgentRepairable) && r.message == REPAIR_LIMIT_MESSAGE ==>
               r.code == Some(REPAIR_ATTEMPT_LIMIT))
       case ScopeViolationOutcome => r.failureClass == Some(EscalationRequired)
  }

  datatype Event = CodexInvoked(task: string) | Persisted(state: State) | FinalVerificationRun

  datatype CycleExit = Returned(result: CycleResult) | Raised(error: AgentError)

  /** How a call ended, what it did on the way, and the index of the next Codex turn. */
  datatype Run = Run(exit: CycleExit, trace: seq<Event>, turns: nat)

  function After(events: seq<Event>, run: Run): Run {
    run.(trace := events + run.trace)
  }

  /** The `CycleResult` constructor validates itself and raises when that fails. */
  function Finish(r: CycleResult, n: nat): Run {
    Run(if ValidCycleResult(r) then Returned(r) else Raised(InvalidCycleResult), [], n)
  }

  function Fail(e: AgentError, n: nat): Run {
    Run(Raised(e), [], n)
  }

  function Persist(ctx: Context, s: State): seq<Event> {
    if ctx.persist then [Persisted(s)] else []
  }

  // ---------- The repair budget, `agent/repair.py` ----------

  function RemainingRepairs(limit: nat, used: nat): nat {
    if limit > used then limit - used else 0
  }

  predicate CanAttemptRepair(limit: nat, used: nat) {
    RemainingRepairs(limit, used) > 0
  }

  // ---------- The cycle ----------

  function EnterImplementing(s: State, task: SpecTask): Result<State, AgentError> {
    match s.status
    case Pending =>
      (match ApplyTransition(s, Running, currentTask := To(Some(task.id)))
       case Err(e) => Err(e)
       case Ok(running) => ApplyTransition(running, Implementing))
    case Running => ApplyTransition(s, Implementing, currentTask := To(Some(task.id)))
    case TaskCompleted => ApplyTransition(s, Implementing, currentTask := To(Some(task.id)))
    case Validating => ApplyTransition(s, Implementing, currentTask := To(Some(task.id)))
    case Implementing => Ok(s)
    case _ => Err(InvalidTransition)
  }

  function StateTamperedResult(task: SpecTask, s: State, n: nat): Run {
    var state :=
      match ApplyTransition(s, ScopeViolation, currentTask := To(Some(task.id)), lastResult := To(Some(FailedResult)))
      case Ok(updated) => updated
      case Err(_) => s;
    Finish(
      CycleResult(ScopeViolationOutcome, Some(task.id), state, Some(EscalationRequired), STATE_TAMPERED, Some(STATE_TAMPERED)),
      n)
  }

  /** The common ending of a failed turn: FAILED for the environment, ESCALATED otherwise. */
  function EndFailed(
    ctx: Context, taskId: Option<string>, s: State, class_: FailureClass, changes: Result<State, AgentError>,
    message: string, code: Option<string>, n: nat): Run
  {
    match changes
    case Err(e) => Fail(e, n)
    case Ok(state) =>
      var outcome := if class_ == EnvironmentFailure then FailedOutcome else EscalatedOutcome;
      After(Persist(ctx, state), Finish(CycleResult(outcome, taskId, state, Some(class_), message, code), n))
  }

  function FailureTarget(class_: FailureClass): Status {
    if class_ == EnvironmentFailure then Failed else Escalated
  }

  function FailedRecord(records: Records): Option<ValidationRecord> {
    var last := records[|records| - 1];
    if last.passed then None else Some(last)
  }

  function InvokeCodexTurn(ctx: Context, task: SpecTask, s: State, retries: nat, n: nat): Run
    requires retries <= TRANSPORT_RETRY_MAX
    decreases RemainingRepairs(ctx.spec.repairAttemptLimit, s.repairAttempts), TRANSPORT_RETRY_MAX - retries, 2
  {
    var turn := ctx.oracle.turn(n);
    if turn.before.Some? then Fail(External(turn.before.value), n + 1)
    else if !RegularOrAbsent(turn.preFingerprint) then StateTamperedResult(task, s, n + 1)
    else
      After([CodexInvoked(task.id)],
        if turn.preFingerprint != turn.afterCodex then StateTamperedResult(task, s, n + 1)
        else if turn.codex.CodexRaised? then Fail(External(turn.codex.code), n + 1)
        else AfterCodex(ctx, task, s, retries, n))
  }

  function AfterCodex(ctx: Context, task: SpecTask, s: State, retries: nat, n: nat): Run
    requires retries <= TRANSPORT_RETRY_MAX && ctx.oracle.turn(n).codex.CodexExited?
    decreases RemainingRepairs(ctx.spec.repairAttemptLimit, s.repairAttempts), TRANSPORT_RETRY_MAX - retries, 1
  {
    var turn := ctx.oracle.turn(n);
    if turn.preFingerprint != turn.beforeScope then StateTamperedResult(task, s, n + 1)
    else
      match turn.scope
      case ScopeRaised(code) => Fail(External(code), n + 1)
      case ScopeViolated(paths) =>
        (match ApplyTransition(s, ScopeViolation, currentTask := To(Some(task.id)), lastResult := To(Some(FailedResult)))
         case Err(e) => Fail(e, n + 1)
         case Ok(state) =>
           After(Persist(ctx, state),
             Finish(
               CycleResult(ScopeViolationOutcome, Some(task.id), state, Some(EscalationRequired),
                 "SCOPE_VIOLATION: " + paths, None),
               n + 1)))
      case ScopeAllowed =>
        if turn.codex.exitCode != 0 then
          if turn.codex.transportError && retries < TRANSPORT_RETRY_MAX then
            InvokeCodexTurn(ctx, task, s, retries + 1, n + 1)
          else
            var class_ := if turn.codex.transportError then EnvironmentFailure else turn.codex.failureClass;
            EndFailed(ctx, Some(task.id), s, class_,
              ApplyTransition(s, FailureTarget(class_),
                currentTask := To(Some(task.id)), lastResult := To(Some(FailedResult))),
              if turn.codex.transportError then "codex transport retry limit reached" else "codex exited non-zero",
              if turn.codex.transportError then Some(CODEX_TRANSPORT_RETRY_LIMIT) else None,
              n + 1)
        else
          match ApplyTransition(s, Validating, currentTask := To(Some(task.id)))
          case Err(e) => Fail(e, n + 1)
          case Ok(state) => After(Persist(ctx, state), ValidateAndMaybeRepair(ctx, task, state, n))
  }

  function ValidateAndMaybeRepair(ctx: Context, task: SpecTask, s: State, n: nat): Run
    decreases RemainingRepairs(ctx.spec.repairAttemptLimit, s.repairAttempts), 0, 0
  {
    match ctx.oracle.turn(n).validation
    case ValidationRaised(code) => Fail(External(code), n + 1)
    case ValidationRan(records) =>
      match FailedRecord(records)
      case None =>
        var completed := if task.id in s.completedTasks then s.completedTasks else s.completedTasks + [task.id];
        (match ApplyTransition(s, TaskCompleted, currentTask := To(Some(task.id)), completedTasks := To(completed),
                 lastValidation := To(Some(records[|records| - 1].command)), lastResult := To(Some(PassedResult)))
         case Err(e) => Fail(e, n + 1)
         case Ok(state) =>
           After(Persist(ctx, state),
             Finish(CycleResult(TaskCompletedOutcome, Some(task.id), state, None, "validation passed", None), n + 1)))
      case Some(failed) =>
        if failed.failureClass == EnvironmentFailure || failed.failureClass == EscalationRequired then
          EndFailed(ctx, Some(task.id), s, failed.failureClass,
            ApplyTransition(s, FailureTarget(failed.failureClass), currentTask := To(Some(task.id)),
              lastValidation := To(Some(failed.command)), lastResult := To(Some(FailedResult))),
            if failed.failureClass == EnvironmentFailure then "environment failure is not sent to repair"
            else "validation failure requires escalation",
            None, n + 1)
        else if !CanAttemptRepair(ctx.spec.repairAttemptLimit, s.repairAttempts) then
          EndFailed(ctx, Some(task.id), s, failed.failureClass,
            ApplyTransition(s, Escalated, currentTask := To(Some(task.id)),
              lastValidation := To(Some(failed.command)), lastResult := To(Some(FailedResult))),
            REPAIR_LIMIT_MESSAGE, Some(REPAIR_ATTEMPT_LIMIT), n + 1)
        else
          match ApplyTransition(s, Implementing, currentTask := To(Some(task.id)),
                  repairAttempts := To(s.repairAttempts + 1),
                  lastValidation := To(Some(failed.command)), lastResult := To(Some(FailedResult)))
          case Err(e) => Fail(e, n + 1)
          case Ok(state) => After(Persist(ctx, state), InvokeCodexTurn(ctx, task, state, 0, n + 1))
  }

  /** The last lines of `_final_verify_if_ready`, from the FINAL_VALIDATING state. */
  function FinalVerify(ctx: Context, s: State, c: nat, n: nat): Run {
    match ctx.oracle.finalRun(c)
    case ValidationRaised(code) => Fail(External(code), n)
    case ValidationRan(records) =>
      match FailedRecord(records)
      case None =>
        After(Persist(ctx, s),
          Finish(CycleResult(FinalVerificationPassed, None, s, None, "final verification passed", None), n))
      case Some(failed) =>
        EndFailed(ctx, None, s, failed.failureClass,
          ApplyTransition(s, FailureTarget(failed.failureClass),
            lastValidation := To(Some(failed.command)), lastResult := To(Some(FailedResult))),
          "final verification failed", None, n)
  }

  function FinalVerifyIfReady(ctx: Context, s: State, c: nat, n: nat): Run {
    match s.status
    case TaskCompleted =>
      (match ApplyTransition(s, FinalValidating)
       case Err(e) => Fail(e, n)
       case Ok(state) => After(Persist(ctx, state) + [FinalVerificationRun], FinalVerify(ctx, state, c, n)))
    case FinalValidating => After([FinalVerificationRun], FinalVerify(ctx, s, c, n))
    case _ => Fail(InvalidTransition, n)
  }

  /** `run_task_cycle` for cycle `c`, whose first Codex turn is turn `n` of the run. */
  function RunTaskCycle(ctx: Context, s: State, c: nat, n: nat): Run
    requires ctx.spec.tasks != []
  {
    match ctx.oracle.start(c)
    case StartRaised(code) => Fail(External(code), n)
    case Started(stateFile, dirty) =>
      match SelectNextTask(ctx.spec, s)
      case Err(e) => Fail(e, n)
      case Ok(selected) =>
        if !RegularOrAbsent(stateFile) then
          StateTamperedResult(if selected.Some? then selected.value else ctx.spec.tasks[0], s, n)
        else if selected.None? then FinalVerifyIfReady(ctx, s, c, n)
        else if ctx.requireCleanWorktree && s.completedTasks == [] && dirty then Fail(External("DIRTY_WORKTREE"), n)
        else
          match EnterImplementing(s, selected.value)
          case Err(e) => Fail(e, n)
          case Ok(state) => After(Persist(ctx, state), InvokeCodexTurn(ctx, selected.value, state, 0, n))
  }
}
