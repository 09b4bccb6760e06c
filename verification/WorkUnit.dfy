/** Preparation, the cycle loop and the report: `agent/reconcile.py` and `agent/workunit.py`. */
module WorkUnit {
  import opened Wrappers
  import opened TaskGraph
  import opened ExecutionState
  import opened Select
  import opened Cycle

  // ---------- Preparation, `agent/reconcile.py` ----------

  /**
   * What the state-file path holds when a run starts. `Unreadable` is refused with the code of the
   * error; bytes that are no UTF-8, or JSON nested too deeply, are `Undecodable`: reading them
   * raises an exception that is no `AgentError`, and nothing catches it.
   */
  datatype StateFile = NoFile | NotRegular | Unreadable(code: Option<string>) | Undecodable | Stored(state: State)

  /** Stands for the exception that escapes. */
  const UNDECODABLE := "UNDECODABLE"

  datatype Action = Continue | Retry | Block

  datatype Prepared =
    | Plan(action: Action, state: State, reason: string)
    | Refused(code: Option<string>)
    | Crashed  // nothing was prepared and nothing caught the exception

  predicate InFlight(s: Status) {
    s in {Running, Implementing, Validating, FinalValidating}
  }

  /** `_recover_in_flight` */
  function RecoverInFlight(s: State): State {
    if s.status == FinalValidating then s
    else if s.completedTasks != [] then s.(status := TaskCompleted)
    else s.(status := Pending, currentTask := None, repairAttempts := 0)
  }

  /** `_prepare_persisted_state` */
  function PreparePersistedState(spec: TaskSpec, s: State): Prepared {
    if s.taskId != spec.id then Refused(Some("UNSAFE_RECONCILE"))
    else if s.branch != spec.targetBranch then Refused(Some("STATE_BRANCH_MISMATCH"))
    else if s.status == Escalated then Plan(Block, s, "execution is ESCALATED; human action required")
    else if s.status == ScopeViolation then Plan(Block, s, "SCOPE_VIOLATION is not auto-retried")
    else if s.status == InvalidSpec then Plan(Block, s, "INVALID_SPEC is not auto-retried")
    else if s.status == Completed then Plan(Block, s, "COMPLETED is not auto-retried")
    else if s.status == PrCreated then
      Plan(Continue, NewExecutionState(spec), "ephemeral start; existing PR reuse is deliver-side")
    else if s.status == Failed then
      match ApplyTransition(s, Running)
      case Ok(running) => Plan(Retry, running, "retrying FAILED work unit")
      case Err(_) => Refused(None)
    else if InFlight(s.status) then Plan(Continue, RecoverInFlight(s), "recovered interrupted execution")
    else Plan(Continue, s, "ephemeral execution state is consistent")
  }

  /** `prepare_execution_state`, with the state it writes back. */
  function PrepareExecutionState(spec: TaskSpec, persist: bool, file: StateFile): (Prepared, seq<Event>) {
    if !persist then (Plan(Continue, NewExecutionState(spec), "ephemeral start from the beginning"), [])
    else
      match file
      case NotRegular => (Refused(Some(STATE_TAMPERED)), [])
      case NoFile =>
        var s := NewExecutionState(spec);
        (Plan(Continue, s, "initialized ephemeral execution state"), [Persisted(s)])
      case Unreadable(code) => (Refused(code), [])
      case Undecodable => (Crashed, [])
      case Stored(s) =>
        var p := PreparePersistedState(spec, s);
        (p, if p.Plan? then [Persisted(p.state)] else [])
  }

  // ---------- Reports, `agent/workunit.py` ----------

  datatype WorkUnitOutcome =
    | UnitFinalVerificationPassed | UnitFailed | UnitEscalated | UnitScopeViolation | UnitInvalidSpec | UnitCompleted

  datatype WorkUnitReport = WorkUnitReport(
    outcome: WorkUnitOutcome,
    branch: string,
    state: State,
    completedTasks: seq<string>,
    repairAttempts: nat,
    finalVerificationPassed: bool,
    validationPassed: bool,
    scopeAllowed: bool,
    message: string,
    failureClass: Option<FailureClass>,
    code: Option<string>,
    currentTask: Option<string>,
    skipReason: Option<string>)

  /** `derived_compat_booleans` */
  function DerivedCompatBooleans(outcome: WorkUnitOutcome): (bool, bool, bool) {
    match outcome
    case UnitFinalVerificationPassed => (true, true, true)
    case UnitScopeViolation => (false, false, false)
    case _ => (false, false, true)
  }

  /** `validate_work_unit_report`; without a spec the task ids are not compared with it. */
  ghost predicate ValidReport(r: WorkUnitReport, spec: Option<TaskSpec>) {
    && r.code != Some("")
    && (r.finalVerificationPassed, r.validationPassed, r.scopeAllowed) == DerivedCompatBooleans(r.outcome)
    && r.completedTasks == r.state.completedTasks
    && r.repairAttempts == r.state.repairAttempts
    && r.branch == r.state.branch
    && Distinct(r.completedTasks)
    && (spec.Some? ==>
          && (forall i :: 0 <= i < |r.completedTasks| ==> r.completedTasks[i] in Ids(spec.value.tasks))
          && (r.outcome == UnitFinalVerificationPassed ==>
                AllCompleted(spec.value.tasks, set x | x in r.completedTasks)))
    && match r.outcome
       case UnitInvalidSpec => true
       case UnitCompleted => true
       case UnitFinalVerificationPassed => r.failureClass.None? && r.code.None?
       case UnitFailed => r.failureClass == Some(EnvironmentFailure)
       case UnitEscalated => r.failureClass in {Some(AgentRepairable), Some(EscalationRequired)}
       case UnitScopeViolation => r.failureClass == Some(EscalationRequired)
  }

  datatype UnitExit = Reported(report: WorkUnitReport) | UnitRaised(error: AgentError)

  /** `_build_work_unit_report`: the report validates itself, then once more against the spec. */
  ghost function BuildReport(
    spec: TaskSpec, outcome: WorkUnitOutcome, s: State, message: string, failureClass: Option<FailureClass>,
    code: Option<string>, currentTask: Option<string>, skipReason: Option<string>, branch: string, checkTasks: bool): UnitExit
  {
    var flags := DerivedCompatBooleans(outcome);
    var r := WorkUnitReport(outcome, branch, s, s.completedTasks, s.repairAttempts, flags.0, flags.1, flags.2,
                            message, failureClass, code, currentTask, skipReason);
    if ValidReport(r, None) && ValidReport(r, if checkTasks then Some(spec) else None) then Reported(r)
    else UnitRaised(InvalidWorkUnitReport)
  }

  /** `work_unit_outcome_from_cycle` */
  function OutcomeFromCycle(outcome: CycleOutcome): Option<WorkUnitOutcome> {
    match outcome
    case FinalVerificationPassed => Some(UnitFinalVerificationPassed)
    case FailedOutcome => Some(UnitFailed)
    case EscalatedOutcome => Some(UnitEscalated)
    case ScopeViolationOutcome => Some(UnitScopeViolation)
    case TaskCompletedOutcome => None
  }

  ghost function ReportFromCycle(spec: TaskSpec, last: CycleResult): UnitExit {
    match OutcomeFromCycle(last.outcome)
    case None => UnitRaised(UnsupportedCycleOutcome)
    case Some(outcome) =>
      BuildReport(spec, outcome, last.state, last.message, last.failureClass, last.code,
                  if last.taskId.Some? then last.taskId else last.state.currentTask, None, spec.targetBranch, true)
  }

  /** The state's own name, read as a report outcome. */
  function OutcomeFromStatus(s: Status): Option<WorkUnitOutcome> {
    match s
    case Failed => Some(UnitFailed)
    case Escalated => Some(UnitEscalated)
    case ScopeViolation => Some(UnitScopeViolation)
    case InvalidSpec => Some(UnitInvalidSpec)
    case Completed => Some(UnitCompleted)
    case _ => None
  }

  ghost function ReportFromReconcile(spec: TaskSpec, s: State, reason: string): UnitExit {
    match OutcomeFromStatus(s.status)
    case None => UnitRaised(InvalidWorkUnitReport)
    case Some(outcome) =>
      var failureClass :=
        match outcome
        case UnitEscalated => Some(EscalationRequired)
        case UnitScopeViolation => Some(EscalationRequired)
        case UnitFailed => Some(EnvironmentFailure)
        case _ => None;
      BuildReport(spec, outcome, s, reason, failureClass, None, s.currentTask, Some(reason), spec.targetBranch, true)
  }

  ghost function ReportFromPreparationError(spec: TaskSpec, s: State, code: Option<string>): UnitExit {
    if code == Some(STATE_TAMPERED) then
      BuildReport(spec, UnitScopeViolation, s, STATE_TAMPERED, Some(EscalationRequired), code, None,
                  Some(STATE_TAMPERED), spec.targetBranch, true)
    else if code == Some("STATE_BRANCH_MISMATCH") || code == Some("UNSAFE_RECONCILE") then
      BuildReport(spec, UnitEscalated, s, "preparation refused", Some(EscalationRequired), code, s.currentTask,
                  Some("preparation refused"), s.branch, false)
    else
      BuildReport(spec, UnitFailed, s, "preparation refused", Some(EnvironmentFailure), code, s.currentTask,
                  Some("preparation refused"), s.branch, false)
  }

  // ---------- The loop ----------

  datatype UnitRun = UnitRun(exit: UnitExit, trace: seq<Event>)

  /** The loop over cycles, with `fuel` iterations left before its `else` branch. */
  ghost function RunCycles(ctx: Context, s: State, fuel: nat, c: nat, n: nat): UnitRun
    requires ctx.spec.tasks != []
    decreases fuel
  {
    if fuel == 0 then UnitRun(UnitRaised(LoopBoundExceeded), [])
    else
      var run := RunTaskCycle(ctx, s, c, n);
      match run.exit
      case Raised(e) => UnitRun(UnitRaised(e), run.trace)
      case Returned(last) =>
        if last.outcome == TaskCompletedOutcome then
          var rest := RunCycles(ctx, last.state, fuel - 1, c + 1, run.turns);
          rest.(trace := run.trace + rest.trace)
        else UnitRun(ReportFromCycle(ctx.spec, last), run.trace)
  }

  /** One start of `run_work_unit` on what the state-file path holds. */
  ghost function Start(ctx: Context, file: StateFile): UnitRun
    requires ctx.spec.tasks != []
  {
    var (prepared, writes) := PrepareExecutionState(ctx.spec, ctx.persist, file);
    match prepared
    case Refused(code) =>
      var s := if code != Some(STATE_TAMPERED) && file.Stored? then file.state else NewExecutionState(ctx.spec);
      UnitRun(ReportFromPreparationError(ctx.spec, s, code), writes)
    case Crashed => UnitRun(UnitRaised(External(UNDECODABLE)), writes)
    case Plan(action, s, reason) =>
      if action == Block then UnitRun(ReportFromReconcile(ctx.spec, s, reason), writes)
      else
        var rest := RunCycles(ctx, s, |ctx.spec.tasks| + 2, 0, 0);
        rest.(trace := writes + rest.trace)
  }

  /** The first event at or after `i` whose state cannot be written, or the end of the trace. */
  function FirstRefused(oracle: Oracle, trace: seq<Event>, i: nat): (k: nat)
    requires i <= |trace|
    ensures i <= k <= |trace|
    decreases |trace| - i
  {
    if i == |trace| || (trace[i].Persisted? && !oracle.writable(i)) then i else FirstRefused(oracle, trace, i + 1)
  }

  /**
   * A start whose writes may be refused: `write_state` raises STATE_TAMPERED when the path holds
   * no regular file. Preparation reports that; after it nothing catches the error.
   */
  ghost function Attempt(ctx: Context, file: StateFile): UnitRun
    requires ctx.spec.tasks != []
  {
    var run := Start(ctx, file);
    var k := FirstRefused(ctx.oracle, run.trace, 0);
    if k == |run.trace| then run
    else if k == 0 then
      UnitRun(ReportFromPreparationError(ctx.spec, NewExecutionState(ctx.spec), Some(STATE_TAMPERED)), [])
    else UnitRun(UnitRaised(External(STATE_TAMPERED)), run.trace[..k])
  }

  /** The loop of `run_work_unit`, as written: `last` and `current` are rebound, the bound ends it. */
  method RunLoop(ctx: Context, initial: State) returns (last: Option<CycleResult>, error: Option<AgentError>, trace: seq<Event>)
    requires ctx.spec.tasks != []
    ensures error.Some? || last.Some?
    ensures
      var run := RunCycles(ctx, initial, |ctx.spec.tasks| + 2, 0, 0);
      trace == run.trace && run.exit == if error.Some? then UnitRaised(error.value) else ReportFromCycle(ctx.spec, last.value)
  {
    hide RunTaskCycle, ReportFromCycle;
    var current, turns := initial, 0;
    last, error, trace := None, None, [];
    var limit := |ctx.spec.tasks| + 2;
    for c := 0 to limit
      invariant error.None?
      invariant
        var run, rest := RunCycles(ctx, initial, limit, 0, 0), RunCycles(ctx, current, limit - c, c, turns);
        run.exit == rest.exit && run.trace == trace + rest.trace
    {
      var run := RunTaskCycle(ctx, current, c, turns);
      ghost var rest := RunCycles(ctx, current, limit - c, c, turns);
      if run.exit.Raised? {
        return None, Some(run.exit.error), trace + run.trace;
      }
      last := Some(run.exit.result);
      if run.exit.result.outcome != TaskCompletedOutcome {
        return last, None, trace + run.trace;
      }
      ghost var next := RunCycles(ctx, run.exit.result.state, limit - c - 1, c + 1, run.turns);
      assert trace + (run.trace + next.trace) == trace + run.trace + next.trace;
      trace := trace + run.trace;
      current, turns := run.exit.result.state, run.turns;
    }
    error := Some(LoopBoundExceeded);
  }
}
