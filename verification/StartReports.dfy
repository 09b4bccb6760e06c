/**
 * What a start reports that does not get as far as a cycle: it is blocked, it is refused, or one of
 * its writes is.
 */
module StartReports {
  import opened Wrappers
  import opened TaskGraph
  import opened ExecutionState
  import opened Cycle
  import opened WorkUnit
  import opened Starts

  /** The report is about `s` as it stands. */
  predicate Shows(r: WorkUnitReport, s: State) {
    && r.state == s && r.completedTasks == s.completedTasks && r.repairAttempts == s.repairAttempts
    && !r.finalVerificationPassed && !r.validationPassed
  }

  /** A blocked unit's report names the status that blocks it. */
  predicate BlockedReport(r: WorkUnitReport, s: State) {
    && Shows(r, s) && r.branch == s.branch && r.currentTask == s.currentTask
    && (r.outcome == UnitEscalated <==> s.status == Escalated)
    && (r.outcome == UnitScopeViolation <==> s.status == ScopeViolation)
    && (r.outcome == UnitInvalidSpec <==> s.status == InvalidSpec)
    && (r.outcome == UnitCompleted <==> s.status == Completed)
    && (r.scopeAllowed <==> s.status != ScopeViolation)
    && r.failureClass == (if s.status in {Escalated, ScopeViolation} then Some(EscalationRequired) else None)
    && r.code.None? && r.skipReason == Some(r.message)
  }

  /** Whatever state is handed to it, the report of a state names that state, or there is none. */
  lemma ReconcileReportIs(spec: TaskSpec, s: State, reason: string)
    ensures
      var exit := ReportFromReconcile(spec, s, reason);
      && (exit.UnitRaised? ==> exit.error == InvalidWorkUnitReport)
      && (exit.Reported? <==>
            && s.status in {Escalated, ScopeViolation, InvalidSpec, Completed, Failed} && s.branch == spec.targetBranch
            && Distinct(s.completedTasks) && forall x :: x in s.completedTasks ==> x in Ids(spec.tasks))
      && (exit.Reported? ==>
            && Shows(exit.report, s) && exit.report.message == reason
            && (exit.report.outcome == UnitFailed <==> s.status == Failed)
            && (s.status == Failed ==> exit.report.failureClass == Some(EnvironmentFailure))
            && (s.status != Failed ==> BlockedReport(exit.report, s)))
  {
  }

  /** A cycle that completed a task ends no unit: there is no report of it. */
  lemma CompletedTaskIsNotReported(spec: TaskSpec, last: CycleResult)
    ensures ReportFromCycle(spec, last) == UnitRaised(UnsupportedCycleOutcome) <==> last.outcome == TaskCompletedOutcome
  {
  }

  /** A refused start's report: tampering leaves the scope, a foreign unit is for people, the rest is the environment's. */
  predicate RefusedReport(r: WorkUnitReport, s: State, code: Option<string>) {
    var tampered := code == Some("STATE_TAMPERED");
    var mixedUp := code in {Some("UNSAFE_RECONCILE"), Some("STATE_BRANCH_MISMATCH")};
    && Shows(r, s) && r.branch == s.branch && r.code == code
    && (r.outcome == UnitScopeViolation <==> tampered) && (r.scopeAllowed <==> !tampered)
    && (r.outcome == UnitEscalated <==> mixedUp)
    && (r.outcome == UnitFailed <==> !tampered && !mixedUp)
    && r.failureClass == Some(if tampered || mixedUp then EscalationRequired else EnvironmentFailure)
    && r.currentTask == (if tampered then None else s.currentTask)
    && r.skipReason == Some(r.message)
  }

  lemma PreparationReportIs(spec: TaskSpec, s: State, code: Option<string>)
    ensures
      var exit := ReportFromPreparationError(spec, s, code);
      exit.Reported? ==> RefusedReport(exit.report, s, code)
  {
  }

  /** The state a start that never got to one shows: nothing done and nothing counted. */
  predicate Untouched(spec: TaskSpec, s: State) {
    && s.taskId == spec.id && s.branch == spec.targetBranch && s.status == Pending
    && s.currentTask.None? && s.completedTasks == [] && s.repairAttempts == 0 && s.reviewAttempts == 0
    && s.lastValidation.None? && s.lastResult.None?
  }

  /**
   * Main theorem: what a start reports without any work. A file that blocks is reported by its own
   * status; one of another unit or branch, one that cannot be read, and a path with no regular file
   * are reported by the code of the refusal, about the stored state if there is one.
   */
  lemma IdleStartReports(ctx: Context, file: StateFile)
    requires WellFormedSpec(ctx.spec) && Readable(file) && ctx.persist
    ensures
      var run, fate := Start(ctx, file), FateOf(ctx.spec, file);
      && (fate.IsBlocked? && run.exit.Reported? ==> BlockedReport(run.exit.report, file.state))
      && (fate.IsRefused? && run.exit.Reported? ==>
            RefusedReport(run.exit.report, RefusedState(ctx.spec, file), RefusedCode(ctx.spec, file)))
      && (!file.Stored? ==> Untouched(ctx.spec, RefusedState(ctx.spec, file)))
  {
    hide RunCycles, PreparePersistedState, SchemaValid, WellFormedSpec, BlockedReport, RefusedReport,
         ReportFromReconcile, ReportFromPreparationError;
    if file.Stored? {
      PreparationIsExact(ctx.spec, file.state);
      var p := PreparePersistedState(ctx.spec, file.state);
      if p.Plan? { ReconcileReportIs(ctx.spec, file.state, p.reason); }
    }
    PreparationReportIs(ctx.spec, RefusedState(ctx.spec, file), RefusedCode(ctx.spec, file));
  }

  /**
   * A start whose writes may be refused. If none is, nothing changes. Otherwise it stops at the
   * first that is: every state in the trace was written; where that was preparation's own write,
   * the start reports a scope violation about an untouched state, and later it raises STATE_TAMPERED.
   */
  lemma AttemptIs(ctx: Context, file: StateFile)
    requires WellFormedSpec(ctx.spec)
    ensures
      var run, all := Attempt(ctx, file), Start(ctx, file);
      var k := |run.trace|;
      && run.trace <= all.trace
      && (forall i :: 0 <= i < k && run.trace[i].Persisted? ==> ctx.oracle.writable(i))
      && ((forall i :: 0 <= i < |all.trace| && all.trace[i].Persisted? ==> ctx.oracle.writable(i)) <==> k == |all.trace|)
      && (k == |all.trace| ==> run == all)
      && (k < |all.trace| ==>
            && all.trace[k].Persisted? && !ctx.oracle.writable(k)
            && (k > 0 ==> run.exit == UnitRaised(External(STATE_TAMPERED)))
            && (k == 0 ==>
                  && run.exit.Reported? && RefusedReport(run.exit.report, run.exit.report.state, Some(STATE_TAMPERED))
                  && Untouched(ctx.spec, run.exit.report.state)))
  {
    hide Start;
    RefusedIsFirst(ctx.oracle, Start(ctx, file).trace, 0);
  }

  lemma {:induction false} RefusedIsFirst(oracle: Oracle, trace: seq<Event>, i: nat)
    requires i <= |trace|
    ensures
      var k := FirstRefused(oracle, trace, i);
      && (forall j :: i <= j < k && trace[j].Persisted? ==> oracle.writable(j))
      && (k < |trace| ==> trace[k].Persisted? && !oracle.writable(k))
    decreases |trace| - i
  {
    if i < |trace| && (!trace[i].Persisted? || oracle.writable(i)) { RefusedIsFirst(oracle, trace, i + 1); }
  }

  /** Preparation's own write is the first event, and without one nothing is written at all. */
  lemma FirstWriteIsPreparations(ctx: Context, file: StateFile)
    requires WellFormedSpec(ctx.spec) && Readable(file) && ctx.persist
    ensures
      var run, fate := Start(ctx, file), FateOf(ctx.spec, file);
      && (run.trace == [] <==> fate.IsRefused? || fate.Crashes?)
      && (run.trace != [] ==> run.trace[0] == Persisted(if fate.IsBlocked? then file.state else StartState(ctx.spec, file)))
      && (file.NoFile? ==> Untouched(ctx.spec, StartState(ctx.spec, file)))
  {
    hide RunCycles, PreparePersistedState, SchemaValid, WellFormedSpec;
    if file.Stored? { PreparationIsExact(ctx.spec, file.state); }
  }

  /**
   * The validator leaves no choice: an outcome and a state fix the flags, the tasks, the count and the
   * branch of a report it accepts, and the outcome fixes whose failure it is.
   */
  lemma ValidReportsAgree(r: WorkUnitReport, q: WorkUnitReport)
    requires ValidReport(r, None) && ValidReport(q, None) && r.outcome == q.outcome && r.state == q.state
    ensures r.finalVerificationPassed == q.finalVerificationPassed && r.validationPassed == q.validationPassed
    ensures r.scopeAllowed == q.scopeAllowed && r.completedTasks == q.completedTasks
    ensures r.repairAttempts == q.repairAttempts && r.branch == q.branch
    ensures r.outcome == UnitFinalVerificationPassed ==> r.failureClass.None? && r.code.None?
    ensures r.outcome == UnitFailed <==> r.failureClass == Some(EnvironmentFailure) && r.outcome !in {UnitInvalidSpec, UnitCompleted}
    ensures r.outcome in {UnitEscalated, UnitScopeViolation} ==> r.failureClass.Some? && r.failureClass != Some(EnvironmentFailure)
    ensures r.outcome == UnitScopeViolation ==> r.failureClass == Some(EscalationRequired)
  {
  }
}
