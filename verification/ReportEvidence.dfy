/**
 * What a work unit's report means. A flat loop over the evidence of a run, one cycle after the
 * other, finds what ended it; the reports of whole starts say exactly that, for every oracle.
 */
module ReportEvidence {
  import opened Wrappers
  import opened TaskGraph
  import opened ExecutionState
  import opened Select
  import opened Cycle
  import opened Durability
  import opened TurnEvidence
  import opened WorkUnit
  import opened AnyStart
  import opened Starts

  // ---------- The evidence that ends a run ----------

  datatype Verdict =
    | NoVerdict                                    // something raised, or the tree was dirty
    | FoundTampered                                // a cycle found no regular state file
    | Verified(records: Records)                   // final verification ran
    | Ended(turn: nat, ending: Ending)             // a turn ended it

  /** The flat loop over cycles: `left` tasks to do, `done` completed, `used` repairs so far. */
  function Decide(ctx: Context, left: nat, done: nat, used: nat, c: nat, n: nat): Verdict
    decreases left
  {
    match ctx.oracle.start(c)
    case StartRaised(_) => NoVerdict
    case Started(stateFile, dirty) =>
      if !RegularOrAbsent(stateFile) then FoundTampered
      else if left == 0 then
        match ctx.oracle.finalRun(c)
        case ValidationRaised(_) => NoVerdict
        case ValidationRan(records) => Verified(records)
      else if ctx.requireCleanWorktree && done == 0 && dirty then NoVerdict
      else
        var e := Drive(ctx.oracle, ctx.spec.repairAttemptLimit, used, 0, n);
        match e.outcome
        case None => NoVerdict
        case Some(outcome) =>
          if outcome == TaskCompletedOutcome then Decide(ctx, left - 1, done + 1, e.repairs, c + 1, e.next)
          else Ended(e.next - 1, e)
  }

  /** The first command that failed, if any, failed for the environment. */
  predicate FailedForEnvironment(records: Records) {
    !AllPassed(records) && records[|records| - 1].failureClass == EnvironmentFailure
  }

  predicate Passed(v: Verdict) {
    v.Verified? && AllPassed(v.records)
  }

  /** The state file was tampered with, or the last turn was out of scope. */
  predicate LeftScope(oracle: Oracle, v: Verdict) {
    v.FoundTampered? || (v.Ended? && Judge(oracle.turn(v.turn)) in {Tampered, OutOfScope})
  }

  /** The environment failed final verification, Codex, its stream, or validation. */
  predicate EnvironmentEnded(oracle: Oracle, v: Verdict) {
    || (v.Verified? && FailedForEnvironment(v.records))
    || (v.Ended? && Judge(oracle.turn(v.turn)) in {CodexFailed(EnvironmentFailure), Rejected(EnvironmentFailure), Dropped})
  }

  /** Something people must look at: any other failure. */
  predicate PeopleNeeded(oracle: Oracle, v: Verdict) {
    || (v.Verified? && !AllPassed(v.records) && !FailedForEnvironment(v.records))
    || (v.Ended? && Judge(oracle.turn(v.turn)) in {CodexFailed(AgentRepairable), CodexFailed(EscalationRequired),
                                                   Rejected(AgentRepairable), Rejected(EscalationRequired)})
  }

  /** What a report says of the evidence that ended its run. */
  predicate Means(oracle: Oracle, v: Verdict, r: WorkUnitReport) {
    && (r.outcome == UnitFinalVerificationPassed <==> Passed(v))
    && (r.finalVerificationPassed <==> Passed(v)) && (r.validationPassed <==> Passed(v))
    && (r.outcome == UnitScopeViolation <==> LeftScope(oracle, v)) && (!r.scopeAllowed <==> LeftScope(oracle, v))
    && (r.outcome == UnitFailed <==> EnvironmentEnded(oracle, v))
    && (r.outcome == UnitEscalated <==> PeopleNeeded(oracle, v))
    && (r.code == Some(STATE_TAMPERED) <==> v.FoundTampered? || (v.Ended? && Judge(oracle.turn(v.turn)) == Tampered))
    && r.completedTasks == r.state.completedTasks
    && (v.Ended? ==> r.repairAttempts == v.ending.repairs)
    && (!v.FoundTampered? ==> r.currentTask == r.state.currentTask) && (v.FoundTampered? ==> r.currentTask.Some?)
  }

  /** Nothing but writes follows a final verification run. */
  ghost predicate EndsVerifying(trace: seq<Event>) {
    exists i :: 0 <= i < |trace| && trace[i] == FinalVerificationRun && forall j :: i < j < |trace| ==> trace[j].Persisted?
  }

  /** How a run from `s` concludes, given what ended it. */
  ghost predicate Concludes(ctx: Context, s: State, v: Verdict, run: UnitRun) {
    && (v.NoVerdict? ==> run.exit.UnitRaised? && run.exit.error.External?)
    && (!v.NoVerdict? ==>
          && (run.exit.Reported? <==> Distinct(s.completedTasks))
          && (run.exit.UnitRaised? ==> run.exit.error == InvalidWorkUnitReport)
          && (run.exit.Reported? ==> Means(ctx.oracle, v, run.exit.report))
          && (FinalVerificationRun in run.trace <==> v.Verified?)
          && (v.Verified? ==> EndsVerifying(run.trace)))
  }

  // ---------- One cycle ----------

  /** What a cycle's result says of the evidence that ended it. */
  predicate Says(oracle: Oracle, v: Verdict, r: CycleResult) {
    && (r.outcome == FinalVerificationPassed <==> Passed(v))
    && (r.outcome == ScopeViolationOutcome <==> LeftScope(oracle, v))
    && (r.outcome == FailedOutcome <==> EnvironmentEnded(oracle, v))
    && (r.outcome == EscalatedOutcome <==> PeopleNeeded(oracle, v))
    && r.outcome != TaskCompletedOutcome
    && (r.code == Some(STATE_TAMPERED) <==> v.FoundTampered? || (v.Ended? && Judge(oracle.turn(v.turn)) == Tampered))
    && (v.Ended? ==> r.state.repairAttempts == v.ending.repairs && r.taskId == r.state.currentTask && r.taskId.Some?)
    && (v.Verified? ==> r.taskId.None?) && (v.FoundTampered? ==> r.taskId.Some?)
  }

  /** A result that says so becomes a report that means so, unless it repeats a completed task. */
  lemma SaidIsMeant(oracle: Oracle, spec: TaskSpec, s: State, v: Verdict, last: CycleResult)
    requires OfUnit(spec, s) && ValidCycleResult(last) && OfUnit(spec, last.state) && KnownTasks(spec, s)
    requires last.state.completedTasks == s.completedTasks && (last.outcome == FinalVerificationPassed ==> NothingLeft(spec, s))
    requires Says(oracle, v, last) && !v.NoVerdict?
    ensures
      var exit := ReportFromCycle(spec, last);
      && (exit.Reported? <==> Distinct(s.completedTasks))
      && (exit.UnitRaised? ==> exit.error == InvalidWorkUnitReport)
      && (exit.Reported? ==> Means(oracle, v, exit.report))
  {
    hide KnownTasks, NothingLeft, SchemaValid, Judge, AllPassed, LeftScope, EnvironmentEnded, PeopleNeeded, Passed;
    ReportIff(spec, s, last);
  }

  /** What final verification says; it leaves the completed tasks alone. */
  lemma VerificationSays(ctx: Context, s: State, c: nat, n: nat)
    requires OfUnit(ctx.spec, s) && s.status in {TaskCompleted, FinalValidating}
    ensures
      var run, final := FinalVerifyIfReady(ctx, s, c, n), ctx.oracle.finalRun(c);
      && (run.exit.Raised? <==> final.ValidationRaised?) && (run.exit.Raised? ==> run.exit.error.External?)
      && (run.exit.Returned? ==>
            && ValidCycleResult(run.exit.result) && OfUnit(ctx.spec, run.exit.result.state)
            && run.exit.result.state.completedTasks == s.completedTasks
            && Says(ctx.oracle, Verified(final.records), run.exit.result)
            && FinalVerificationRun in run.trace && EndsVerifying(run.trace))
  {
    hide AllPassed, FailedRecord, Judge, EndsVerifying;
    var final := ctx.oracle.finalRun(c);
    var t := s.(status := FinalValidating);
    assert s.status == TaskCompleted ==> ApplyTransition(s, FinalValidating) == Ok(t);
    VerifySays(ctx, t, c, n);
    VerifyingTrace(ctx, s, c, n);
  }

  lemma VerifySays(ctx: Context, s: State, c: nat, n: nat)
    requires OfUnit(ctx.spec, s) && s.status == FinalValidating
    ensures
      var run, final := FinalVerify(ctx, s, c, n), ctx.oracle.finalRun(c);
      && (run.exit.Raised? <==> final.ValidationRaised?) && (run.exit.Raised? ==> run.exit.error.External?)
      && (run.exit.Returned? ==>
            && ValidCycleResult(run.exit.result) && OfUnit(ctx.spec, run.exit.result.state)
            && run.exit.result.state.completedTasks == s.completedTasks
            && Says(ctx.oracle, Verified(final.records), run.exit.result))
  {
    hide AllPassed, FailedRecord, Judge;
    var final := ctx.oracle.finalRun(c);
    if final.ValidationRan? {
      AcceptedIffNoFailedRecord(final.records);
      assert "final verification failed"[0] != REPAIR_LIMIT_MESSAGE[0];
    }
  }

  lemma VerifyingTrace(ctx: Context, s: State, c: nat, n: nat)
    requires s.status in {TaskCompleted, FinalValidating}
    ensures
      var run := FinalVerifyIfReady(ctx, s, c, n);
      run.exit.Returned? ==> FinalVerificationRun in run.trace && EndsVerifying(run.trace)
  {
    var run := FinalVerifyIfReady(ctx, s, c, n);
    var i := if s.status == TaskCompleted && ctx.persist then 1 else 0;
    if run.exit.Returned? {
      assert run.trace[i] == FinalVerificationRun;
      assert forall j :: i < j < |run.trace| ==> run.trace[j].Persisted?;
    }
  }

  /** What a turn that ends a cycle says. */
  lemma TurnSays(ctx: Context, task: SpecTask, s: State, n: nat)
    requires Turning(ctx.spec, task, s) && s.status == Implementing
    ensures
      var run := InvokeCodexTurn(ctx, task, s, 0, n);
      var e := Drive(ctx.oracle, ctx.spec.repairAttemptLimit, s.repairAttempts, 0, n);
      && Agrees(ctx.spec, task, s, run, e)
      && (run.exit.Returned? ==> run.exit.result.outcome != FinalVerificationPassed)
      && (run.exit.Returned? && run.exit.result.outcome != TaskCompletedOutcome ==>
            Says(ctx.oracle, Ended(e.next - 1, e), run.exit.result))
  {
    hide Judge, InvokeCodexTurn, Drive, Turning, AllPassed;
    TurnsFollowEvidence(ctx, task, s, 0, n);
    CompletionNeedsAcceptedTurn(ctx.oracle, ctx.spec.repairAttemptLimit, s.repairAttempts, 0, n);
  }

  // ---------- The loop ----------

  /** Something is selected exactly while tasks are missing. */
  lemma NothingMissing(spec: TaskSpec, s: State)
    requires KnownTasks(spec, s)
    ensures NothingLeft(spec, s) <==> |Missing(spec, s)| == 0
  {
    if NothingLeft(spec, s) {
      assert Missing(spec, s) == {};
    }
    if |Missing(spec, s)| == 0 {
      assert forall t :: t in spec.tasks ==> t.id in Missing(spec, s) || t.id in s.completedTasks;
      assert forall k :: 0 <= k < |spec.tasks| ==> spec.tasks[k] in spec.tasks && Ids(spec.tasks)[k] == spec.tasks[k].id;
    }
  }

  function VerdictFrom(ctx: Context, s: State, missing: nat, c: nat, n: nat): Verdict {
    Decide(ctx, missing, |s.completedTasks|, s.repairAttempts, c, n)
  }

  /**
   * The loop over cycles ends for exactly the evidence that the flat loop finds, and its report
   * means it. Nothing is asked of the order or the counters of the state it starts from.
   */
  lemma {:induction false} LoopFollowsEvidence(ctx: Context, s: State, fuel: nat, c: nat, n: nat)
    requires WellFormedSpec(ctx.spec) && OfUnit(ctx.spec, s) && Resumable(s.status) && StartError(ctx.spec, s).None?
    requires fuel > |Missing(ctx.spec, s)|
    ensures Concludes(ctx, s, VerdictFrom(ctx, s, |Missing(ctx.spec, s)|, c, n), RunCycles(ctx, s, fuel, c, n))
    decreases fuel
  {
    hide SelectNextTask, InvokeCodexTurn, FinalVerifyIfReady, EnterImplementing, KnownTasks, CurrentWaits, NothingLeft, Missing,
         Turning, OfUnit, ReportFromCycle, Says, Means, Agrees, Drive, EndsVerifying, ValidCycleResult, Judge, StateTamperedResult;
    var start := ctx.oracle.start(c);
    StartsWell(ctx.spec, s);
    SelectIs(ctx.spec, s);
    NothingMissing(ctx.spec, s);
    var selected := SelectNextTask(ctx.spec, s).value;
    if start.Started? && !RegularOrAbsent(start.stateFile) {
      TamperedSays(ctx, s, if selected.Some? then selected.value else ctx.spec.tasks[0], n);
    } else if start.Started? && selected.None? {
      VerifyingConcludes(ctx, s, fuel, c, n);
    } else if start.Started? && !(ctx.requireCleanWorktree && s.completedTasks == [] && start.dirty) {
      TaskConcludes(ctx, s, fuel, c, n, selected.value);
    }
  }

  lemma StartsWell(spec: TaskSpec, s: State)
    requires StartError(spec, s).None?
    ensures KnownTasks(spec, s) && !CurrentWaits(spec, s)
    ensures s.status in if NothingLeft(spec, s) then {TaskCompleted, FinalValidating} else {Pending, Running, TaskCompleted}
  {
  }

  lemma TamperedSays(ctx: Context, s: State, task: SpecTask, n: nat)
    requires OfUnit(ctx.spec, s) && KnownTasks(ctx.spec, s)
    ensures
      var run := StateTamperedResult(task, s, n);
      && run.trace == [] && run.exit.Returned? && run.exit.result.outcome != TaskCompletedOutcome
      && ReportMeans(ctx, s, FoundTampered, run.exit.result)
  {
    hide KnownTasks, SchemaValid;
    SaidIsMeant(ctx.oracle, ctx.spec, s, FoundTampered, StateTamperedResult(task, s, n).exit.result);
  }

  /** The report built from a result means the verdict. */
  ghost predicate ReportMeans(ctx: Context, s: State, v: Verdict, last: CycleResult) {
    var exit := ReportFromCycle(ctx.spec, last);
    && (exit.Reported? <==> Distinct(s.completedTasks))
    && (exit.UnitRaised? ==> exit.error == InvalidWorkUnitReport)
    && (exit.Reported? ==> Means(ctx.oracle, v, exit.report))
  }

  lemma VerifyingConcludes(ctx: Context, s: State, fuel: nat, c: nat, n: nat)
    requires ctx.spec.tasks != [] && OfUnit(ctx.spec, s) && KnownTasks(ctx.spec, s) && NothingLeft(ctx.spec, s) && fuel > 0
    requires s.status in {TaskCompleted, FinalValidating} && SelectNextTask(ctx.spec, s) == Ok(None)
    requires ctx.oracle.start(c).Started? && RegularOrAbsent(ctx.oracle.start(c).stateFile)
    ensures Concludes(ctx, s, VerdictFrom(ctx, s, 0, c, n), RunCycles(ctx, s, fuel, c, n))
  {
    hide SelectNextTask, FinalVerifyIfReady, KnownTasks, NothingLeft, OfUnit, ReportFromCycle, Says, Means, EndsVerifying, ValidCycleResult;
    VerificationSays(ctx, s, c, n);
    var run := FinalVerifyIfReady(ctx, s, c, n);
    if run.exit.Returned? {
      var v := Verified(ctx.oracle.finalRun(c).records);
      VerifiedIsNoCompletion(ctx.oracle, v, run.exit.result);
      SaidIsMeant(ctx.oracle, ctx.spec, s, v, run.exit.result);
    }
  }

  lemma VerifiedIsNoCompletion(oracle: Oracle, v: Verdict, r: CycleResult)
    requires Says(oracle, v, r)
    ensures r.outcome != TaskCompletedOutcome
  {
  }

  /** A cycle that gets to its task: it enters the task, writes that, and turns to Codex. */
  lemma CycleIs(ctx: Context, s: State, c: nat, n: nat, task: SpecTask)
    requires ctx.spec.tasks != [] && SelectNextTask(ctx.spec, s) == Ok(Some(task)) && EnterImplementing(s, task).Ok?
    requires ctx.oracle.start(c).Started? && RegularOrAbsent(ctx.oracle.start(c).stateFile)
    requires !(ctx.requireCleanWorktree && s.completedTasks == [] && ctx.oracle.start(c).dirty)
    ensures
      var t := EnterImplementing(s, task).value;
      var turns := InvokeCodexTurn(ctx, task, t, 0, n);
      var run := RunTaskCycle(ctx, s, c, n);
      run == After(Persist(ctx, t), turns) && (FinalVerificationRun in run.trace <==> FinalVerificationRun in turns.trace)
  {
    hide SelectNextTask, InvokeCodexTurn, EnterImplementing;
  }

  /** A cycle that works on a task: its turns decide how it goes on. */
  lemma CycleFollowsEvidence(ctx: Context, s: State, c: nat, n: nat, task: SpecTask)
    requires WellFormedSpec(ctx.spec) && OfUnit(ctx.spec, s) && Resumable(s.status) && StartError(ctx.spec, s).None?
    requires |Missing(ctx.spec, s)| > 0
    requires SelectNextTask(ctx.spec, s) == Ok(Some(task)) && ctx.oracle.start(c).Started?
    requires RegularOrAbsent(ctx.oracle.start(c).stateFile)
    requires !(ctx.requireCleanWorktree && s.completedTasks == [] && ctx.oracle.start(c).dirty)
    ensures WorksOn(ctx, s, RunTaskCycle(ctx, s, c, n), Drive(ctx.oracle, ctx.spec.repairAttemptLimit, s.repairAttempts, 0, n))
  {
    hide SelectNextTask, InvokeCodexTurn, EnterImplementing, KnownTasks, CurrentWaits, NothingLeft, Missing, Resumable, LeftBy,
         Turning, OfUnit, ReportMeans, RunTaskCycle, StartError, Says, Drive, ValidCycleResult, Judge, Follows, IsRepair, IsCompletion;
    StartsWell(ctx.spec, s);
    SelectIs(ctx.spec, s);
    NothingMissing(ctx.spec, s);
    var k :| 0 <= k < |ctx.spec.tasks| && ctx.spec.tasks[k] == task;
    assert Ids(ctx.spec.tasks)[k] == task.id;
    EnterFrom(ctx.spec, s, task);
    var t := EnterImplementing(s, task).value;
    SameCounters(s, task);
    TurnSays(ctx, task, t, n);
    var turns := InvokeCodexTurn(ctx, task, t, 0, n);
    TurnTrace(ctx, task, t, 0, n);
    CycleIs(ctx, s, c, n, task);
    if turns.exit.Returned? {
      var last := turns.exit.result;
      if last.outcome == TaskCompletedOutcome {
        CompletedLeaves(ctx.spec, s, last.state);
      } else {
        var e := Drive(ctx.oracle, ctx.spec.repairAttemptLimit, s.repairAttempts, 0, n);
        EndedMeans(ctx, s, Ended(e.next - 1, e), last);
      }
    }
  }

  /** What a cycle on a task does, given how the loop over its turns ends. */
  ghost predicate WorksOn(ctx: Context, s: State, run: Run, e: Ending) {
    && run.turns == e.next && FinalVerificationRun !in run.trace
    && (run.exit.Raised? <==> e.outcome.None?) && (run.exit.Raised? ==> run.exit.error.External?)
    && (run.exit.Returned? ==>
          var last := run.exit.result;
          && e.outcome == Some(last.outcome)
          && (last.outcome == TaskCompletedOutcome ==> LeftBy(ctx.spec, s, last.state) && last.state.repairAttempts == e.repairs)
          && (last.outcome != TaskCompletedOutcome ==> e.next > 0 && ReportMeans(ctx, s, Ended(e.next - 1, e), last)))
  }

  /** A completed cycle leaves a state to go on from, with one task less to do. */
  ghost predicate LeftBy(spec: TaskSpec, s: State, t: State) {
    && OfUnit(spec, t) && Resumable(t.status) && StartError(spec, t).None?
    && |Missing(spec, t)| == |Missing(spec, s)| - 1
    && |t.completedTasks| == |s.completedTasks| + 1
    && (Distinct(t.completedTasks) <==> Distinct(s.completedTasks))
  }

  lemma {:induction false} TaskConcludes(ctx: Context, s: State, fuel: nat, c: nat, n: nat, task: SpecTask)
    requires WellFormedSpec(ctx.spec) && OfUnit(ctx.spec, s) && Resumable(s.status) && StartError(ctx.spec, s).None?
    requires fuel > |Missing(ctx.spec, s)| > 0
    requires SelectNextTask(ctx.spec, s) == Ok(Some(task)) && ctx.oracle.start(c).Started?
    requires RegularOrAbsent(ctx.oracle.start(c).stateFile)
    requires !(ctx.requireCleanWorktree && s.completedTasks == [] && ctx.oracle.start(c).dirty)
    ensures Concludes(ctx, s, VerdictFrom(ctx, s, |Missing(ctx.spec, s)|, c, n), RunCycles(ctx, s, fuel, c, n))
    decreases fuel, 0
  {
    hide SelectNextTask, Missing, OfUnit, Resumable, ReportFromCycle, RunTaskCycle, StartError, Means, Drive, EndsVerifying;
    CycleFollowsEvidence(ctx, s, c, n, task);
    var run := RunTaskCycle(ctx, s, c, n);
    if run.exit.Returned? && run.exit.result.outcome == TaskCompletedOutcome {
      var t := run.exit.result.state;
      LoopFollowsEvidence(ctx, t, fuel - 1, c + 1, run.turns);
      TraceOfBoth(run.trace, RunCycles(ctx, t, fuel - 1, c + 1, run.turns).trace);
    }
  }

  lemma CompletedLeaves(spec: TaskSpec, s: State, t: State)
    requires KnownTasks(spec, s) && OfUnit(spec, t) && t.status == TaskCompleted && t.currentTask.Some?
    requires t.currentTask.value in Ids(spec.tasks) && t.currentTask.value !in s.completedTasks
    requires t.completedTasks == s.completedTasks + [t.currentTask.value]
    ensures LeftBy(spec, s, t)
  {
    hide KnownTasks, StartError, Missing, OfUnit;
    NextCycle(spec, s, t);
    OneLess(spec, s, t);
  }

  lemma EndedMeans(ctx: Context, s: State, v: Verdict, last: CycleResult)
    requires OfUnit(ctx.spec, s) && ValidCycleResult(last) && OfUnit(ctx.spec, last.state) && KnownTasks(ctx.spec, s)
    requires last.state.completedTasks == s.completedTasks && last.outcome != FinalVerificationPassed
    requires Says(ctx.oracle, v, last) && !v.NoVerdict?
    ensures ReportMeans(ctx, s, v, last)
  {
    hide OfUnit, ValidCycleResult, KnownTasks, Says, Means, ReportFromCycle;
    SaidIsMeant(ctx.oracle, ctx.spec, s, v, last);
  }

  lemma SameCounters(s: State, task: SpecTask)
    requires EnterImplementing(s, task).Ok?
    ensures EnterImplementing(s, task).value.repairAttempts == s.repairAttempts
  {
  }

  lemma OneLess(spec: TaskSpec, s: State, t: State)
    requires t.currentTask.Some? && Missing(spec, t) == Missing(spec, s) - {t.currentTask.value}
    requires t.currentTask.value in Missing(spec, s)
    ensures |Missing(spec, t)| == |Missing(spec, s)| - 1
  {
    hide Missing;
  }

  /** No turn runs final verification. */
  lemma {:induction false} TurnTrace(ctx: Context, task: SpecTask, s: State, retries: nat, n: nat)
    requires retries <= TRANSPORT_RETRY_MAX
    ensures FinalVerificationRun !in InvokeCodexTurn(ctx, task, s, retries, n).trace
    decreases RemainingRepairs(ctx.spec.repairAttemptLimit, s.repairAttempts), TRANSPORT_RETRY_MAX - retries, 2
  {
    hide AfterCodex, StateTamperedResult;
    assert StateTamperedResult(task, s, n + 1).trace == [] by { TamperedTrace(task, s, n + 1); }
    var turn := ctx.oracle.turn(n);
    if turn.codex.CodexExited? { ScopedTrace(ctx, task, s, retries, n); }
  }

  lemma TamperedTrace(task: SpecTask, s: State, n: nat)
    ensures StateTamperedResult(task, s, n).trace == []
  {
  }

  lemma {:induction false} ScopedTrace(ctx: Context, task: SpecTask, s: State, retries: nat, n: nat)
    requires retries <= TRANSPORT_RETRY_MAX && ctx.oracle.turn(n).codex.CodexExited?
    ensures FinalVerificationRun !in AfterCodex(ctx, task, s, retries, n).trace
    decreases RemainingRepairs(ctx.spec.repairAttemptLimit, s.repairAttempts), TRANSPORT_RETRY_MAX - retries, 1
  {
    hide InvokeCodexTurn, ValidateAndMaybeRepair, StateTamperedResult, ApplyTransition;
    TamperedTrace(task, s, n + 1);
    var turn := ctx.oracle.turn(n);
    if turn.scope.ScopeAllowed? {
      if turn.codex.exitCode != 0 {
        if turn.codex.transportError && retries < TRANSPORT_RETRY_MAX { TurnTrace(ctx, task, s, retries + 1, n + 1); }
      } else {
        var moved := ApplyTransition(s, Validating, currentTask := To(Some(task.id)));
        if moved.Ok? {
          SameRepairs(s, moved.value, task.id);
          ValidatingTrace(ctx, task, moved.value, n);
        }
      }
    }
  }

  lemma SameRepairs(s: State, t: State, task: string)
    requires ApplyTransition(s, Validating, currentTask := To(Some(task))) == Ok(t)
    ensures t.repairAttempts == s.repairAttempts
  {
  }

  lemma {:induction false} ValidatingTrace(ctx: Context, task: SpecTask, s: State, n: nat)
    ensures FinalVerificationRun !in ValidateAndMaybeRepair(ctx, task, s, n).trace
    decreases RemainingRepairs(ctx.spec.repairAttemptLimit, s.repairAttempts), 0, 0
  {
    hide InvokeCodexTurn, ApplyTransition;
    var validation := ctx.oracle.turn(n).validation;
    if validation.ValidationRan? && FailedRecord(validation.records).Some? && CanAttemptRepair(ctx.spec.repairAttemptLimit, s.repairAttempts) {
      var failed := FailedRecord(validation.records).value;
      var moved := ApplyTransition(s, Implementing, currentTask := To(Some(task.id)),
        repairAttempts := To(s.repairAttempts + 1),
        lastValidation := To(Some(failed.command)), lastResult := To(Some(FailedResult)));
      if moved.Ok? {
        OneMore(s, moved.value, task.id, failed.command);
        TurnTrace(ctx, task, moved.value, 0, n + 1);
      }
    }
  }

  lemma OneMore(s: State, t: State, task: string, command: string)
    requires ApplyTransition(s, Implementing, currentTask := To(Some(task)), repairAttempts := To(s.repairAttempts + 1),
               lastValidation := To(Some(command)), lastResult := To(Some(FailedResult))) == Ok(t)
    ensures t.repairAttempts == s.repairAttempts + 1
  {
  }

  lemma TraceOfBoth(a: seq<Event>, b: seq<Event>)
    requires FinalVerificationRun !in a
    ensures FinalVerificationRun in a + b <==> FinalVerificationRun in b
    ensures EndsVerifying(b) ==> EndsVerifying(a + b)
  {
    if EndsVerifying(b) {
      var i :| 0 <= i < |b| && b[i] == FinalVerificationRun && forall j :: i < j < |b| ==> b[j].Persisted?;
      assert (a + b)[|a| + i] == FinalVerificationRun;
      forall j | |a| + i < j < |a + b| ensures (a + b)[j].Persisted? { assert (a + b)[j] == b[j - |a|]; }
    }
  }

  // ---------- Whole starts ----------

  /**
   * Main theorem: from any readable file that works, whoever wrote it, the start raises a foreign
   * error if the flat loop finds no verdict; otherwise it reports, unless the file repeats a
   * completed task, and the report means what ended the run: passed exactly if final verification
   * ran and every command passed, and the trace ends with it; out of scope exactly if something
   * was tampered with or the last turn left the scope; failed exactly if the environment ended
   * it; escalated exactly if anything else did.
   */
  lemma StartFollowsEvidence(ctx: Context, file: StateFile)
    requires WellFormedSpec(ctx.spec) && Readable(file) && ctx.persist && FateOf(ctx.spec, file).Works?
    ensures
      var s := StartState(ctx.spec, file);
      Concludes(ctx, s, VerdictFrom(ctx, s, |Missing(ctx.spec, s)|, 0, 0), Start(ctx, file))
  {
    hide RunCycles, StartError, Missing, Means, Decide, OfUnit, EndsVerifying;
    var s := StartState(ctx.spec, file);
    StartProceeds(ctx, file);
    BoundSuffices(ctx.spec, s);
    LoopFollowsEvidence(ctx, s, |ctx.spec.tasks| + 2, 0, 0);
    TraceOfBoth([Persisted(s)], RunCycles(ctx, s, |ctx.spec.tasks| + 2, 0, 0).trace);
  }

  /** The same for a unit whose states are not persisted, which always starts afresh. */
  lemma EphemeralFollowsEvidence(ctx: Context, file: StateFile)
    requires WellFormedSpec(ctx.spec) && !ctx.persist
    ensures
      var s := NewExecutionState(ctx.spec);
      Concludes(ctx, s, VerdictFrom(ctx, s, |Missing(ctx.spec, s)|, 0, 0), Start(ctx, file))
  {
    hide RunCycles, StartError, Missing, Means, Decide, OfUnit, EndsVerifying;
    var s := NewExecutionState(ctx.spec);
    FreshStart(ctx.spec);
    BoundSuffices(ctx.spec, s);
    LoopFollowsEvidence(ctx, s, |ctx.spec.tasks| + 2, 0, 0);
    TraceOfBoth([], RunCycles(ctx, s, |ctx.spec.tasks| + 2, 0, 0).trace);
  }
}
