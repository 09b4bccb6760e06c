/** Safety, progress and budgets of whole work-unit runs, for every oracle and every crash. */
module WorkUnitProofs {
  import opened Wrappers
  import opened TaskGraph
  import opened ExecutionState
  import opened Select
  import opened Cycle
  import opened CycleProofs
  import opened WorkUnit

  /** A state from which the loop starts a cycle. */
  ghost predicate Checkpoint(spec: TaskSpec, s: State) {
    StateInv(spec, s) && s.status in {Pending, Running, TaskCompleted, FinalValidating}
  }

  predicate AllDone(spec: TaskSpec, s: State) {
    AllCompleted(spec.tasks, Done(s))
  }

  /** The one checkpoint no cycle can leave: nothing to select, but not TASK_COMPLETED. */
  predicate Stuck(spec: TaskSpec, s: State) {
    s.status == Running && AllDone(spec, s)
  }

  // ---------- Counting completed tasks ----------

  lemma {:induction false} DistinctSize(s: seq<string>, u: set<string>)
    requires Distinct(s) && forall i :: 0 <= i < |s| ==> s[i] in u
    ensures |s| <= |u|
    ensures |s| == |u| ==> forall x :: x in u ==> x in s
  {
    if s != [] {
      var n := |s| - 1;
      DistinctSize(s[..n], u - {s[n]});
      assert forall x :: x in s[..n] ==> x in s;
    }
  }

  lemma {:induction false} ElementsSize(s: seq<string>)
    ensures |set x | x in s| <= |s|
  {
    if s != [] {
      var n := |s| - 1;
      ElementsSize(s[..n]);
      assert (set x | x in s) == (set x | x in s[..n]) + {s[n]};
    }
  }

  /** A linear extension is no longer than the task list, and as long only when it is complete. */
  lemma CompletedCount(spec: TaskSpec, completed: seq<string>)
    requires LinearExtension(spec, completed)
    ensures |completed| <= |spec.tasks|
    ensures |completed| == |spec.tasks| ==> AllCompleted(spec.tasks, set x | x in completed)
  {
    var u := set x | x in Ids(spec.tasks);
    ElementsSize(Ids(spec.tasks));
    DistinctSize(completed, u);
    if |completed| == |spec.tasks| {
      forall t | t in spec.tasks ensures t.id in completed {
        var k :| 0 <= k < |spec.tasks| && spec.tasks[k] == t;
        assert Ids(spec.tasks)[k] == t.id;
      }
    }
  }

  // ---------- One cycle from a checkpoint ----------

  /** Selection never fails from a checkpoint, and answers `None` only when all is done. */
  lemma SelectFromCheckpoint(spec: TaskSpec, s: State)
    requires WellFormedSpec(spec) && Checkpoint(spec, s)
    ensures
      var r := SelectNextTask(spec, s);
      && r.Ok?
      && (r.value.None? <==> AllDone(spec, s))
      && (r.value.Some? ==>
            r.value.value in spec.tasks && r.value.value.id !in s.completedTasks && Ready(r.value.value, Done(s)))
  {
    if s.currentTask.Some? && s.currentTask.value !in Done(s) {
      var t :| t in spec.tasks && t.id == s.currentTask.value && Ready(t, Done(s));
      var found := TaskWithId(spec.tasks, t.id);
      SameIdSameTask(spec.tasks, found.value, t);
    } else {
      NeverBlocked(spec, Done(s));
    }
  }

  lemma EnterFromCheckpoint(spec: TaskSpec, s: State, task: SpecTask)
    requires WellFormedSpec(spec) && Checkpoint(spec, s) && !AllDone(spec, s)
    requires task in spec.tasks && task.id !in s.completedTasks && Ready(task, Done(s))
    ensures
      var r := EnterImplementing(s, task);
      && r.Ok? && WorkingOn(spec, task, r.value) && r.value.status == Implementing
      && r.value.completedTasks == s.completedTasks && r.value.repairAttempts == s.repairAttempts
  {
    assert IsTaskId(task.id);
  }

  /** What a cycle from a checkpoint guarantees. */
  ghost predicate CyclePost(spec: TaskSpec, s: State, run: Run) {
    && SoundExit(spec, s, run)
    && TraceKeeps(spec, s, run.trace)
    && CodexCount(run.trace) <= (if AllDone(spec, s) then 0 else 3) + 3 * (RepairsAtEnd(spec, run) - s.repairAttempts)
    && (run.exit.Returned? ==>
          var r := run.exit.result;
          && (r.outcome in {TaskCompletedOutcome, FinalVerificationPassed} ==> r.state.status == StatusOf(r.outcome))
          && (r.outcome == TaskCompletedOutcome ==>
                !AllDone(spec, s) && |r.state.completedTasks| == |s.completedTasks| + 1)
          && (r.outcome != TaskCompletedOutcome ==> r.state.completedTasks == s.completedTasks))
  }

  lemma FinalVerifyPost(ctx: Context, s: State, c: nat, n: nat)
    requires StateInv(ctx.spec, s) && s.status == FinalValidating
    ensures CyclePost(ctx.spec, s, FinalVerify(ctx, s, c, n))
    ensures CodexCount(FinalVerify(ctx, s, c, n).trace) == 0
  {
    var final := ctx.oracle.finalRun(c);
    if final.ValidationRan? {
      var failed := FailedRecord(final.records);
      if failed.Some? {
        var class_ := failed.value.failureClass;
        var changes := ApplyTransition(s, FailureTarget(class_),
          lastValidation := To(Some(failed.value.command)), lastResult := To(Some(FailedResult)));
        assert changes == Ok(s.(status := FailureTarget(class_), lastValidation := Some(failed.value.command),
                                lastResult := Some(FailedResult)));
        assert "final verification failed"[0] != REPAIR_LIMIT_MESSAGE[0];
      }
    }
  }

  lemma FinalVerifyIfReadyPost(ctx: Context, s: State, c: nat, n: nat)
    requires Checkpoint(ctx.spec, s) && AllDone(ctx.spec, s) && !Stuck(ctx.spec, s) && ctx.spec.tasks != []
    ensures CyclePost(ctx.spec, s, FinalVerifyIfReady(ctx, s, c, n))
    ensures FinalVerificationRun in FinalVerifyIfReady(ctx, s, c, n).trace
  {
    var validating := s.(status := FinalValidating);
    var events := (if s.status == TaskCompleted then Persist(ctx, validating) else []) + [FinalVerificationRun];
    FinalVerifyPost(ctx, validating, c, n);
    assert ctx.spec.tasks[0].id in Done(s);
    assert s.status == TaskCompleted || s.status == FinalValidating;
    assert FinalVerifyIfReady(ctx, s, c, n) == After(events, FinalVerify(ctx, validating, c, n)) by {
      assert s.status == TaskCompleted ==> ApplyTransition(s, FinalValidating) == Ok(validating);
      assert s.status == FinalValidating ==> s == validating && events == [FinalVerificationRun];
    }
    CodexCountAppend(if s.status == TaskCompleted then Persist(ctx, validating) else [], [FinalVerificationRun]);
    assert TraceKeeps(ctx.spec, s, events) && CodexCount(events) == 0;
    TraceAfter(ctx.spec, s, validating, events, FinalVerify(ctx, validating, c, n).trace);
    assert events[|events| - 1] == FinalVerificationRun;
  }

  lemma RunTaskCyclePost(ctx: Context, s: State, c: nat, n: nat)
    requires WellFormedSpec(ctx.spec) && Checkpoint(ctx.spec, s) && !Stuck(ctx.spec, s)
    ensures CyclePost(ctx.spec, s, RunTaskCycle(ctx, s, c, n))
  {
    hide InvokeCodexTurn, FinalVerifyIfReady, LinearExtension, CurrentTaskSound, SelectNextTask, EnterImplementing;
    SelectFromCheckpoint(ctx.spec, s);
    var selected := SelectNextTask(ctx.spec, s).value;
    if AllDone(ctx.spec, s) {
      FinalVerifyIfReadyPost(ctx, s, c, n);
    } else {
      EnterFromCheckpoint(ctx.spec, s, selected.value);
      var state := EnterImplementing(s, selected.value).value;
      InvokePost(ctx, selected.value, state, 0, n);
      TurnAfter(ctx.spec, selected.value, s, 3, Persist(ctx, state), state, 3,
        InvokeCodexTurn(ctx, selected.value, state, 0, n));
    }
  }

  // ---------- Whole starts ----------

  /** What a start guarantees from the state `s` its preparation produced. */
  ghost predicate UnitPost(spec: TaskSpec, s: State, run: UnitRun) {
    && (run.exit.UnitRaised? ==> run.exit.error.External?)
    && (run.exit.Reported? ==>
          && ValidReport(run.exit.report, Some(spec))
          && StateInv(spec, run.exit.report.state)
          && Extends(s, run.exit.report.state))
    && TraceKeeps(spec, s, run.trace)
  }

  /** A cycle's result that ends the loop becomes a report its validator accepts. */
  lemma ReportAccepted(spec: TaskSpec, last: CycleResult)
    requires ValidCycleResult(last) && StateInv(spec, last.state) && last.outcome != TaskCompletedOutcome
    requires last.outcome == FinalVerificationPassed ==> last.state.status == FinalValidating
    ensures ReportFromCycle(spec, last).Reported?
    ensures ValidReport(ReportFromCycle(spec, last).report, Some(spec))
    ensures ReportFromCycle(spec, last).report.state == last.state
  {
  }

  /**
   * The loop bound suffices: from a checkpoint, one iteration per missing task and one more
   * never reach the `else` branch, and the Codex invocations stay within three for each
   * missing task and three for each repair still allowed.
   */
  lemma {:induction false} LoopPost(ctx: Context, s: State, fuel: nat, c: nat, n: nat)
    requires WellFormedSpec(ctx.spec) && Checkpoint(ctx.spec, s) && !Stuck(ctx.spec, s)
    requires fuel + |s.completedTasks| > |ctx.spec.tasks|
    ensures UnitPost(ctx.spec, s, RunCycles(ctx, s, fuel, c, n))
    ensures CodexCount(RunCycles(ctx, s, fuel, c, n).trace) <=
              3 * (|ctx.spec.tasks| - |s.completedTasks|) + 3 * (ctx.spec.repairAttemptLimit - s.repairAttempts)
    decreases fuel
  {
    hide RunTaskCycle, CurrentTaskSound, ReportFromCycle, ValidReport, ValidCycleResult;
    CompletedCount(ctx.spec, s.completedTasks);
    var run := RunTaskCycle(ctx, s, c, n);
    RunTaskCyclePost(ctx, s, c, n);
    if run.exit.Returned? {
      var last := run.exit.result;
      if last.outcome == TaskCompletedOutcome {
        LoopPost(ctx, last.state, fuel - 1, c + 1, run.turns);
        TraceAfter(ctx.spec, s, last.state, run.trace, RunCycles(ctx, last.state, fuel - 1, c + 1, run.turns).trace);
      } else {
        ReportAccepted(ctx.spec, last);
      }
    }
  }

  lemma FreshCheckpoint(spec: TaskSpec)
    requires WellFormedSpec(spec)
    ensures Checkpoint(spec, NewExecutionState(spec)) && !Stuck(spec, NewExecutionState(spec))
  {
    assert spec.tasks[0] in spec.tasks;
  }

  /** A fresh start whose writes all succeed. */
  lemma FreshStartIsSafe(ctx: Context)
    requires WellFormedSpec(ctx.spec)
    ensures
      var s := NewExecutionState(ctx.spec);
      var run := Start(ctx, NoFile);
      && UnitPost(ctx.spec, s, run)
      && CodexCount(run.trace) <= 3 * (|ctx.spec.tasks| + ctx.spec.repairAttemptLimit)
  {
    var s := NewExecutionState(ctx.spec);
    var writes := if ctx.persist then [Persisted(s)] else [];
    FreshCheckpoint(ctx.spec);
    LoopPost(ctx, s, |ctx.spec.tasks| + 2, 0, 0);
    TraceAfter(ctx.spec, s, s, writes, RunCycles(ctx, s, |ctx.spec.tasks| + 2, 0, 0).trace);
  }

  lemma {:induction false} CodexCountPrefix(trace: seq<Event>, k: nat)
    requires k <= |trace|
    ensures CodexCount(trace[..k]) <= CodexCount(trace)
  {
    assert trace == trace[..k] + trace[k..];
    CodexCountAppend(trace[..k], trace[k..]);
  }

  /**
   * Main theorem. A fresh work unit over an accepted spec, whatever Codex, the scope check and
   * the validations do, and whichever of its states cannot be written: apart from errors of
   * foreign calls and of refused writes it raises nothing (no blocked dependency, no invalid
   * transition, no loop bound, no rejected result or report), its report is accepted by the
   * validator, every state it writes extends a linear extension of the graph, and Codex is
   * invoked at most 3 * (tasks + repair limit) times.
   */
  lemma FreshRunIsSafe(ctx: Context)
    requires WellFormedSpec(ctx.spec)
    ensures
      var s := NewExecutionState(ctx.spec);
      var run := Attempt(ctx, NoFile);
      && UnitPost(ctx.spec, s, run)
      && CodexCount(run.trace) <= 3 * (|ctx.spec.tasks| + ctx.spec.repairAttemptLimit)
  {
    hide Start, StateInv;
    FreshStartIsSafe(ctx);
    var trace := Start(ctx, NoFile).trace;
    var k := FirstRefused(ctx.oracle, trace, 0);
    CodexCountPrefix(trace, k);
    RefusedFirstWrite(ctx.spec);
  }

  lemma RefusedFirstWrite(spec: TaskSpec)
    requires WellFormedSpec(spec)
    ensures
      var s := NewExecutionState(spec);
      var exit := ReportFromPreparationError(spec, s, Some(STATE_TAMPERED));
      && exit.Reported? && exit.report.state == s && ValidReport(exit.report, Some(spec)) && StateInv(spec, s)
  {
    FreshCheckpoint(spec);
  }

  // ---------- State files, crashes and restarts ----------

  /** A state file that runs of this work unit may have left behind. */
  ghost predicate SoundFile(spec: TaskSpec, file: StateFile) {
    file.NoFile? || (file.Stored? && StateInv(spec, file.state))
  }

  predicate Blocked(s: State) {
    s.status == Escalated || s.status == ScopeViolation
  }

  /** In flight with nothing completed: recovery starts again from PENDING. */
  predicate RestartsFromScratch(s: State) {
    s.status in {Running, Implementing, Validating} && s.completedTasks == []
  }

  /**
   * Recovery from a file a run left behind: it is blocked exactly in the terminal states;
   * otherwise it drops no completed task, keeps the current task sound, and ends at a
   * checkpoint that is stuck exactly when a complete work unit had FAILED.
   */
  lemma PreparationKeeps(spec: TaskSpec, s: State)
    requires WellFormedSpec(spec) && StateInv(spec, s)
    ensures
      var p := PreparePersistedState(spec, s);
      && p.Plan?
      && (p.action == Block <==> Blocked(s))
      && (Blocked(s) ==> p.state == s)
      && StateInv(spec, p.state)
      && p.state.completedTasks == s.completedTasks
      && (!Blocked(s) ==>
            && Checkpoint(spec, p.state)
            && (Stuck(spec, p.state) <==> s.status == Failed && AllDone(spec, s))
            && p.state.currentTask == if RestartsFromScratch(s) then None else s.currentTask)
      && p.state.repairAttempts == if RestartsFromScratch(s) then 0 else s.repairAttempts
  {
    assert spec.tasks[0] in spec.tasks;
  }

  /**
   * The repair count survives a restart if and only if it is zero or the interrupted run
   * was not in flight with nothing completed: budgets hold per start, not across crashes.
   */
  lemma RepairCountSurvivesIff(spec: TaskSpec, s: State)
    requires WellFormedSpec(spec) && StateInv(spec, s)
    ensures PreparePersistedState(spec, s).state.repairAttempts == s.repairAttempts
            <==> !(RestartsFromScratch(s) && s.repairAttempts > 0)
  {
    PreparationKeeps(spec, s);
  }

  /** A blocked start reports the terminal state it found, and the report is accepted. */
  lemma BlockedReportAccepted(spec: TaskSpec, s: State, reason: string)
    requires StateInv(spec, s) && Blocked(s)
    ensures
      var exit := ReportFromReconcile(spec, s, reason);
      exit.Reported? && ValidReport(exit.report, Some(spec)) && exit.report.state == s
  {
  }

  /** A start from a stored state, once its preparation is known. */
  lemma StartIs(ctx: Context, s: State)
    requires ctx.spec.tasks != [] && ctx.persist && PreparePersistedState(ctx.spec, s).Plan?
    ensures
      var p := PreparePersistedState(ctx.spec, s);
      var rest := RunCycles(ctx, p.state, |ctx.spec.tasks| + 2, 0, 0);
      Start(ctx, Stored(s)) ==
        if p.action == Block then UnitRun(ReportFromReconcile(ctx.spec, p.state, p.reason), [Persisted(p.state)])
        else rest.(trace := [Persisted(p.state)] + rest.trace)
  {
    hide PreparePersistedState, RunCycles, ReportFromReconcile;
  }

  /** One start from a file left behind, from the state its preparation produced. */
  lemma StartPost(ctx: Context, s: State)
    requires WellFormedSpec(ctx.spec) && StateInv(ctx.spec, s) && ctx.persist
    requires !(s.status == Failed && AllDone(ctx.spec, s))
    ensures
      var prepared := PreparePersistedState(ctx.spec, s).state;
      var run := Start(ctx, Stored(s));
      && UnitPost(ctx.spec, prepared, run)
      && CodexCount(run.trace) <=
         3 * (|ctx.spec.tasks| - |s.completedTasks|) + 3 * (ctx.spec.repairAttemptLimit - prepared.repairAttempts)
  {
    hide RunCycles, Start, ReportFromReconcile, PreparePersistedState, Checkpoint, Stuck, AllDone, ValidReport, StateInv;
    PreparationKeeps(ctx.spec, s);
    CompletedCount(ctx.spec, s.completedTasks);
    var p := PreparePersistedState(ctx.spec, s);
    StartIs(ctx, s);
    if p.action == Block {
      BlockedReportAccepted(ctx.spec, s, p.reason);
    } else {
      LoopPost(ctx, p.state, |ctx.spec.tasks| + 2, 0, 0);
      TraceAfter(ctx.spec, p.state, p.state, [Persisted(p.state)],
        RunCycles(ctx, p.state, |ctx.spec.tasks| + 2, 0, 0).trace);
    }
  }

  /** From a stuck checkpoint a cycle writes nothing, and raises unless the start itself fails. */
  lemma StuckCycle(ctx: Context, s: State, c: nat, n: nat)
    requires WellFormedSpec(ctx.spec) && Checkpoint(ctx.spec, s) && Stuck(ctx.spec, s)
    ensures
      var run := RunTaskCycle(ctx, s, c, n);
      var start := ctx.oracle.start(c);
      && run.trace == []
      && (run.exit == Raised(InvalidTransition) <==> start.Started? && RegularOrAbsent(start.stateFile))
      && (run.exit.Raised? ==> run.exit.error == InvalidTransition || run.exit.error.External?)
      && (run.exit.Returned? ==>
            && run.exit.result.outcome == ScopeViolationOutcome
            && run.exit.result.state == s && ValidCycleResult(run.exit.result))
  {
    hide InvokeCodexTurn, SelectNextTask, EnterImplementing;
    SelectFromCheckpoint(ctx.spec, s);
  }

  /** A complete work unit that FAILED is retried as RUNNING, and the first cycle rejects that. */
  lemma StuckStart(ctx: Context, s: State)
    requires WellFormedSpec(ctx.spec) && StateInv(ctx.spec, s) && ctx.persist
    requires s.status == Failed && AllDone(ctx.spec, s)
    ensures
      var running := s.(status := Running);
      var run := Start(ctx, Stored(s));
      var start := ctx.oracle.start(0);
      && StateInv(ctx.spec, running)
      && run.trace == [Persisted(running)]
      && (run.exit == UnitRaised(InvalidTransition) <==> start.Started? && RegularOrAbsent(start.stateFile))
  {
    hide RunTaskCycle, LinearExtension, CurrentTaskSound, SelectNextTask;
    PreparationKeeps(ctx.spec, s);
    var running := s.(status := Running);
    StuckCycle(ctx, running, 0, 0);
    var run := RunTaskCycle(ctx, running, 0, 0);
    if run.exit.Returned? {
      ReportAccepted(ctx.spec, run.exit.result);
    }
  }

  /**
   * A start from a file left behind raises INVALID_TRANSITION if and only if the work unit
   * had FAILED with every task completed (and the cycle gets as far as selecting).
   */
  lemma InvalidTransitionIff(ctx: Context, s: State)
    requires WellFormedSpec(ctx.spec) && StateInv(ctx.spec, s) && ctx.persist
    ensures
      var start := ctx.oracle.start(0);
      Start(ctx, Stored(s)).exit == UnitRaised(InvalidTransition)
      <==> s.status == Failed && AllDone(ctx.spec, s) && start.Started? && RegularOrAbsent(start.stateFile)
  {
    hide Start, StateInv, AllDone;
    if s.status == Failed && AllDone(ctx.spec, s) {
      StuckStart(ctx, s);
    } else {
      StartPost(ctx, s);
    }
  }
}
