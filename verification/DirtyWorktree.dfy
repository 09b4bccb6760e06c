/**
 * The clean-worktree guard. Completed tasks leave their uncommitted files behind, so only a cycle
 * that would begin the first task may refuse a dirty tree; what any later check finds is ignored.
 */
module DirtyWorktree {
  import opened Wrappers
  import opened TaskGraph
  import opened ExecutionState
  import opened Select
  import opened Cycle
  import opened WorkUnit
  import opened AnyStart
  import opened Starts

  const DIRTY_WORKTREE := "DIRTY_WORKTREE"

  /** The same environment with every dirty tree from cycle `from` on made clean. */
  function Swept(ctx: Context, from: nat): Context {
    var start := (c: nat) =>
      var found := ctx.oracle.start(c);
      if found.Started? && from <= c then found.(dirty := false) else found;
    ctx.(oracle := ctx.oracle.(start := start))
  }

  /** The one case in which dirt ends a cycle: a clean tree is wanted, and nothing is completed. */
  predicate RefusesDirt(ctx: Context, s: State, c: nat) {
    && ctx.requireCleanWorktree && s.completedTasks == []
    && ctx.oracle.start(c).Started? && ctx.oracle.start(c).dirty && RegularOrAbsent(ctx.oracle.start(c).stateFile)
    && SelectNextTask(ctx.spec, s).Ok? && SelectNextTask(ctx.spec, s).value.Some?
  }

  // ---------- Turns do not look at the tree ----------

  lemma {:induction false} TurnsIgnoreDirt(ctx: Context, from: nat, task: SpecTask, s: State, retries: nat, n: nat)
    requires retries <= TRANSPORT_RETRY_MAX
    ensures InvokeCodexTurn(ctx, task, s, retries, n) == InvokeCodexTurn(Swept(ctx, from), task, s, retries, n)
    decreases RemainingRepairs(ctx.spec.repairAttemptLimit, s.repairAttempts), TRANSPORT_RETRY_MAX - retries, 2
  {
    hide AfterCodex, StateTamperedResult;
    if ctx.oracle.turn(n).codex.CodexExited? { ScopedTurnIgnoresDirt(ctx, from, task, s, retries, n); }
  }

  lemma {:induction false} ScopedTurnIgnoresDirt(ctx: Context, from: nat, task: SpecTask, s: State, retries: nat, n: nat)
    requires retries <= TRANSPORT_RETRY_MAX && ctx.oracle.turn(n).codex.CodexExited?
    ensures AfterCodex(ctx, task, s, retries, n) == AfterCodex(Swept(ctx, from), task, s, retries, n)
    decreases RemainingRepairs(ctx.spec.repairAttemptLimit, s.repairAttempts), TRANSPORT_RETRY_MAX - retries, 1
  {
    hide InvokeCodexTurn, ValidateAndMaybeRepair, StateTamperedResult, ApplyTransition;
    var turn := ctx.oracle.turn(n);
    if turn.codex.exitCode != 0 {
      if turn.codex.transportError && retries < TRANSPORT_RETRY_MAX { TurnsIgnoreDirt(ctx, from, task, s, retries + 1, n + 1); }
    } else {
      var moved := ApplyTransition(s, Validating, currentTask := To(Some(task.id)));
      if moved.Ok? {
        assert moved.value.repairAttempts == s.repairAttempts by { SameCount(s, moved.value, task.id); }
        ValidationIgnoresDirt(ctx, from, task, moved.value, n);
      }
    }
  }

  lemma SameCount(s: State, t: State, task: string)
    requires ApplyTransition(s, Validating, currentTask := To(Some(task))) == Ok(t)
    ensures t.repairAttempts == s.repairAttempts
  {
  }

  lemma {:induction false} ValidationIgnoresDirt(ctx: Context, from: nat, task: SpecTask, s: State, n: nat)
    ensures ValidateAndMaybeRepair(ctx, task, s, n) == ValidateAndMaybeRepair(Swept(ctx, from), task, s, n)
    decreases RemainingRepairs(ctx.spec.repairAttemptLimit, s.repairAttempts), 0, 0
  {
    hide InvokeCodexTurn, ApplyTransition;
    var validation := ctx.oracle.turn(n).validation;
    if validation.ValidationRan? && FailedRecord(validation.records).Some? && CanAttemptRepair(ctx.spec.repairAttemptLimit, s.repairAttempts) {
      var failed := FailedRecord(validation.records).value;
      var moved := ApplyTransition(s, Implementing, currentTask := To(Some(task.id)),
        repairAttempts := To(s.repairAttempts + 1),
        lastValidation := To(Some(failed.command)), lastResult := To(Some(FailedResult)));
      if moved.Ok? {
        assert moved.value.repairAttempts == s.repairAttempts + 1 by { CountsRepair(s, moved.value, task.id, failed.command); }
        TurnsIgnoreDirt(ctx, from, task, moved.value, 0, n + 1);
      }
    }
  }

  lemma CountsRepair(s: State, t: State, task: string, command: string)
    requires ApplyTransition(s, Implementing, currentTask := To(Some(task)), repairAttempts := To(s.repairAttempts + 1),
               lastValidation := To(Some(command)), lastResult := To(Some(FailedResult))) == Ok(t)
    ensures t.repairAttempts == s.repairAttempts + 1
  {
  }

  // ---------- One cycle ----------

  /**
   * Dirt ends a cycle with its own error and without an event exactly in the one case; in every
   * other, from any state, the cycle is the one a clean tree would have had.
   */
  lemma DirtEndsACycleIff(ctx: Context, s: State, c: nat, n: nat, from: nat)
    requires ctx.spec.tasks != [] && from <= c
    ensures
      var run := RunTaskCycle(ctx, s, c, n);
      if RefusesDirt(ctx, s, c) then run == Run(Raised(External(DIRTY_WORKTREE)), [], n)
      else run == RunTaskCycle(Swept(ctx, from), s, c, n)
  {
    hide SelectNextTask, InvokeCodexTurn, EnterImplementing, FinalVerify, StateTamperedResult, ApplyTransition;
    var selected := SelectNextTask(ctx.spec, s);
    if selected.Ok? && selected.value.Some? {
      var entered := EnterImplementing(s, selected.value.value);
      if entered.Ok? { TurnsIgnoreDirt(ctx, from, selected.value.value, entered.value, 0, n); }
    }
    forall t: State ensures FinalVerify(ctx, t, c, n) == FinalVerify(Swept(ctx, from), t, c, n) {
      VerificationIgnoresDirt(ctx, from, t, c, n);
    }
  }

  lemma VerificationIgnoresDirt(ctx: Context, from: nat, s: State, c: nat, n: nat)
    ensures FinalVerify(ctx, s, c, n) == FinalVerify(Swept(ctx, from), s, c, n)
  {
  }

  /** Dirt that is found before `from` stays. */
  lemma EarlierCycleIsKept(ctx: Context, s: State, c: nat, n: nat, from: nat)
    requires ctx.spec.tasks != [] && c < from
    ensures RunTaskCycle(ctx, s, c, n) == RunTaskCycle(Swept(ctx, from), s, c, n)
  {
    hide SelectNextTask, InvokeCodexTurn, EnterImplementing, FinalVerify, StateTamperedResult, ApplyTransition;
    var selected := SelectNextTask(ctx.spec, s);
    if selected.Ok? && selected.value.Some? {
      var entered := EnterImplementing(s, selected.value.value);
      if entered.Ok? { TurnsIgnoreDirt(ctx, from, selected.value.value, entered.value, 0, n); }
    }
    forall t: State ensures FinalVerify(ctx, t, c, n) == FinalVerify(Swept(ctx, from), t, c, n) {
      VerificationIgnoresDirt(ctx, from, t, c, n);
    }
  }

  // ---------- A completed cycle has completed something ----------

  predicate LeavesATask(run: Run) {
    run.exit.Returned? && run.exit.result.outcome == TaskCompletedOutcome ==> run.exit.result.state.completedTasks != []
  }

  lemma {:induction false} TurnsLeaveATask(ctx: Context, task: SpecTask, s: State, retries: nat, n: nat)
    requires retries <= TRANSPORT_RETRY_MAX
    ensures LeavesATask(InvokeCodexTurn(ctx, task, s, retries, n))
    decreases RemainingRepairs(ctx.spec.repairAttemptLimit, s.repairAttempts), TRANSPORT_RETRY_MAX - retries, 2
  {
    hide AfterCodex, ApplyTransition;
    if ctx.oracle.turn(n).codex.CodexExited? { ScopedTurnLeavesATask(ctx, task, s, retries, n); }
  }

  lemma {:induction false} ScopedTurnLeavesATask(ctx: Context, task: SpecTask, s: State, retries: nat, n: nat)
    requires retries <= TRANSPORT_RETRY_MAX && ctx.oracle.turn(n).codex.CodexExited?
    ensures LeavesATask(AfterCodex(ctx, task, s, retries, n))
    decreases RemainingRepairs(ctx.spec.repairAttemptLimit, s.repairAttempts), TRANSPORT_RETRY_MAX - retries, 1
  {
    hide InvokeCodexTurn, ValidateAndMaybeRepair, ApplyTransition;
    var turn := ctx.oracle.turn(n);
    if turn.codex.exitCode != 0 {
      if turn.codex.transportError && retries < TRANSPORT_RETRY_MAX { TurnsLeaveATask(ctx, task, s, retries + 1, n + 1); }
    } else {
      var moved := ApplyTransition(s, Validating, currentTask := To(Some(task.id)));
      if moved.Ok? {
        assert moved.value.repairAttempts == s.repairAttempts by { SameCount(s, moved.value, task.id); }
        ValidationLeavesATask(ctx, task, moved.value, n);
      }
    }
  }

  lemma {:induction false} ValidationLeavesATask(ctx: Context, task: SpecTask, s: State, n: nat)
    ensures LeavesATask(ValidateAndMaybeRepair(ctx, task, s, n))
    decreases RemainingRepairs(ctx.spec.repairAttemptLimit, s.repairAttempts), 0, 0
  {
    hide InvokeCodexTurn;
    var validation := ctx.oracle.turn(n).validation;
    if validation.ValidationRan? && FailedRecord(validation.records).Some? && CanAttemptRepair(ctx.spec.repairAttemptLimit, s.repairAttempts) {
      var failed := FailedRecord(validation.records).value;
      var moved := ApplyTransition(s, Implementing, currentTask := To(Some(task.id)),
        repairAttempts := To(s.repairAttempts + 1),
        lastValidation := To(Some(failed.command)), lastResult := To(Some(FailedResult)));
      if moved.Ok? {
        assert moved.value.repairAttempts == s.repairAttempts + 1 by { CountsRepair(s, moved.value, task.id, failed.command); }
        TurnsLeaveATask(ctx, task, moved.value, 0, n + 1);
      }
    }
  }

  lemma CycleLeavesATask(ctx: Context, s: State, c: nat, n: nat)
    requires ctx.spec.tasks != []
    ensures LeavesATask(RunTaskCycle(ctx, s, c, n))
  {
    hide SelectNextTask, InvokeCodexTurn, EnterImplementing, ApplyTransition;
    var selected := SelectNextTask(ctx.spec, s);
    if selected.Ok? && selected.value.Some? {
      var entered := EnterImplementing(s, selected.value.value);
      if entered.Ok? { TurnsLeaveATask(ctx, selected.value.value, entered.value, 0, n); }
    }
  }

  // ---------- Whole starts ----------

  /** Once a task is completed, no check of any later cycle makes a difference. */
  lemma {:induction false} LoopIgnoresDirt(ctx: Context, s: State, fuel: nat, c: nat, n: nat, from: nat)
    requires ctx.spec.tasks != [] && from <= c && s.completedTasks != []
    ensures RunCycles(ctx, s, fuel, c, n) == RunCycles(Swept(ctx, from), s, fuel, c, n)
    decreases fuel
  {
    hide RunTaskCycle, ReportFromCycle, SelectNextTask;
    DirtEndsACycleIff(ctx, s, c, n, from);
    CycleLeavesATask(ctx, s, c, n);
    var run := RunTaskCycle(ctx, s, c, n);
    if fuel > 0 && run.exit.Returned? && run.exit.result.outcome == TaskCompletedOutcome {
      LoopIgnoresDirt(ctx, run.exit.result.state, fuel - 1, c + 1, run.turns, from);
    }
  }

  /**
   * Main theorem: whatever the file holds, a start is never ended by dirt that a later cycle
   * finds: it is the start in which the tree was clean from the second cycle on. And the first
   * cycle's dirt makes no difference either if the state it begins from has a completed task.
   */
  lemma OnlyFirstDirtCounts(ctx: Context, file: StateFile)
    requires ctx.spec.tasks != []
    ensures Start(ctx, file) == Start(Swept(ctx, 1), file)
    ensures
      var prepared := PrepareExecutionState(ctx.spec, ctx.persist, file).0;
      prepared.Plan? && prepared.state.completedTasks != [] ==> Start(ctx, file) == Start(Swept(ctx, 0), file)
  {
    hide RunTaskCycle, PrepareExecutionState, ReportFromCycle, ReportFromReconcile, ReportFromPreparationError;
    var prepared := PrepareExecutionState(ctx.spec, ctx.persist, file).0;
    if prepared.Plan? {
      var s, fuel := prepared.state, |ctx.spec.tasks| + 2;
      if s.completedTasks != [] { LoopIgnoresDirt(ctx, s, fuel, 0, 0, 0); }
      EarlierCycleIsKept(ctx, s, 0, 0, 1);
      CycleLeavesATask(ctx, s, 0, 0);
      var run := RunTaskCycle(ctx, s, 0, 0);
      if run.exit.Returned? && run.exit.result.outcome == TaskCompletedOutcome {
        LoopIgnoresDirt(ctx, run.exit.result.state, fuel - 1, 1, run.turns, 1);
      }
    }
  }

  /**
   * The start that the guard stops: a file that works and whose state has nothing completed, on a
   * dirty tree. Only preparation's write happens: the task is not entered and Codex is not invoked.
   */
  lemma DirtyStartIsRefused(ctx: Context, file: StateFile)
    requires WellFormedSpec(ctx.spec) && Readable(file) && ctx.persist && FateOf(ctx.spec, file).Works?
    requires StartState(ctx.spec, file).completedTasks == []
    requires ctx.requireCleanWorktree && ctx.oracle.start(0).Started? && ctx.oracle.start(0).dirty
    requires RegularOrAbsent(ctx.oracle.start(0).stateFile)
    ensures Start(ctx, file) == UnitRun(UnitRaised(External(DIRTY_WORKTREE)), [Persisted(StartState(ctx.spec, file))])
  {
    hide RunTaskCycle, SelectNextTask, NothingLeft, KnownTasks, CurrentWaits;
    var s := StartState(ctx.spec, file);
    StartProceeds(ctx, file);
    SelectIs(ctx.spec, s);
    SomethingLeft(ctx.spec, s);
    DirtEndsACycleIff(ctx, s, 0, 0, 0);
  }

  lemma SomethingLeft(spec: TaskSpec, s: State)
    requires spec.tasks != [] && s.completedTasks == []
    ensures !NothingLeft(spec, s)
  {
    assert spec.tasks[0] in spec.tasks;
  }
}
