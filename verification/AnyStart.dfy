/**
 * Starts from any readable state file, whoever wrote it: what preparation makes of it, which
 * error the first cycle raises, whether it reaches work, and whether its report is accepted.
 */
module AnyStart {
  import opened Wrappers
  import opened TaskGraph
  import opened ExecutionState
  import opened Select
  import opened Cycle
  import opened CycleProofs
  import opened WorkUnit
  import opened Durability

  // ---------- What a cycle makes of a state ----------

  /** Every task the state names is one of the spec's, the current one only while it is open. */
  predicate KnownTasks(spec: TaskSpec, s: State) {
    && (forall x :: x in s.completedTasks ==> x in Ids(spec.tasks))
    && (CurrentOpen(s) ==> s.currentTask.value in Ids(spec.tasks))
  }

  predicate CurrentOpen(s: State) {
    s.currentTask.Some? && s.currentTask.value !in s.completedTasks
  }

  /** The open current task waits for a dependency. */
  ghost predicate CurrentWaits(spec: TaskSpec, s: State) {
    CurrentOpen(s) && exists t :: t in spec.tasks && t.id == s.currentTask.value && !Ready(t, Done(s))
  }

  predicate NothingLeft(spec: TaskSpec, s: State) {
    !CurrentOpen(s) && AllCompleted(spec.tasks, Done(s))
  }

  /** The error with which the state makes a cycle fail before any work, if it does. */
  ghost function StartError(spec: TaskSpec, s: State): Option<AgentError> {
    if !KnownTasks(spec, s) then Some(InvalidState)
    else if CurrentWaits(spec, s) then Some(DependencyBlocked)
    else if s.status in (if NothingLeft(spec, s) then {TaskCompleted, FinalValidating} else {Pending, Running, TaskCompleted}) then None
    else Some(InvalidTransition)
  }

  lemma KnownCompleted(spec: TaskSpec, s: State)
    ensures (exists x :: x in Done(s) && x !in Ids(spec.tasks)) <==> exists x :: x in s.completedTasks && x !in Ids(spec.tasks)
  {
    if x :| x in s.completedTasks && x !in Ids(spec.tasks) { assert x in Done(s); }
  }

  /** Selection from any state: its two errors, its end, and what it selects. */
  lemma SelectIs(spec: TaskSpec, s: State)
    requires ValidTasks(spec.tasks)
    ensures
      var r := SelectNextTask(spec, s);
      && (r == Err(InvalidState) <==> !KnownTasks(spec, s))
      && (r == Err(DependencyBlocked) <==> KnownTasks(spec, s) && CurrentWaits(spec, s))
      && (r.Err? ==> r.error in {InvalidState, DependencyBlocked})
      && (r == Ok(None) <==> KnownTasks(spec, s) && NothingLeft(spec, s))
      && (r.Ok? && r.value.Some? ==> r.value.value in spec.tasks && r.value.value.id !in s.completedTasks)
  {
    KnownCompleted(spec, s);
    NeverBlocked(spec, Done(s));
    if CurrentOpen(s) && TaskWithId(spec.tasks, s.currentTask.value).Some? {
      var k :| 0 <= k < |spec.tasks| && spec.tasks[k] == TaskWithId(spec.tasks, s.currentTask.value).value;
      assert Ids(spec.tasks)[k] == s.currentTask.value;
    }
    if KnownTasks(spec, s) && CurrentOpen(s) {
      var found := TaskWithId(spec.tasks, s.currentTask.value);
      var k :| 0 <= k < |spec.tasks| && Ids(spec.tasks)[k] == s.currentTask.value;
      assert spec.tasks[k] in spec.tasks;
      forall t | t in spec.tasks && t.id == s.currentTask.value ensures t == found.value {
        SameIdSameTask(spec.tasks, t, found.value);
      }
    }
  }

  /** The environment lets cycle `c` get as far as entering or verifying. */
  predicate Undisturbed(ctx: Context, c: nat) {
    var start := ctx.oracle.start(c);
    start.Started? && RegularOrAbsent(start.stateFile) && !start.dirty
  }

  /** How a cycle from any state ends. */
  ghost predicate CycleEnds(spec: TaskSpec, s: State, run: Run) {
    match run.exit
    case Raised(e) => e.External? || (StartError(spec, s) == Some(e) && run.trace == [])
    case Returned(r) =>
      && ValidCycleResult(r)
      && OfUnit(spec, r.state)
      && (r.outcome == TaskCompletedOutcome ==>
            && r.state.status == TaskCompleted && r.state.currentTask.Some?
            && r.state.currentTask.value in Ids(spec.tasks) && r.state.currentTask.value !in s.completedTasks
            && r.state.completedTasks == s.completedTasks + [r.state.currentTask.value])
      && (r.outcome != TaskCompletedOutcome ==> r.state.completedTasks == s.completedTasks)
      && (r.outcome == FinalVerificationPassed ==> NothingLeft(spec, s) && KnownTasks(spec, s))
  }

  /** A status a prepared state may have. */
  predicate Resumable(s: Status) {
    s in {Pending, Running, TaskCompleted, FinalValidating, InReview, ReadyForHuman}
  }

  lemma FinalVerifyFrom(ctx: Context, s: State, c: nat, n: nat)
    requires ctx.persist && OfUnit(ctx.spec, s) && s.status == FinalValidating
    ensures
      var run := FinalVerify(ctx, s, c, n);
      && Kept(s, run, 3)
      && (run.exit.Raised? ==> run.exit.error.External?)
      && (run.exit.Returned? ==>
            && ValidCycleResult(run.exit.result) && OfUnit(ctx.spec, run.exit.result.state)
            && run.exit.result.outcome != TaskCompletedOutcome
            && run.exit.result.state.completedTasks == s.completedTasks)
  {
    hide Kept;
    var final := ctx.oracle.finalRun(c);
    if final.ValidationRaised? {
      RaisedKept(s, External(final.code), 3, n);
    } else {
      var failed := FailedRecord(final.records);
      var task := SpecTask("", []);
      if failed.None? {
        FinishKept(ctx, task, s, CycleResult(FinalVerificationPassed, None, s, None, "final verification passed", None), 3, n);
      } else {
        var class_ := failed.value.failureClass;
        var changes := ApplyTransition(s, FailureTarget(class_),
          lastValidation := To(Some(failed.value.command)), lastResult := To(Some(FailedResult)));
        var outcome := if class_ == EnvironmentFailure then FailedOutcome else EscalatedOutcome;
        assert "final verification failed"[0] != REPAIR_LIMIT_MESSAGE[0];
        FinishKept(ctx, task, s,
          CycleResult(outcome, None, changes.value, Some(class_), "final verification failed", None), 3, n);
      }
    }
  }

  lemma FinalVerifyIfReadyFrom(ctx: Context, s: State, c: nat, n: nat)
    requires ctx.persist && OfUnit(ctx.spec, s) && KnownTasks(ctx.spec, s) && NothingLeft(ctx.spec, s)
    ensures
      var run := FinalVerifyIfReady(ctx, s, c, n);
      && Kept(s, run, 3) && CycleEnds(ctx.spec, s, run)
      && (s.status in {TaskCompleted, FinalValidating} <==> FinalVerificationRun in run.trace)
      && (s.status !in {TaskCompleted, FinalValidating} <==> run.exit == Raised(InvalidTransition))
      && (run.exit == Raised(InvalidTransition) ==> run.trace == [])
  {
    hide FinalVerify, Kept;
    var e := FinalVerificationRun;
    if s.status == FinalValidating {
      FinalVerifyFrom(ctx, s, c, n);
      KeptAfter(s, e, 3, FinalVerify(ctx, s, c, n));
      assert ([e] + FinalVerify(ctx, s, c, n).trace)[0] == e;
    } else if s.status == TaskCompleted {
      var t := s.(status := FinalValidating);
      assert ApplyTransition(s, FinalValidating) == Ok(t);
      FinalVerifyFrom(ctx, t, c, n);
      var rest := FinalVerify(ctx, t, c, n);
      KeptAfter(t, e, 3, rest);
      PersistKept(ctx, s, t, 3, After([e], rest));
      assert [Persisted(t)] + ([e] + rest.trace) == [Persisted(t)] + [e] + rest.trace;
      assert ([Persisted(t)] + [e] + rest.trace)[1] == e;
    } else {
      RaisedKept(s, InvalidTransition, 3, n);
    }
  }

  /** Which states the schema accepts can enter a task, and what entering changes: the status and the current task. */
  lemma EntersIff(s: State, task: SpecTask)
    requires SchemaValid(s) && IsTaskId(task.id)
    ensures
      var r := EnterImplementing(s, task);
      && (r.Ok? <==> s.status in {Pending, Running, TaskCompleted, Validating, Implementing})
      && (r.Err? ==> r.error == InvalidTransition)
      && (r.Ok? ==> r.value == if s.status == Implementing then s else s.(status := Implementing, currentTask := Some(task.id)))
  {
  }

  lemma EnterFrom(spec: TaskSpec, s: State, task: SpecTask)
    requires OfUnit(spec, s) && IsTaskId(task.id) && task.id !in s.completedTasks && Resumable(s.status)
    ensures
      var r := EnterImplementing(s, task);
      && (r.Ok? <==> s.status in {Pending, Running, TaskCompleted})
      && (r.Err? ==> r.error == InvalidTransition)
      && (r.Ok? ==>
            && Turning(spec, task, r.value) && r.value.status == Implementing && Follows(s, r.value)
            && r.value.completedTasks == s.completedTasks && !IsRepair(s, r.value) && !IsCompletion(s, r.value))
  {
  }

  /** One cycle from any resumable state. */
  lemma CycleFrom(ctx: Context, s: State, c: nat, n: nat)
    requires WellFormedSpec(ctx.spec) && ctx.persist && OfUnit(ctx.spec, s) && Resumable(s.status)
    ensures
      var run := RunTaskCycle(ctx, s, c, n);
      && Kept(s, run, 3) && CycleEnds(ctx.spec, s, run)
      && (StartError(ctx.spec, s).Some? ==> run.trace == [])
      && (StartError(ctx.spec, s).Some? && Undisturbed(ctx, c) ==> run.exit == Raised(StartError(ctx.spec, s).value))
  {
    hide InvokeCodexTurn, FinalVerifyIfReady, SelectNextTask, EnterImplementing, Kept, KnownTasks, CurrentWaits, NothingLeft,
         Turning, Follows;
    SelectIs(ctx.spec, s);
    var selected := SelectNextTask(ctx.spec, s);
    var start := ctx.oracle.start(c);
    if start.StartRaised? {
      RaisedKept(s, External(start.code), 3, n);
    } else if selected.Err? {
      RaisedKept(s, selected.error, 3, n);
    } else if !RegularOrAbsent(start.stateFile) {
      TamperedStart(ctx, s, if selected.value.Some? then selected.value.value else ctx.spec.tasks[0], n);
    } else if selected.value.None? {
      FinalVerifyIfReadyFrom(ctx, s, c, n);
    } else {
      SelectedFrom(ctx, s, c, n, selected.value.value);
    }
  }

  lemma TamperedStart(ctx: Context, s: State, task: SpecTask, n: nat)
    requires OfUnit(ctx.spec, s) && Resumable(s.status)
    ensures
      var run := StateTamperedResult(task, s, n);
      Kept(s, run, 3) && CycleEnds(ctx.spec, s, run) && run.trace == []
  {
    NothingWritten(s, 3);
  }

  lemma SelectedFrom(ctx: Context, s: State, c: nat, n: nat, task: SpecTask)
    requires WellFormedSpec(ctx.spec) && ctx.persist && OfUnit(ctx.spec, s) && Resumable(s.status)
    requires SelectNextTask(ctx.spec, s) == Ok(Some(task))
    requires ctx.oracle.start(c).Started? && RegularOrAbsent(ctx.oracle.start(c).stateFile)
    ensures
      var run := RunTaskCycle(ctx, s, c, n);
      && Kept(s, run, 3) && CycleEnds(ctx.spec, s, run)
      && (StartError(ctx.spec, s).Some? ==> run.trace == [])
      && (StartError(ctx.spec, s).Some? && Undisturbed(ctx, c) ==> run.exit == Raised(StartError(ctx.spec, s).value))
  {
    hide InvokeCodexTurn, FinalVerifyIfReady, SelectNextTask, EnterImplementing, Kept, KnownTasks, CurrentWaits, NothingLeft,
         Turning, Follows, IsRepair, IsCompletion;
    SelectIs(ctx.spec, s);
    var k :| 0 <= k < |ctx.spec.tasks| && ctx.spec.tasks[k] == task;
    assert Ids(ctx.spec.tasks)[k] == task.id;
    EnterFrom(ctx.spec, s, task);
    RaisedKept(s, External("DIRTY_WORKTREE"), 3, n);
    RaisedKept(s, InvalidTransition, 3, n);
    var entered := EnterImplementing(s, task);
    if entered.Ok? {
      InvokeKept(ctx, task, entered.value, 0, n);
      PersistKept(ctx, s, entered.value, 3, InvokeCodexTurn(ctx, task, entered.value, 0, n));
    }
  }

  // ---------- The loop ----------

  /** The tasks still to be completed. */
  ghost function Missing(spec: TaskSpec, s: State): set<string> {
    set t | t in spec.tasks && t.id !in s.completedTasks :: t.id
  }

  /** What a loop leaves: written ahead, paced, an untampered report about the state in the file. */
  ghost predicate UnitKept(s: State, run: UnitRun) {
    && Traced(s, run.trace, 3)
    && (run.exit.Reported? ==>
          run.exit.report.code == Some(STATE_TAMPERED) || LastState(s, run.trace) == run.exit.report.state)
  }

  /** How the loop ends; its reports are refused exactly for repeated completed tasks. */
  ghost predicate LoopEnds(spec: TaskSpec, s: State, run: UnitRun) {
    match run.exit
    case UnitRaised(e) =>
      || e.External?
      || (StartError(spec, s) == Some(e) && run.trace == [])
      || (e == InvalidWorkUnitReport && !Distinct(s.completedTasks))
    case Reported(_) => Distinct(s.completedTasks)
  }

  /** A cycle's result is reported if and only if its completed tasks are distinct. */
  lemma ReportIff(spec: TaskSpec, s: State, last: CycleResult)
    requires OfUnit(spec, s) && ValidCycleResult(last) && OfUnit(spec, last.state) && last.outcome != TaskCompletedOutcome
    requires last.state.completedTasks == s.completedTasks && KnownTasks(spec, s)
    requires last.outcome == FinalVerificationPassed ==> NothingLeft(spec, s)
    ensures
      var exit := ReportFromCycle(spec, last);
      && (exit.Reported? <==> Distinct(s.completedTasks))
      && (exit.Reported? ==> exit.report.state == last.state && exit.report.code == last.code)
      && (exit.UnitRaised? ==> exit.error == InvalidWorkUnitReport)
  {
  }

  lemma AppendDistinct(xs: seq<string>, x: string)
    requires x !in xs
    ensures Distinct(xs + [x]) <==> Distinct(xs)
  {
    if Distinct(xs + [x]) {
      forall i, j | 0 <= i < j < |xs| ensures xs[i] != xs[j] { assert (xs + [x])[i] != (xs + [x])[j]; }
    }
  }

  /** After a completed task the next cycle has no error of its own, and one task less to do. */
  lemma NextCycle(spec: TaskSpec, s: State, t: State)
    requires KnownTasks(spec, s) && t.status == TaskCompleted && t.currentTask.Some?
    requires t.currentTask.value in Ids(spec.tasks) && t.currentTask.value !in s.completedTasks
    requires t.completedTasks == s.completedTasks + [t.currentTask.value]
    ensures StartError(spec, t).None? && KnownTasks(spec, t)
    ensures Missing(spec, t) < Missing(spec, s) && Missing(spec, t) == Missing(spec, s) - {t.currentTask.value}
    ensures t.currentTask.value in Missing(spec, s) && (Distinct(t.completedTasks) <==> Distinct(s.completedTasks))
  {
    var k :| 0 <= k < |spec.tasks| && Ids(spec.tasks)[k] == t.currentTask.value;
    assert spec.tasks[k] in spec.tasks;
    assert t.currentTask.value in Missing(spec, s) && t.currentTask.value !in Missing(spec, t);
    AppendDistinct(s.completedTasks, t.currentTask.value);
  }

  lemma SmallerMissing(a: set<string>, b: set<string>)
    requires a < b
    ensures |a| < |b|
  {
    var x :| x in b && x !in a;
    SubsetSize(a, b - {x});
  }

  lemma {:induction false} SubsetSize(a: set<string>, b: set<string>)
    requires a <= b
    ensures |a| <= |b|
  {
    if a != {} {
      var x :| x in a;
      SubsetSize(a - {x}, b - {x});
    }
  }

  lemma {:induction false} LoopFrom(ctx: Context, s: State, fuel: nat, c: nat, n: nat)
    requires WellFormedSpec(ctx.spec) && ctx.persist && OfUnit(ctx.spec, s) && Resumable(s.status)
    requires fuel > |Missing(ctx.spec, s)|
    ensures
      var run := RunCycles(ctx, s, fuel, c, n);
      && UnitKept(s, run) && LoopEnds(ctx.spec, s, run)
      && (StartError(ctx.spec, s).Some? ==> run.trace == [])
      && (StartError(ctx.spec, s).Some? && Undisturbed(ctx, c) ==> run.exit == UnitRaised(StartError(ctx.spec, s).value))
    decreases fuel
  {
    hide RunTaskCycle, ReportFromCycle, KnownTasks, NothingLeft, CurrentWaits, Traced, Missing, SchemaValid, ValidCycleResult;
    var run := RunTaskCycle(ctx, s, c, n);
    CycleFrom(ctx, s, c, n);
    KeptTrace(s, run, 3);
    if run.exit.Returned? {
      var last := run.exit.result;
      ReturnedIsKnown(ctx, s, c, n);
      if last.outcome == TaskCompletedOutcome {
        NextCycle(ctx.spec, s, last.state);
        SmallerMissing(Missing(ctx.spec, last.state), Missing(ctx.spec, s));
        LoopFrom(ctx, last.state, fuel - 1, c + 1, run.turns);
        var rest := RunCycles(ctx, last.state, fuel - 1, c + 1, run.turns);
        CompletedIsLast(s, run);
        TracedAppend(s, run.trace, 3, rest.trace, 3);
        CountsAppend(s, run.trace, rest.trace);
      } else {
        ReportIff(ctx.spec, s, last);
      }
    }
  }

  lemma KeptTrace(s: State, run: Run, budget: nat)
    requires Kept(s, run, budget)
    ensures Traced(s, run.trace, budget)
    ensures run.exit.Returned? ==>
              run.exit.result.code == Some(STATE_TAMPERED) || LastState(s, run.trace) == run.exit.result.state
  {
  }

  /** A completed task's state is the one written last, and its budget is paid for. */
  lemma CompletedIsLast(s: State, run: Run)
    requires Kept(s, run, 3) && run.exit.Returned? && run.exit.result.outcome == TaskCompletedOutcome
    requires ValidCycleResult(run.exit.result)
    ensures LastState(s, run.trace) == run.exit.result.state
    ensures CodexCount(run.trace) + 3 <= 3 + 3 * (Repairs(s, run.trace) + Completions(s, run.trace))
  {
  }

  /** A cycle returns a result only from a state whose tasks are known. */
  lemma ReturnedIsKnown(ctx: Context, s: State, c: nat, n: nat)
    requires WellFormedSpec(ctx.spec) && RunTaskCycle(ctx, s, c, n).exit.Returned?
    ensures KnownTasks(ctx.spec, s)
  {
    hide InvokeCodexTurn, FinalVerifyIfReady, SelectNextTask, EnterImplementing, KnownTasks;
    SelectIs(ctx.spec, s);
  }
}
