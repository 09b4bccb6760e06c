/** The fate of a start, read off the state file it finds, and what two starts in a row can achieve. */
module Starts {
  import opened Wrappers
  import opened TaskGraph
  import opened ExecutionState
  import opened Select
  import opened Cycle
  import opened WorkUnit
  import opened Durability
  import opened AnyStart

  /** `read_state` accepts only what the schema accepts. */
  predicate Readable(file: StateFile) {
    file.Stored? ==> SchemaValid(file.state)
  }

  // ---------- Preparation ----------

  predicate SameUnit(spec: TaskSpec, s: State) {
    s.taskId == spec.id && s.branch == spec.targetBranch
  }

  predicate Blocking(s: Status) {
    s in {Escalated, ScopeViolation, InvalidSpec, Completed}
  }

  /** The state a start goes on from, when it neither refuses nor blocks. */
  function Resumed(spec: TaskSpec, s: State): State {
    if s.status == PrCreated then NewExecutionState(spec)
    else if s.status == Failed then s.(status := Running)
    else if InFlight(s.status) then RecoverInFlight(s)
    else s
  }

  /** Preparation of any readable state: when it refuses, when it blocks, and what it resumes. */
  lemma PreparationIsExact(spec: TaskSpec, s: State)
    requires WellFormedSpec(spec) && SchemaValid(s)
    ensures
      var p := PreparePersistedState(spec, s);
      && (p == Refused(Some("UNSAFE_RECONCILE")) <==> s.taskId != spec.id)
      && (p == Refused(Some("STATE_BRANCH_MISMATCH")) <==> s.taskId == spec.id && s.branch != spec.targetBranch)
      && (p.Plan? <==> SameUnit(spec, s))
      && (p.Plan? ==> (p.action == Block <==> Blocking(s.status)))
      && (p.Plan? ==> p.state == if Blocking(s.status) then s else Resumed(spec, s))
      && (p.Plan? && !Blocking(s.status) ==> OfUnit(spec, p.state) && Resumable(p.state.status))
  {
    RetrySucceeds(s);
    if SameUnit(spec, s) && !Blocking(s.status) { ResumedIsResumable(spec, s); }
    hide SchemaValid, ApplyTransition, NewExecutionState, RecoverInFlight;
  }

  lemma RetrySucceeds(s: State)
    requires SchemaValid(s)
    ensures s.status == Failed ==> ApplyTransition(s, Running) == Ok(s.(status := Running))
  {
  }

  lemma ResumedIsResumable(spec: TaskSpec, s: State)
    requires WellFormedSpec(spec) && SchemaValid(s) && SameUnit(spec, s) && !Blocking(s.status)
    ensures OfUnit(spec, Resumed(spec, s)) && Resumable(Resumed(spec, s).status)
  {
    hide ValidTasks;
  }

  /** Preparing a prepared state again changes nothing. */
  lemma ResumedTwice(spec: TaskSpec, s: State)
    requires SameUnit(spec, s) && !Blocking(s.status) && s.status != PrCreated
    ensures
      var t := Resumed(spec, s);
      && SameUnit(spec, t) && !Blocking(t.status) && t.status !in {Failed, PrCreated}
      && (s.status != Failed ==> Resumed(spec, t) == t)
  {
  }

  // ---------- The fate of a start ----------

  datatype Fate = IsRefused | Crashes | IsBlocked | Fails(error: AgentError) | Works

  /** What becomes of a start, decided by the file alone. */
  ghost function FateOf(spec: TaskSpec, file: StateFile): Fate {
    match file
    case NoFile => Works
    case NotRegular => IsRefused
    case Unreadable(_) => IsRefused
    case Undecodable => Crashes
    case Stored(s) =>
      if !SameUnit(spec, s) then IsRefused
      else if Blocking(s.status) then IsBlocked
      else
        match StartError(spec, Resumed(spec, s))
        case Some(e) => Fails(e)
        case None => Works
  }

  /** The state a working or failing start goes on from. */
  function StartState(spec: TaskSpec, file: StateFile): State {
    if file.Stored? then Resumed(spec, file.state) else NewExecutionState(spec)
  }

  predicate Proceeds(fate: Fate) {
    fate.Fails? || fate.Works?
  }

  lemma FreshStart(spec: TaskSpec)
    requires WellFormedSpec(spec)
    ensures var s := NewExecutionState(spec);
            OfUnit(spec, s) && Resumable(s.status) && KnownTasks(spec, s) && StartError(spec, s).None?
  {
    assert spec.tasks[0] in spec.tasks;
  }

  /** A start that proceeds writes its state and runs the loop from it. */
  lemma StartProceeds(ctx: Context, file: StateFile)
    requires WellFormedSpec(ctx.spec) && Readable(file) && ctx.persist && Proceeds(FateOf(ctx.spec, file))
    ensures
      var s := StartState(ctx.spec, file);
      var rest := RunCycles(ctx, s, |ctx.spec.tasks| + 2, 0, 0);
      && OfUnit(ctx.spec, s) && Resumable(s.status)
      && StartError(ctx.spec, s) == (if FateOf(ctx.spec, file).Fails? then Some(FateOf(ctx.spec, file).error) else None)
      && Start(ctx, file) == rest.(trace := [Persisted(s)] + rest.trace)
  {
    hide RunCycles, StartError, PreparePersistedState, SchemaValid;
    FreshStart(ctx.spec);
    if file.Stored? { PreparationIsExact(ctx.spec, file.state); }
  }

  lemma {:induction false} IdsSize(tasks: seq<SpecTask>, u: set<string>)
    requires forall x :: x in u ==> exists t :: t in tasks && t.id == x
    ensures |u| <= |tasks|
  {
    if tasks == [] {
      assert u == {};
    } else {
      var last := tasks[|tasks| - 1];
      var rest := u - {last.id};
      forall x | x in rest ensures exists t :: t in tasks[..|tasks| - 1] && t.id == x {
        var t :| t in tasks && t.id == x;
        assert t in tasks[..|tasks| - 1];
      }
      IdsSize(tasks[..|tasks| - 1], rest);
      assert u <= rest + {last.id};
      SubsetSize(u, rest + {last.id});
    }
  }

  /** The loop bound suffices from any state. */
  lemma BoundSuffices(spec: TaskSpec, s: State)
    ensures |spec.tasks| + 2 > |Missing(spec, s)|
  {
    IdsSize(spec.tasks, Missing(spec, s));
  }

  /** Codex was invoked or final verification was run. */
  predicate ReachesWork(trace: seq<Event>) {
    exists i :: 0 <= i < |trace| && !trace[i].Persisted?
  }

  lemma ReachesWorkAppend(a: seq<Event>, b: seq<Event>)
    ensures ReachesWork(a + b) <==> ReachesWork(a) || ReachesWork(b)
  {
    if ReachesWork(a) {
      var i :| 0 <= i < |a| && !a[i].Persisted?;
      assert (a + b)[i] == a[i];
    }
    if ReachesWork(b) {
      var i :| 0 <= i < |b| && !b[i].Persisted?;
      assert (a + b)[|a| + i] == b[i];
    }
    if ReachesWork(a + b) {
      var i :| 0 <= i < |a + b| && !(a + b)[i].Persisted?;
      if i < |a| { assert a[i] == (a + b)[i]; } else { assert b[i - |a|] == (a + b)[i]; }
    }
  }

  /** No environment error stops the first cycle before its work begins. */
  predicate CleanStart(ctx: Context) {
    Undisturbed(ctx, 0) && ctx.oracle.turn(0).before.None? && RegularOrAbsent(ctx.oracle.turn(0).preFingerprint)
  }

  lemma WorkingCycle(ctx: Context, s: State)
    requires WellFormedSpec(ctx.spec) && ctx.persist && OfUnit(ctx.spec, s) && Resumable(s.status)
    requires StartError(ctx.spec, s).None? && CleanStart(ctx)
    ensures ReachesWork(RunTaskCycle(ctx, s, 0, 0).trace)
  {
    hide AfterCodex, FinalVerifyIfReady, SelectNextTask, EnterImplementing, KnownTasks, CurrentWaits, NothingLeft, Kept, CycleEnds;
    SelectIs(ctx.spec, s);
    var selected := SelectNextTask(ctx.spec, s).value;
    if selected.None? {
      FinalVerifyIfReadyFrom(ctx, s, 0, 0);
      var trace := FinalVerifyIfReady(ctx, s, 0, 0).trace;
      var i :| 0 <= i < |trace| && trace[i] == FinalVerificationRun;
      assert !trace[i].Persisted?;
    } else {
      var task := selected.value;
      var k :| 0 <= k < |ctx.spec.tasks| && ctx.spec.tasks[k] == task;
      EnterFrom(ctx.spec, s, task);
      var state := EnterImplementing(s, task).value;
      var turn := InvokeCodexTurn(ctx, task, state, 0, 0);
      assert turn.trace[0] == CodexInvoked(task.id);
      ReachesWorkAppend(Persist(ctx, state), turn.trace);
    }
  }

  /** A loop does nothing but write exactly when its state makes the first cycle fail, if the environment is clean. */
  lemma WorkingLoop(ctx: Context, s: State)
    requires WellFormedSpec(ctx.spec) && ctx.persist && OfUnit(ctx.spec, s) && Resumable(s.status) && CleanStart(ctx)
    requires StartError(ctx.spec, s).None?
    ensures ReachesWork(RunCycles(ctx, s, |ctx.spec.tasks| + 2, 0, 0).trace)
  {
    hide RunTaskCycle, StartError, SchemaValid, ReportFromCycle, ReachesWork;
    WorkingCycle(ctx, s);
    var run := RunTaskCycle(ctx, s, 0, 0);
    if run.exit.Returned? && run.exit.result.outcome == TaskCompletedOutcome {
      ReachesWorkAppend(run.trace, RunCycles(ctx, run.exit.result.state, |ctx.spec.tasks| + 1, 1, run.turns).trace);
    }
  }

  /**
   * Main theorem. A start from any readable file whatever: its fate decides what it writes,
   * exactly when it raises INVALID_STATE, DEPENDENCY_BLOCKED or INVALID_TRANSITION, and exactly
   * when it reaches a Codex turn or final verification; it never reaches the loop bound and
   * raises no other error of its own than a refused report.
   */
  lemma StartIsClassified(ctx: Context, file: StateFile)
    requires WellFormedSpec(ctx.spec) && Readable(file) && ctx.persist
    ensures
      var run, fate, s := Start(ctx, file), FateOf(ctx.spec, file), StartState(ctx.spec, file);
      && (fate.IsRefused? ==> run.trace == [])
      && (fate.Crashes? ==> run == UnitRun(UnitRaised(External(UNDECODABLE)), []))
      && (fate.IsBlocked? ==> run.trace == [Persisted(file.state)])
      && (fate.Fails? ==> run.trace == [Persisted(s)])
      && (fate.Works? ==> run.trace != [] && run.trace[0] == Persisted(s))
      && (run.exit.UnitRaised? ==>
            run.exit.error.External? || run.exit.error == InvalidWorkUnitReport || fate == Fails(run.exit.error))
      && (fate.Fails? && Undisturbed(ctx, 0) ==> run.exit == UnitRaised(fate.error))
      && (ReachesWork(run.trace) ==> fate.Works?)
      && (fate.Works? && CleanStart(ctx) ==> ReachesWork(run.trace))
  {
    hide RunCycles, StartError, PreparePersistedState, SchemaValid, ReportFromReconcile, ReportFromPreparationError, Traced;
    var fate := FateOf(ctx.spec, file);
    if Proceeds(fate) {
      var s := StartState(ctx.spec, file);
      StartProceeds(ctx, file);
      BoundSuffices(ctx.spec, s);
      LoopFrom(ctx, s, |ctx.spec.tasks| + 2, 0, 0);
      var rest := RunCycles(ctx, s, |ctx.spec.tasks| + 2, 0, 0);
      ReachesWorkAppend([Persisted(s)], rest.trace);
      assert [Persisted(s)] + [] == [Persisted(s)];
      if fate.Works? && CleanStart(ctx) { WorkingLoop(ctx, s); }
    } else {
      if file.Stored? { PreparationIsExact(ctx.spec, file.state); }
      BlockedReports(ctx.spec, file);
    }
  }

  lemma BlockedReports(spec: TaskSpec, file: StateFile)
    ensures forall s, reason :: ReportFromReconcile(spec, s, reason).UnitRaised? ==>
              ReportFromReconcile(spec, s, reason).error == InvalidWorkUnitReport
    ensures forall s, code :: ReportFromPreparationError(spec, s, code).UnitRaised? ==>
              ReportFromPreparationError(spec, s, code).error == InvalidWorkUnitReport
  {
  }

  /** The state and the code that a refused start reports. */
  function RefusedState(spec: TaskSpec, file: StateFile): State {
    if file.Stored? then file.state else NewExecutionState(spec)
  }

  function RefusedCode(spec: TaskSpec, file: StateFile): Option<string> {
    match file
    case NotRegular => Some(STATE_TAMPERED)
    case Unreadable(code) => code
    case Undecodable => None
    case Stored(s) => Some(if s.taskId != spec.id then "UNSAFE_RECONCILE" else "STATE_BRANCH_MISMATCH")
    case NoFile => None
  }

  /**
   * When the report is accepted by its validator: a refused start's, if and only if the completed
   * tasks it copies from the file are distinct and its code is not empty; a blocked start's, if and
   * only if they are distinct tasks of the spec; a working start's only if they are distinct.
   */
  lemma ReportAcceptedIff(ctx: Context, file: StateFile)
    requires WellFormedSpec(ctx.spec) && Readable(file) && ctx.persist
    ensures
      var run, fate := Start(ctx, file), FateOf(ctx.spec, file);
      && (fate.IsRefused? ==>
            && (run.exit.Reported? <==>
                  Distinct(RefusedState(ctx.spec, file).completedTasks) && RefusedCode(ctx.spec, file) != Some(""))
            && (run.exit.UnitRaised? ==> run.exit.error == InvalidWorkUnitReport)
            && (run.exit.Reported? ==> ValidReport(run.exit.report, None)))
      && (fate.IsBlocked? ==>
            && (run.exit.Reported? <==>
                  Distinct(file.state.completedTasks) && forall x :: x in file.state.completedTasks ==> x in Ids(ctx.spec.tasks))
            && (run.exit.UnitRaised? ==> run.exit.error == InvalidWorkUnitReport)
            && (run.exit.Reported? ==> ValidReport(run.exit.report, Some(ctx.spec)) && run.exit.report.state == file.state))
      && (Proceeds(fate) && run.exit.Reported? ==> Distinct(StartState(ctx.spec, file).completedTasks))
      && (Proceeds(fate) && run.exit == UnitRaised(InvalidWorkUnitReport) ==>
            !Distinct(StartState(ctx.spec, file).completedTasks))
  {
    hide RunCycles, StartError, PreparePersistedState, SchemaValid, Traced;
    var fate := FateOf(ctx.spec, file);
    if Proceeds(fate) {
      var s := StartState(ctx.spec, file);
      StartProceeds(ctx, file);
      BoundSuffices(ctx.spec, s);
      LoopFrom(ctx, s, |ctx.spec.tasks| + 2, 0, 0);
      StartErrorIs(ctx.spec, s);
    } else {
      if file.Stored? { PreparationIsExact(ctx.spec, file.state); }
      if fate.IsBlocked? {
        ReconcileReportIff(ctx.spec, file.state, PreparePersistedState(ctx.spec, file.state).reason);
      } else {
        PreparationReportIff(ctx.spec, RefusedState(ctx.spec, file), RefusedCode(ctx.spec, file));
      }
    }
  }

  lemma StartErrorIs(spec: TaskSpec, s: State)
    ensures StartError(spec, s) != Some(InvalidWorkUnitReport)
  {
  }

  lemma ReconcileReportIff(spec: TaskSpec, s: State, reason: string)
    requires SameUnit(spec, s) && Blocking(s.status)
    ensures
      var exit := ReportFromReconcile(spec, s, reason);
      && (exit.Reported? <==> Distinct(s.completedTasks) && forall x :: x in s.completedTasks ==> x in Ids(spec.tasks))
      && (exit.UnitRaised? ==> exit.error == InvalidWorkUnitReport)
      && (exit.Reported? ==> ValidReport(exit.report, Some(spec)) && exit.report.state == s)
  {
  }

  /** A preparation error's report, for any state and code it may be made from. */
  lemma PreparationReportIff(spec: TaskSpec, s: State, code: Option<string>)
    requires code == Some(STATE_TAMPERED) ==> s == NewExecutionState(spec)
    ensures
      var exit := ReportFromPreparationError(spec, s, code);
      && (exit.Reported? <==> Distinct(s.completedTasks) && code != Some(""))
      && (exit.UnitRaised? ==> exit.error == InvalidWorkUnitReport)
      && (exit.Reported? ==> ValidReport(exit.report, None) && exit.report.state == s && exit.report.code == code)
  {
  }

  /** A readable file of another unit that lists a completed task twice: the start raises instead of reporting. */
  lemma RepeatedTaskIsNotReported(ctx: Context, s: State, task: string)
    requires WellFormedSpec(ctx.spec) && ctx.persist && SchemaValid(s) && IsTaskId(task)
    requires s.taskId != ctx.spec.id && s.completedTasks == [task, task]
    ensures SchemaValid(s) && Start(ctx, Stored(s)) == UnitRun(UnitRaised(InvalidWorkUnitReport), [])
  {
    hide ReportFromPreparationError;
    PreparationIsExact(ctx.spec, s);
    PreparationReportIff(ctx.spec, s, Some("UNSAFE_RECONCILE"));
    assert !Distinct(s.completedTasks) by { assert s.completedTasks[0] == s.completedTasks[1]; }
  }

  // ---------- Two starts in a row ----------

  /** The state file after a run was cut off: the last state written, if any. */
  function FileAfter(file: StateFile, trace: seq<Event>): StateFile {
    if trace == [] then file
    else
      var last := trace[|trace| - 1];
      if last.Persisted? then Stored(last.state) else FileAfter(file, trace[..|trace| - 1])
  }

  /** What the file holds after a start that wrote `s` first. */
  lemma {:induction false} FileStarts(file: StateFile, s: State, rest: seq<Event>)
    ensures FileAfter(file, [Persisted(s)] + rest) == Stored(LastState(s, rest))
    decreases |rest|
  {
    if rest != [] {
      assert ([Persisted(s)] + rest)[..|rest|] == [Persisted(s)] + rest[..|rest| - 1];
      FileStarts(file, s, rest[..|rest| - 1]);
    }
  }

  /**
   * Main theorem. A start from any readable file writes nothing or first the state it starts
   * from. From then on every write follows the transition table and counts its repair or its
   * completion, Codex runs only on the task the file shows as IMPLEMENTING and at most three
   * times between two such writes, final verification runs only while the file shows
   * FINAL_VALIDATING, and an untampered report is about the state the file then holds.
   */
  lemma StartWritesAhead(ctx: Context, file: StateFile)
    requires WellFormedSpec(ctx.spec) && Readable(file) && ctx.persist
    ensures
      var run := Start(ctx, file);
      && (run.trace == [] <==> FateOf(ctx.spec, file).IsRefused? || FateOf(ctx.spec, file).Crashes?)
      && (run.trace != [] ==>
            && run.trace[0].Persisted?
            && Traced(run.trace[0].state, run.trace, 3)
            && (run.exit.Reported? ==>
                  run.exit.report.code == Some(STATE_TAMPERED) || FileAfter(file, run.trace) == Stored(run.exit.report.state)))
  {
    hide RunCycles, StartError, SchemaValid, Traced, ReachesWork, LastState, Start, StartState, FileAfter, LoopEnds, Missing;
    StartIsClassified(ctx, file);
    var fate, run := FateOf(ctx.spec, file), Start(ctx, file);
    if Proceeds(fate) {
      var s := StartState(ctx.spec, file);
      StartProceeds(ctx, file);
      BoundSuffices(ctx.spec, s);
      LoopFrom(ctx, s, |ctx.spec.tasks| + 2, 0, 0);
      var rest := RunCycles(ctx, s, |ctx.spec.tasks| + 2, 0, 0);
      TracedAfter(s, Persisted(s), 3, rest.trace);
      FileStarts(file, s, rest.trace);
    } else if fate.IsBlocked? {
      ReportAcceptedIff(ctx, file);
      NothingWritten(file.state, 3);
      TracedAfter(file.state, Persisted(file.state), 3, []);
      assert [Persisted(file.state)] + [] == [Persisted(file.state)];
      FileStarts(file, file.state, []);
    }
  }

  /** A FAILED file on which the retry fails but the start after it works. */
  ghost predicate Recovers(spec: TaskSpec, file: StateFile) {
    && file.Stored? && SameUnit(spec, file.state) && file.state.status == Failed
    && FateOf(spec, Stored(file.state.(status := Running))).Works?
  }

  /** The files from which starts get back to work without help. */
  ghost predicate CanWork(spec: TaskSpec, file: StateFile) {
    FateOf(spec, file).Works? || Recovers(spec, file)
  }

  /** What a start that reaches no work leaves in the file. */
  lemma IdleStartLeaves(ctx: Context, file: StateFile)
    requires WellFormedSpec(ctx.spec) && Readable(file) && ctx.persist && !FateOf(ctx.spec, file).Works?
    ensures
      var after := FileAfter(file, Start(ctx, file).trace);
      && Readable(after)
      && after == (if FateOf(ctx.spec, file).Fails? then Stored(Resumed(ctx.spec, file.state)) else file)
      && (FateOf(ctx.spec, file).Fails? && file.state.status == Failed ==>
            after == Stored(file.state.(status := Running)) && (CanWork(ctx.spec, after) <==> FateOf(ctx.spec, after).Works?))
      && (!(FateOf(ctx.spec, file).Fails? && file.state.status == Failed) ==> FateOf(ctx.spec, after) == FateOf(ctx.spec, file))
  {
    hide StartError, SchemaValid, Start, Resumed, Blocking;
    StartIsClassified(ctx, file);
    if FateOf(ctx.spec, file).Fails? {
      FailingIsStored(ctx.spec, file);
      ResumedIsResumable(ctx.spec, file.state);
      ResumedTwice(ctx.spec, file.state);
      RetriedIsRunning(ctx.spec, file.state);
    }
  }

  lemma FailingIsStored(spec: TaskSpec, file: StateFile)
    requires WellFormedSpec(spec) && FateOf(spec, file).Fails?
    ensures file.Stored? && SameUnit(spec, file.state) && !Blocking(file.state.status) && file.state.status != PrCreated
  {
    hide StartError;
    FreshStart(spec);
  }

  lemma RetriedIsRunning(spec: TaskSpec, s: State)
    ensures s.status == Failed ==> Resumed(spec, s) == s.(status := Running)
  {
  }

  /**
   * Two clean starts from any readable file: one of them reaches work if and only if the file
   * works at once, or is a FAILED one whose retry leaves a file that does.
   */
  lemma TwoStartsReachWorkIff(first: Context, second: Context, file: StateFile)
    requires WellFormedSpec(first.spec) && second.spec == first.spec && first.persist && second.persist && Readable(file)
    requires CleanStart(first) && CleanStart(second)
    ensures
      var run := Start(first, file);
      ReachesWork(run.trace) || ReachesWork(Start(second, FileAfter(file, run.trace)).trace) <==> CanWork(first.spec, file)
  {
    hide Start, StartError, ReachesWork, SchemaValid;
    StartIsClassified(first, file);
    if !FateOf(first.spec, file).Works? {
      IdleStartLeaves(first, file);
      var after := FileAfter(file, Start(first, file).trace);
      StartIsClassified(second, after);
      if Recovers(first.spec, file) { RecoversFails(first.spec, file); }
    }
  }

  lemma RecoversFails(spec: TaskSpec, file: StateFile)
    requires Recovers(spec, file)
    ensures FateOf(spec, file).Fails? || FateOf(spec, file).Works?
  {
  }

  /** From any other file no number of starts, in whatever environment, ever reaches work. */
  lemma {:induction false} OtherwiseNeverWorks(spec: TaskSpec, starts: seq<Context>, file: StateFile)
    requires WellFormedSpec(spec) && Readable(file) && !CanWork(spec, file)
    requires forall i :: 0 <= i < |starts| ==> starts[i].spec == spec && starts[i].persist
    ensures forall i :: 0 <= i < |starts| ==> !ReachesWork(Start(starts[i], FileBefore(file, starts, i)).trace)
    ensures Readable(FileBefore(file, starts, |starts|)) && !CanWork(spec, FileBefore(file, starts, |starts|))
  {
    hide Start, StartError, ReachesWork, SchemaValid, CanWork;
    if starts != [] {
      var n := |starts| - 1;
      OtherwiseNeverWorks(spec, starts[..n], file);
      FileBeforePrefix(file, starts, n, n);
      var now := FileBefore(file, starts, n);
      StillCannotWork(starts[n], now);
      forall i | 0 <= i < |starts| ensures !ReachesWork(Start(starts[i], FileBefore(file, starts, i)).trace) {
        if i < n { FileBeforePrefix(file, starts, i, n); }
      }
    }
  }

  lemma StillCannotWork(ctx: Context, file: StateFile)
    requires WellFormedSpec(ctx.spec) && ctx.persist && Readable(file) && !CanWork(ctx.spec, file)
    ensures !ReachesWork(Start(ctx, file).trace)
    ensures Readable(FileAfter(file, Start(ctx, file).trace)) && !CanWork(ctx.spec, FileAfter(file, Start(ctx, file).trace))
  {
    hide Start, StartError, ReachesWork, SchemaValid;
    StartIsClassified(ctx, file);
    IdleStartLeaves(ctx, file);
  }

  /** The file before start `i` of a row of starts. */
  ghost function FileBefore(file: StateFile, starts: seq<Context>, i: nat): StateFile
    requires i <= |starts| && forall k :: 0 <= k < |starts| ==> starts[k].spec.tasks != []
  {
    if i == 0 then file
    else
      var before := FileBefore(file, starts, i - 1);
      FileAfter(before, Start(starts[i - 1], before).trace)
  }

  lemma {:induction false} FileBeforePrefix(file: StateFile, starts: seq<Context>, i: nat, n: nat)
    requires i <= n <= |starts| && forall k :: 0 <= k < |starts| ==> starts[k].spec.tasks != []
    ensures FileBefore(file, starts[..n], i) == FileBefore(file, starts, i)
  {
    hide Start, FileAfter;
    if i > 0 { FileBeforePrefix(file, starts, i - 1, n); }
  }
}
