/**
 * Histories of starts that share nothing but the state file. Each start may be killed after any
 * event, and whoever runs inside it, Codex above all, may leave any file at the path.
 */
module Histories {
  import opened Wrappers
  import opened TaskGraph
  import opened ExecutionState
  import opened Select
  import opened Cycle
  import opened CycleProofs
  import opened WorkUnit
  import opened WorkUnitProofs
  import opened Durability
  import opened AnyStart
  import opened Starts

  /**
   * A start with persistence that stopped after `cut` of its events; `left` is the file that
   * someone else then left at the path, if anyone touched it after the last write.
   */
  datatype PastStart = PastStart(requireCleanWorktree: bool, oracle: Oracle, cut: nat, left: Option<StateFile>)

  function ContextOf(spec: TaskSpec, past: PastStart): Context {
    Context(spec, true, past.requireCleanWorktree, past.oracle)
  }

  /** The events that happened. */
  ghost function EventsOf(spec: TaskSpec, past: PastStart, file: StateFile): seq<Event>
    requires spec.tasks != []
  {
    var trace := Start(ContextOf(spec, past), file).trace;
    if past.cut < |trace| then trace[..past.cut] else trace
  }

  /** The file that a history of starts leaves behind. */
  ghost function LeftBehind(spec: TaskSpec, history: seq<PastStart>): StateFile
    requires spec.tasks != []
  {
    if history == [] then NoFile
    else
      var n := |history| - 1;
      var file := LeftBehind(spec, history[..n]);
      if history[n].left.Some? then history[n].left.value
      else FileAfter(file, EventsOf(spec, history[n], file))
  }

  /** Nobody touched the file but the starts themselves. */
  predicate Untouched(history: seq<PastStart>) {
    forall i :: 0 <= i < |history| ==> history[i].left.None?
  }

  // ---------- Safety ----------

  /** Every state a start writes is sound, if the file it found was. */
  lemma StartWritesSound(ctx: Context, file: StateFile)
    requires WellFormedSpec(ctx.spec) && SoundFile(ctx.spec, file) && ctx.persist
    ensures forall i :: 0 <= i < |Start(ctx, file).trace| && Start(ctx, file).trace[i].Persisted? ==>
              StateInv(ctx.spec, Start(ctx, file).trace[i].state)
  {
    hide Start, StateInv, AllDone;
    if file.NoFile? {
      FreshStartIsSafe(ctx);
    } else if file.state.status == Failed && AllDone(ctx.spec, file.state) {
      StuckStart(ctx, file.state);
    } else {
      StartPost(ctx, file.state);
    }
  }

  lemma {:induction false} FileAfterSound(spec: TaskSpec, file: StateFile, trace: seq<Event>)
    requires SoundFile(spec, file)
    requires forall i :: 0 <= i < |trace| && trace[i].Persisted? ==> StateInv(spec, trace[i].state)
    ensures SoundFile(spec, FileAfter(file, trace))
  {
    if trace != [] { FileAfterSound(spec, file, trace[..|trace| - 1]); }
  }

  /**
   * Safety over every history: as long as what others leave at the path is sound, and in
   * particular while nobody touches it, every file left behind satisfies the state invariant.
   */
  lemma {:induction false} LeftBehindIsSound(spec: TaskSpec, history: seq<PastStart>)
    requires WellFormedSpec(spec)
    requires forall i :: 0 <= i < |history| && history[i].left.Some? ==> SoundFile(spec, history[i].left.value)
    ensures SoundFile(spec, LeftBehind(spec, history))
  {
    hide Start, StateInv;
    if history != [] {
      var n := |history| - 1;
      LeftBehindIsSound(spec, history[..n]);
      var file := LeftBehind(spec, history[..n]);
      StartWritesSound(ContextOf(spec, history[n]), file);
      FileAfterSound(spec, file, EventsOf(spec, history[n], file));
    }
  }

  lemma {:induction false} FileAfterReadable(file: StateFile, trace: seq<Event>)
    requires Readable(file) && forall i :: 0 <= i < |trace| && trace[i].Persisted? ==> SchemaValid(trace[i].state)
    ensures Readable(FileAfter(file, trace))
  {
    hide SchemaValid;
    if trace != [] { FileAfterReadable(file, trace[..|trace| - 1]); }
  }

  /** Whatever the starts themselves write is readable, so only others can leave a file that is not. */
  lemma {:induction false} LeftBehindIsReadable(spec: TaskSpec, history: seq<PastStart>)
    requires WellFormedSpec(spec) && LeftReadable(history)
    ensures Readable(LeftBehind(spec, history))
  {
    hide Start, SchemaValid, FileAfter;
    if history != [] {
      var n := |history| - 1;
      LeftBehindIsReadable(spec, history[..n]);
      var file := LeftBehind(spec, history[..n]);
      StartWritesReadable(ContextOf(spec, history[n]), file);
      FileAfterReadable(file, EventsOf(spec, history[n], file));
    }
  }

  /** What others left at the path can be read. */
  predicate LeftReadable(history: seq<PastStart>) {
    forall i :: 0 <= i < |history| && history[i].left.Some? ==> Readable(history[i].left.value)
  }

  lemma StartWritesReadable(ctx: Context, file: StateFile)
    requires WellFormedSpec(ctx.spec) && Readable(file) && ctx.persist
    ensures forall i :: 0 <= i < |Start(ctx, file).trace| && Start(ctx, file).trace[i].Persisted? ==>
              SchemaValid(Start(ctx, file).trace[i].state)
  {
    hide Start, SchemaValid;
    StartWritesAhead(ctx, file);
    var trace := Start(ctx, file).trace;
    if trace != [] { WritesAreValid(trace[0].state, trace); }
  }

  lemma {:induction false} WritesAreValid(s: State, trace: seq<Event>)
    requires WritesAhead(s, trace)
    ensures forall i :: 0 <= i < |trace| && trace[i].Persisted? ==> SchemaValid(trace[i].state)
    decreases |trace|
  {
    hide SchemaValid;
    if trace != [] {
      var n := |trace| - 1;
      WritesAreValid(s, trace[..n]);
      assert forall i :: 0 <= i < n ==> trace[..n][i] == trace[i];
    }
  }

  lemma SoundIsReadable(spec: TaskSpec, file: StateFile)
    requires SoundFile(spec, file)
    ensures Readable(file)
  {
  }

  // ---------- Progress ----------

  /** A sound file works, recovers in two starts, or is blocked for a human. */
  lemma SoundCanWork(spec: TaskSpec, file: StateFile)
    requires WellFormedSpec(spec) && SoundFile(spec, file)
    ensures CanWork(spec, file) <==> !(file.Stored? && Blocked(file.state))
    ensures !(file.Stored? && file.state.status == Failed && AllDone(spec, file.state)) ==>
              (FateOf(spec, file).Works? <==> !(file.Stored? && Blocked(file.state)))
  {
    FreshStart(spec);
    if file.Stored? && !Blocked(file.state) {
      SoundResumes(spec, file.state);
    }
  }

  lemma SoundResumes(spec: TaskSpec, s: State)
    requires WellFormedSpec(spec) && StateInv(spec, s) && !Blocked(s)
    ensures
      var p := Resumed(spec, s);
      && KnownTasks(spec, p) && !CurrentWaits(spec, p)
      && (StartError(spec, p).Some? <==> s.status == Failed && AllDone(spec, s))
      && (s.status == Failed && AllDone(spec, s) ==> StartError(spec, Resumed(spec, s.(status := Running))).None?)
  {
    PreparationKeeps(spec, s);
    assert spec.tasks[0] in spec.tasks;
    var p := Resumed(spec, s);
    if CurrentOpen(p) {
      var t :| t in spec.tasks && t.id == p.currentTask.value && Ready(t, Done(p));
      var k :| 0 <= k < |spec.tasks| && spec.tasks[k] == t;
      assert Ids(spec.tasks)[k] == t.id;
      forall x | x in spec.tasks && x.id == p.currentTask.value ensures x == t { SameIdSameTask(spec.tasks, x, t); }
    }
  }

  /**
   * Progress: whatever file any history leaves behind, tampering included, two clean starts reach
   * a Codex turn or final verification if and only if the file can work.
   */
  lemma TwoStartsReachWork(spec: TaskSpec, history: seq<PastStart>, first: Context, second: Context)
    requires WellFormedSpec(spec) && first.spec == spec && second.spec == spec && first.persist && second.persist
    requires CleanStart(first) && CleanStart(second) && Readable(LeftBehind(spec, history))
    ensures
      var file := LeftBehind(spec, history);
      var run := Start(first, file);
      && (ReachesWork(run.trace) || ReachesWork(Start(second, FileAfter(file, run.trace)).trace) <==> CanWork(spec, file))
      && (Untouched(history) ==> (CanWork(spec, file) <==> !(file.Stored? && Blocked(file.state))))
  {
    hide Start, LeftBehind, CanWork, ReachesWork, StateInv;
    TwoStartsReachWorkIff(first, second, LeftBehind(spec, history));
    if Untouched(history) {
      LeftBehindIsSound(spec, history);
      SoundCanWork(spec, LeftBehind(spec, history));
    }
  }

  // ---------- A tampered file ----------

  /** One Codex turn that changes the state file, and the file it leaves. */
  function TamperingTurn(): TurnObservation {
    TurnObservation(None, Regular(0), CodexExited(0, false, AgentRepairable), Regular(1), Regular(1), ScopeAllowed,
                    ValidationRaised(""))
  }

  function TamperedBy(left: StateFile): PastStart {
    PastStart(true,
      Oracle(_ => Started(Absent, false), _ => TamperingTurn(), _ => ValidationRaised(""), _ => true),
      100, Some(left))
  }

  /** A state that the schema accepts and no cycle does: its open task is not one of the spec's. */
  function StrandedState(spec: TaskSpec, task: string): State {
    NewExecutionState(spec).(status := TaskCompleted, currentTask := Some(task))
  }

  /**
   * The counterexample for tampered turns: a turn that leaves an unknown open task in the file is
   * reported as tampered, yet every later start raises INVALID_STATE, and none ever reaches work.
   */
  lemma {:induction false} TamperingStrands(spec: TaskSpec, task: string, starts: seq<Context>)
    requires WellFormedSpec(spec) && IsTaskId(task) && task !in Ids(spec.tasks)
    requires forall i :: 0 <= i < |starts| ==> starts[i].spec == spec && starts[i].persist
    ensures
      var past := TamperedBy(Stored(StrandedState(spec, task)));
      var file := LeftBehind(spec, [past]);
      var tampered := Start(ContextOf(spec, past), NoFile).exit;
      && tampered.Reported? && tampered.report.code == Some(STATE_TAMPERED)
      && file == Stored(StrandedState(spec, task)) && Readable(file)
      && FateOf(spec, file) == Fails(InvalidState)
      && (forall i :: 0 <= i < |starts| ==> !ReachesWork(Start(starts[i], FileBefore(file, starts, i)).trace))
      && (starts != [] && Undisturbed(starts[0], 0) ==> Start(starts[0], file).exit == UnitRaised(InvalidState))
  {
    var s := StrandedState(spec, task);
    var past := TamperedBy(Stored(s));
    assert LeftBehind(spec, [past]) == Stored(s);
    assert CurrentOpen(s) && !KnownTasks(spec, s);
    assert FateOf(spec, Stored(s)) == Fails(InvalidState);
    TamperedIsReported(spec, past);
    OtherwiseNeverWorks(spec, starts, Stored(s));
    if starts != [] { StartIsClassified(starts[0], Stored(s)); }
  }

  lemma TamperedIsReported(spec: TaskSpec, past: PastStart)
    requires WellFormedSpec(spec)
    requires past.oracle.start(0) == Started(Absent, false) && past.oracle.turn(0) == TamperingTurn()
    ensures var exit := Start(ContextOf(spec, past), NoFile).exit;
            exit.Reported? && exit.report.code == Some(STATE_TAMPERED)
  {
    hide SelectNextTask, SchemaValid, ReportFromCycle, EnterImplementing;
    var ctx, s := ContextOf(spec, past), NewExecutionState(spec);
    FreshCheckpoint(spec);
    SelectFromCheckpoint(spec, s);
    assert spec.tasks[0] in spec.tasks;
    var task := SelectNextTask(spec, s).value.value;
    EnterFromCheckpoint(spec, s, task);
    var t := EnterImplementing(s, task).value;
    var run := InvokeCodexTurn(ctx, task, t, 0, 0);
    TamperedPost(ctx, task, t, 3, 1);
    assert run.exit == StateTamperedResult(task, t, 1).exit;
    ReportAccepted(spec, run.exit.result);
    ReportedCode(spec, run.exit.result);
    assert RunTaskCycle(ctx, s, 0, 0).exit == run.exit;
  }

  lemma ReportedCode(spec: TaskSpec, last: CycleResult)
    ensures ReportFromCycle(spec, last).Reported? ==> ReportFromCycle(spec, last).report.code == last.code
  {
  }

  // ---------- A complete FAILED work unit ----------

  /** Codex succeeds in scope, and validation passes. */
  function AcceptedTurn(): TurnObservation {
    TurnObservation(None, Absent, CodexExited(0, false, AgentRepairable), Absent, Absent, ScopeAllowed,
                    ValidationRan([ValidationRecord("true", true, AgentRepairable)]))
  }

  /** Every task is accepted at once, and the environment fails final verification; the cut is set where it is used. */
  function FailsAtTheEnd(): PastStart {
    PastStart(true,
      Oracle(_ => Started(Absent, false), _ => AcceptedTurn(),
             _ => ValidationRan([ValidationRecord("false", false, EnvironmentFailure)]), _ => true),
      0, None)
  }

  ghost predicate Accepting(ctx: Context) {
    ctx.persist && ctx.oracle == FailsAtTheEnd().oracle
  }

  lemma AcceptedTask(ctx: Context, task: SpecTask, t: State, n: nat)
    requires Accepting(ctx) && Turning(ctx.spec, task, t) && t.status == Implementing
    ensures
      var exit := InvokeCodexTurn(ctx, task, t, 0, n).exit;
      exit.Returned? && exit.result.outcome == TaskCompletedOutcome
  {
    hide InvokeCodexTurn, SchemaValid;
    var v := t.(status := Validating);
    TurningMoves(ctx.spec, task, t, Validating, Keep, Keep);
    assert ApplyTransition(t, Validating, currentTask := To(Some(task.id))) == Ok(v);
    AcceptedValidation(ctx, task, v, n);
    assert AfterCodex(ctx, task, t, 0, n).exit == ValidateAndMaybeRepair(ctx, task, v, n).exit;
    AcceptedInvocation(ctx, task, t, n);
  }

  lemma AcceptedInvocation(ctx: Context, task: SpecTask, t: State, n: nat)
    requires Accepting(ctx)
    ensures InvokeCodexTurn(ctx, task, t, 0, n).exit == AfterCodex(ctx, task, t, 0, n).exit
  {
    hide AfterCodex;
  }

  lemma AcceptedValidation(ctx: Context, task: SpecTask, v: State, n: nat)
    requires Accepting(ctx) && Turning(ctx.spec, task, v) && v.status == Validating
    ensures
      var exit := ValidateAndMaybeRepair(ctx, task, v, n).exit;
      exit.Returned? && exit.result.outcome == TaskCompletedOutcome
  {
    hide InvokeCodexTurn;
  }

  /** A cycle of such a start completes a task, or ends FAILED when none is left. */
  lemma AcceptingCycle(ctx: Context, s: State, c: nat, n: nat)
    requires WellFormedSpec(ctx.spec) && Accepting(ctx) && OfUnit(ctx.spec, s) && Resumable(s.status)
    requires StartError(ctx.spec, s).None?
    ensures
      var exit := RunTaskCycle(ctx, s, c, n).exit;
      && exit.Returned?
      && (!NothingLeft(ctx.spec, s) ==> exit.result.outcome == TaskCompletedOutcome)
      && (NothingLeft(ctx.spec, s) ==>
            exit.result.outcome == FailedOutcome && exit.result.code.None? && exit.result.state.status == Failed)
  {
    hide InvokeCodexTurn, FinalVerifyIfReady, SelectNextTask, EnterImplementing, KnownTasks, CurrentWaits, NothingLeft, Turning,
         SchemaValid;
    SelectIs(ctx.spec, s);
    var selected := SelectNextTask(ctx.spec, s).value;
    if selected.None? {
      FailingVerification(ctx, s, c, n);
    } else {
      var task := selected.value;
      var k :| 0 <= k < |ctx.spec.tasks| && ctx.spec.tasks[k] == task;
      TaskIdsAreIds(ctx.spec, k);
      EnterFrom(ctx.spec, s, task);
      AcceptedTask(ctx, task, EnterImplementing(s, task).value, n);
    }
  }

  lemma TaskIdsAreIds(spec: TaskSpec, k: nat)
    requires WellFormedSpec(spec) && k < |spec.tasks|
    ensures IsTaskId(spec.tasks[k].id)
  {
  }

  lemma FailingVerification(ctx: Context, s: State, c: nat, n: nat)
    requires Accepting(ctx) && OfUnit(ctx.spec, s) && s.status in {TaskCompleted, FinalValidating}
    ensures
      var exit := FinalVerifyIfReady(ctx, s, c, n).exit;
      && exit.Returned? && exit.result.outcome == FailedOutcome && exit.result.code.None? && exit.result.state.status == Failed
  {
  }

  lemma {:induction false} AcceptingLoop(ctx: Context, s: State, fuel: nat, c: nat, n: nat)
    requires WellFormedSpec(ctx.spec) && Accepting(ctx) && OfUnit(ctx.spec, s) && Resumable(s.status)
    requires StartError(ctx.spec, s).None? && Distinct(s.completedTasks) && fuel > |Missing(ctx.spec, s)|
    ensures
      var exit := RunCycles(ctx, s, fuel, c, n).exit;
      && exit.Reported? && exit.report.code.None? && exit.report.state.status == Failed && AllDone(ctx.spec, exit.report.state)
    decreases fuel
  {
    hide RunTaskCycle, ReportFromCycle, KnownTasks, CurrentWaits, Kept, SchemaValid, ValidCycleResult, Missing, Accepting;
    CycleFrom(ctx, s, c, n) by { AcceptingPersists(ctx); }
    AcceptingCycle(ctx, s, c, n);
    ReturnedIsKnown(ctx, s, c, n);
    var run := RunTaskCycle(ctx, s, c, n);
    var last := run.exit.result;
    if last.outcome == TaskCompletedOutcome {
      NextCycle(ctx.spec, s, last.state);
      SmallerMissing(Missing(ctx.spec, last.state), Missing(ctx.spec, s));
      AcceptingLoop(ctx, last.state, fuel - 1, c + 1, run.turns);
    } else {
      ReportIff(ctx.spec, s, last);
    }
  }

  lemma AcceptingPersists(ctx: Context)
    requires Accepting(ctx)
    ensures ctx.persist
  {
  }

  /**
   * The counterexample: for every accepted spec there is a start that leaves its work unit FAILED
   * with every task completed, and the next start raises INVALID_TRANSITION.
   */
  lemma FailedUnitIsReachable(spec: TaskSpec, cut: nat, next: Context)
    requires WellFormedSpec(spec) && next.spec == spec && next.persist && Undisturbed(next, 0)
    requires cut >= |Start(ContextOf(spec, FailsAtTheEnd()), NoFile).trace|
    ensures
      var file := LeftBehind(spec, [FailsAtTheEnd().(cut := cut)]);
      && file.Stored? && file.state.status == Failed && AllDone(spec, file.state)
      && Start(next, file).exit == UnitRaised(InvalidTransition)
  {
    hide Start, RunCycles, StartError, FateOf, StateInv, AllDone, FileAfter;
    var past := FailsAtTheEnd().(cut := cut);
    var ctx, s := ContextOf(spec, past), NewExecutionState(spec);
    FreshStart(spec);
    FreshFate(spec);
    StartProceeds(ctx, NoFile);
    BoundSuffices(spec, s);
    AcceptingLoop(ctx, s, |spec.tasks| + 2, 0, 0);
    StartWritesAhead(ctx, NoFile);
    assert EventsOf(spec, past, NoFile) == Start(ctx, NoFile).trace;
    var file := LeftBehind(spec, [past]);
    assert [past][..0] == [];
    LeftBehindIsSound(spec, [past]);
    InvalidTransitionIff(next, file.state);
  }

  lemma FreshFate(spec: TaskSpec)
    requires WellFormedSpec(spec)
    ensures FateOf(spec, NoFile).Works? && StartState(spec, NoFile) == NewExecutionState(spec)
  {
  }
}
