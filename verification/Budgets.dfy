/**
 * Budgets over histories of crashed starts: repairs are conserved except for those that recovery
 * gives back, and what recovery gives back is not bounded.
 */
module Budgets {
  import opened Wrappers
  import opened TaskGraph
  import opened ExecutionState
  import opened Select
  import opened Cycle
  import opened CycleProofs
  import opened WorkUnit
  import opened WorkUnitProofs
  import opened Durability
  import opened AnyStart
  import opened Starts
  import opened Histories

  /** The repair count the file shows. */
  function FileRepairs(file: StateFile): nat {
    if file.Stored? then file.state.repairAttempts else 0
  }

  function FileCompletions(file: StateFile): nat {
    if file.Stored? then |file.state.completedTasks| else 0
  }

  /** What the preparation of one start takes off the file's repair count, if the start got to write. */
  ghost function GivenBackBy(spec: TaskSpec, past: PastStart, file: StateFile): nat
    requires spec.tasks != []
  {
    if EventsOf(spec, past, file) != [] && file.Stored? && BeginsAgain(file.state) then file.state.repairAttempts else 0
  }

  /** Preparation starts from PENDING again: after an interrupted run with nothing completed, or after PR_CREATED. */
  predicate BeginsAgain(s: State) {
    RestartsFromScratch(s) || s.status == PrCreated
  }

  /** What the preparation of one start takes off the file's completed tasks. */
  ghost function ForgottenBy(spec: TaskSpec, past: PastStart, file: StateFile): nat
    requires spec.tasks != []
  {
    if EventsOf(spec, past, file) != [] && file.Stored? && file.state.status == PrCreated then |file.state.completedTasks| else 0
  }

  ghost function Forgotten(spec: TaskSpec, history: seq<PastStart>): nat
    requires spec.tasks != []
  {
    if history == [] then 0
    else
      var n := |history| - 1;
      Forgotten(spec, history[..n]) + ForgottenBy(spec, history[n], LeftBehind(spec, history[..n]))
  }

  /** What others changed of the repair count, by leaving another file than the start did. */
  ghost function OthersRepairs(spec: TaskSpec, history: seq<PastStart>): int
    requires spec.tasks != []
  {
    if history == [] then 0
    else
      var n := |history| - 1;
      var file := LeftBehind(spec, history[..n]);
      OthersRepairs(spec, history[..n])
      + FileRepairs(LeftBehind(spec, history)) - FileRepairs(FileAfter(file, EventsOf(spec, history[n], file)))
  }

  ghost function OthersCompletions(spec: TaskSpec, history: seq<PastStart>): int
    requires spec.tasks != []
  {
    if history == [] then 0
    else
      var n := |history| - 1;
      var file := LeftBehind(spec, history[..n]);
      OthersCompletions(spec, history[..n])
      + FileCompletions(LeftBehind(spec, history)) - FileCompletions(FileAfter(file, EventsOf(spec, history[n], file)))
  }

  /** The repairs that recovery gave back over a history. */
  ghost function GivenBack(spec: TaskSpec, history: seq<PastStart>): nat
    requires spec.tasks != []
  {
    if history == [] then 0
    else
      var n := |history| - 1;
      GivenBack(spec, history[..n]) + GivenBackBy(spec, history[n], LeftBehind(spec, history[..n]))
  }

  function RepairsIn(trace: seq<Event>): nat {
    if trace != [] && trace[0].Persisted? then Repairs(trace[0].state, trace) else 0
  }

  function CompletionsIn(trace: seq<Event>): nat {
    if trace != [] && trace[0].Persisted? then Completions(trace[0].state, trace) else 0
  }

  /** The repair rounds that were started over a history. */
  ghost function RepairsMade(spec: TaskSpec, history: seq<PastStart>): nat
    requires spec.tasks != []
  {
    if history == [] then 0
    else
      var n := |history| - 1;
      RepairsMade(spec, history[..n]) + RepairsIn(EventsOf(spec, history[n], LeftBehind(spec, history[..n])))
  }

  /** The tasks that were completed over a history. */
  ghost function CompletionsMade(spec: TaskSpec, history: seq<PastStart>): nat
    requires spec.tasks != []
  {
    if history == [] then 0
    else
      var n := |history| - 1;
      CompletionsMade(spec, history[..n]) + CompletionsIn(EventsOf(spec, history[n], LeftBehind(spec, history[..n])))
  }

  /** How often Codex was invoked over a history. */
  ghost function CodexMade(spec: TaskSpec, history: seq<PastStart>): nat
    requires spec.tasks != []
  {
    if history == [] then 0
    else
      var n := |history| - 1;
      CodexMade(spec, history[..n]) + CodexCount(EventsOf(spec, history[n], LeftBehind(spec, history[..n])))
  }

  /** The starts that began again from PENDING with an interrupted run's file. */
  ghost function Resets(spec: TaskSpec, history: seq<PastStart>): nat
    requires spec.tasks != []
  {
    if history == [] then 0
    else
      var n := |history| - 1;
      var file := LeftBehind(spec, history[..n]);
      Resets(spec, history[..n]) + if file.Stored? && BeginsAgain(file.state) then 1 else 0
  }

  // ---------- Accounting along one trace ----------

  lemma {:induction false} RepairsAdd(s: State, trace: seq<Event>)
    requires WritesAhead(s, trace)
    ensures LastState(s, trace).repairAttempts == s.repairAttempts + Repairs(s, trace)
    ensures |LastState(s, trace).completedTasks| == |s.completedTasks| + Completions(s, trace)
  {
    if trace != [] { RepairsAdd(s, trace[..|trace| - 1]); }
  }

  lemma {:induction false} TracedPrefix(s: State, trace: seq<Event>, budget: int, k: nat)
    requires Traced(s, trace, budget) && k <= |trace|
    ensures Traced(s, trace[..k], budget)
    decreases |trace|
  {
    if k < |trace| {
      var front := trace[..|trace| - 1];
      TracedPrefix(s, front, budget, k);
      assert front[..k] == trace[..k];
    } else {
      assert trace[..k] == trace;
    }
  }

  lemma {:induction false} FileHoldsLast(file: StateFile, trace: seq<Event>)
    requires trace != [] && trace[0].Persisted?
    ensures FileAfter(file, trace) == Stored(LastState(trace[0].state, trace))
    decreases |trace|
  {
    if |trace| > 1 && !trace[|trace| - 1].Persisted? {
      FileHoldsLast(file, trace[..|trace| - 1]);
    }
  }

  /** The accounts of one start on any readable file, wherever it was cut. */
  lemma StartAccounts(spec: TaskSpec, past: PastStart, file: StateFile)
    requires WellFormedSpec(spec) && Readable(file)
    ensures
      var events := EventsOf(spec, past, file);
      var after := FileAfter(file, events);
      && FileRepairs(after) + GivenBackBy(spec, past, file) == FileRepairs(file) + RepairsIn(events)
      && FileCompletions(after) + ForgottenBy(spec, past, file) == FileCompletions(file) + CompletionsIn(events)
      && CodexCount(events) <= 3 + 3 * (RepairsIn(events) + CompletionsIn(events))
  {
    hide Start, Traced, LastState, SchemaValid, FateOf, StartError;
    var ctx := ContextOf(spec, past);
    var trace, events := Start(ctx, file).trace, EventsOf(spec, past, file);
    StartWritesAhead(ctx, file);
    if events != [] {
      var s := trace[0].state;
      TracedPrefix(s, trace, 3, |events|);
      assert events == trace[..|events|] && events[0] == trace[0];
      TracedAccounts(s, events);
      FileHoldsLast(file, events);
      FirstWrite(ctx, file);
    }
  }

  lemma TracedAccounts(s: State, events: seq<Event>)
    requires Traced(s, events, 3)
    ensures LastState(s, events).repairAttempts == s.repairAttempts + Repairs(s, events)
    ensures |LastState(s, events).completedTasks| == |s.completedTasks| + Completions(s, events)
    ensures CodexCount(events) <= 3 + 3 * (Repairs(s, events) + Completions(s, events))
  {
    RepairsAdd(s, events);
  }

  /** What the first write of a start changes of the accounts. */
  lemma FirstWrite(ctx: Context, file: StateFile)
    requires WellFormedSpec(ctx.spec) && Readable(file) && ctx.persist && Start(ctx, file).trace != []
    ensures
      var e := Start(ctx, file).trace[0];
      && e.Persisted?
      && (|e.state.completedTasks| == if file.Stored? && file.state.status == PrCreated then 0 else FileCompletions(file))
      && e.state.repairAttempts == if file.Stored? && BeginsAgain(file.state) then 0 else FileRepairs(file)
  {
    hide Start, StartError, ReachesWork, SchemaValid;
    StartIsClassified(ctx, file);
  }

  /**
   * Main theorem: over any history of starts, whatever readable files others leave in between, the
   * repairs started and what others added to the count are the repairs the file shows and those
   * preparation gave back; the same for completed tasks; and Codex ran at most three times for each
   * start, each completion and each repair. While only the starts write the file, others added
   * nothing and no completed task is forgotten.
   */
  lemma {:induction false} RepairsAreConserved(spec: TaskSpec, history: seq<PastStart>)
    requires WellFormedSpec(spec) && LeftReadable(history)
    ensures RepairsMade(spec, history) + OthersRepairs(spec, history) == FileRepairs(LeftBehind(spec, history)) + GivenBack(spec, history)
    ensures CompletionsMade(spec, history) + OthersCompletions(spec, history)
         == FileCompletions(LeftBehind(spec, history)) + Forgotten(spec, history)
    ensures CodexMade(spec, history) <= 3 * (|history| + CompletionsMade(spec, history) + RepairsMade(spec, history))
    ensures Untouched(history) ==>
              OthersRepairs(spec, history) == 0 && OthersCompletions(spec, history) == 0 && Forgotten(spec, history) == 0
  {
    hide EventsOf, StateInv, FileAfter, SchemaValid;
    if history != [] {
      var n := |history| - 1;
      RepairsAreConserved(spec, history[..n]);
      LeftBehindIsReadable(spec, history[..n]);
      StartAccounts(spec, history[n], LeftBehind(spec, history[..n]));
      if Untouched(history) {
        LeftBehindIsSound(spec, history[..n]);
        SoundForgetsNothing(spec, history[n], LeftBehind(spec, history[..n]));
      }
    }
  }

  lemma {:induction false} UntouchedConserved(spec: TaskSpec, history: seq<PastStart>)
    requires WellFormedSpec(spec) && Untouched(history)
    ensures RepairsMade(spec, history) == FileRepairs(LeftBehind(spec, history)) + GivenBack(spec, history)
  {
    hide LeftBehind, RepairsMade, GivenBack, OthersRepairs, OthersCompletions, Forgotten, CodexMade, CompletionsMade;
    RepairsAreConserved(spec, history);
  }

  lemma SoundForgetsNothing(spec: TaskSpec, past: PastStart, file: StateFile)
    requires WellFormedSpec(spec) && SoundFile(spec, file)
    ensures ForgottenBy(spec, past, file) == 0
  {
    hide EventsOf;
  }

  lemma {:induction false} GivenBackBound(spec: TaskSpec, history: seq<PastStart>)
    requires WellFormedSpec(spec) && LeftSound(spec, history)
    ensures GivenBack(spec, history) <= spec.repairAttemptLimit * Resets(spec, history)
  {
    hide EventsOf, FileAfter, LinearExtension, CurrentTaskSound;
    if history != [] {
      var n := |history| - 1;
      GivenBackBound(spec, history[..n]);
      LeftBehindIsSound(spec, history[..n]);
      var before, limit := Resets(spec, history[..n]), spec.repairAttemptLimit;
      assert limit * (before + 1) == limit * before + limit;
    }
  }

  /** The total over a history: the limit once, and once more for each reset. */
  lemma {:induction false} HistoryBudget(spec: TaskSpec, history: seq<PastStart>)
    requires WellFormedSpec(spec) && LeftSound(spec, history)
    ensures RepairsMade(spec, history) + OthersRepairs(spec, history) <= spec.repairAttemptLimit + GivenBack(spec, history)
    ensures RepairsMade(spec, history) + OthersRepairs(spec, history) <= spec.repairAttemptLimit * (1 + Resets(spec, history))
    ensures CodexMade(spec, history) + 3 * OthersCompletions(spec, history)
         <= 3 * (|history| + |spec.tasks| + RepairsMade(spec, history))
    ensures Untouched(history) ==> OthersRepairs(spec, history) == 0 && OthersCompletions(spec, history) == 0
  {
    hide LeftBehind, EventsOf;
    SoundIsAllReadable(spec, history);
    RepairsAreConserved(spec, history);
    GivenBackBound(spec, history);
    NothingForgotten(spec, history);
    LeftBehindIsSound(spec, history);
    var file, limit, resets := LeftBehind(spec, history), spec.repairAttemptLimit, Resets(spec, history);
    if file.Stored? { CompletedCount(spec, file.state.completedTasks); }
    assert limit * (1 + resets) == limit + limit * resets;
  }

  /** What others left at the path satisfies the state invariant. */
  ghost predicate LeftSound(spec: TaskSpec, history: seq<PastStart>) {
    forall i :: 0 <= i < |history| && history[i].left.Some? ==> SoundFile(spec, history[i].left.value)
  }

  lemma {:induction false} SoundIsAllReadable(spec: TaskSpec, history: seq<PastStart>)
    requires LeftSound(spec, history)
    ensures LeftReadable(history)
  {
    hide StateInv;
    forall i | 0 <= i < |history| && history[i].left.Some? ensures Readable(history[i].left.value) {
      SoundIsReadable(spec, history[i].left.value);
    }
  }

  lemma {:induction false} NothingForgotten(spec: TaskSpec, history: seq<PastStart>)
    requires WellFormedSpec(spec) && LeftSound(spec, history)
    ensures Forgotten(spec, history) == 0
  {
    hide EventsOf, StateInv, FileAfter;
    if history != [] {
      var n := |history| - 1;
      NothingForgotten(spec, history[..n]);
      LeftBehindIsSound(spec, history[..n]);
      SoundForgetsNothing(spec, history[n], LeftBehind(spec, history[..n]));
    }
  }

  // ---------- A history beyond the limit ----------

  /** Codex succeeds, and validation fails in a way Codex may repair. */
  function RejectedTurn(): TurnObservation {
    TurnObservation(None, Absent, CodexExited(0, false, AgentRepairable), Absent, Absent, ScopeAllowed,
                    ValidationRan([ValidationRecord("false", false, AgentRepairable)]))
  }

  /** A start killed right after it wrote its first repair. */
  function KilledInRepair(): PastStart {
    PastStart(true, Oracle(_ => Started(Absent, false), _ => RejectedTurn(), _ => ValidationRaised(""), _ => true), 5, None)
  }

  function KilledTimes(n: nat): (history: seq<PastStart>)
    ensures |history| == n && Untouched(history)
  {
    if n == 0 then [] else KilledTimes(n - 1) + [KilledInRepair()]
  }

  /** The five events of such a start. */
  predicate RepairedOnce(spec: TaskSpec, p: State, events: seq<Event>) {
    && |events| == 5
    && events[0] == Persisted(p)
    && events[1].Persisted? && events[1].state.status == Implementing
    && events[2].CodexInvoked?
    && events[3].Persisted? && events[3].state.status == Validating
    && events[4].Persisted? && events[4].state.status == Implementing
    && events[4].state.completedTasks == []
    && events[4].state.repairAttempts == p.repairAttempts + 1
    && OfUnit(spec, events[4].state)
  }

  lemma OneRepair(spec: TaskSpec, p: State, events: seq<Event>)
    requires RepairedOnce(spec, p, events) && p.status == Pending
    ensures RepairsIn(events) == 1 && CodexCount(events) == 1
  {
    var e := events;
    assert e[..4] == e[..5][..4] && e[..3] == e[..4][..3] && e[..2] == e[..3][..2] && e[..1] == e[..2][..1] && e[..0] == e[..1][..0];
    assert e[..5] == e;
    assert LastState(p, e[..1]) == p && Repairs(p, e[..1]) == 0;
    assert LastState(p, e[..2]) == e[1].state && Repairs(p, e[..2]) == 0;
    assert LastState(p, e[..3]) == e[1].state && Repairs(p, e[..3]) == 0;
    assert LastState(p, e[..4]) == e[3].state && Repairs(p, e[..4]) == 0;
    OneCodex(events);
  }

  lemma OneCodex(e: seq<Event>)
    requires |e| == 5 && e[0].Persisted? && e[1].Persisted? && e[2].CodexInvoked? && e[3].Persisted? && e[4].Persisted?
    ensures CodexCount(e) == 1
  {
    assert e[1..][1..] == e[2..] && e[2..][1..] == e[3..] && e[3..][1..] == e[4..] && e[4..][1..] == [];
    assert CodexCount(e[4..]) == 0 && CodexCount(e[3..]) == 0 && CodexCount(e[2..]) == 1 && CodexCount(e[1..]) == 1;
  }

  /** From PENDING with nothing done, such a start has these five events. */
  lemma KilledStart(spec: TaskSpec, p: State, rest: seq<Event>)
    requires WellFormedSpec(spec) && spec.repairAttemptLimit > 0 && OfUnit(spec, p)
    requires p.status == Pending && p.currentTask.None? && p.completedTasks == [] && p.repairAttempts == 0
    requires rest == RunCycles(ContextOf(spec, KilledInRepair()), p, |spec.tasks| + 2, 0, 0).trace
    ensures |rest| >= 4 && RepairedOnce(spec, p, ([Persisted(p)] + rest)[..5])
  {
    hide RunTaskCycle, SchemaValid;
    var ctx := ContextOf(spec, KilledInRepair());
    KilledCycle(ctx, p);
    var run := RunTaskCycle(ctx, p, 0, 0);
    assert run.trace <= rest;
    assert ([Persisted(p)] + rest)[..5] == [Persisted(p)] + run.trace[..4];
  }

  lemma KilledCycle(ctx: Context, p: State)
    requires WellFormedSpec(ctx.spec) && ctx.spec.repairAttemptLimit > 0 && OfUnit(ctx.spec, p) && ctx.persist
    requires p.status == Pending && p.currentTask.None? && p.completedTasks == [] && p.repairAttempts == 0
    requires ctx.oracle == KilledInRepair().oracle
    ensures
      var trace := RunTaskCycle(ctx, p, 0, 0).trace;
      |trace| >= 4 && RepairedOnce(ctx.spec, p, [Persisted(p)] + trace[..4])
  {
    hide SelectNextTask, AfterCodex, InvokeCodexTurn, EnterImplementing, RunTaskCycle;
    SelectIs(ctx.spec, p);
    assert ctx.spec.tasks[0] in ctx.spec.tasks;
    var task := SelectNextTask(ctx.spec, p).value.value;
    var k :| 0 <= k < |ctx.spec.tasks| && ctx.spec.tasks[k] == task;
    EnterFrom(ctx.spec, p, task);
    var t := EnterImplementing(p, task).value;
    KilledTurn(ctx, task, t);
    CycleTrace(ctx, p, task, t);
    var turn := InvokeCodexTurn(ctx, task, t, 0, 0).trace;
    assert ([Persisted(t)] + turn)[..4] == [Persisted(t), turn[0], turn[1], turn[2]];
  }

  lemma CycleTrace(ctx: Context, p: State, task: SpecTask, t: State)
    requires p.status == Pending && ctx.oracle == KilledInRepair().oracle && ctx.persist
    requires SelectNextTask(ctx.spec, p) == Ok(Some(task)) && EnterImplementing(p, task) == Ok(t)
    requires p.completedTasks == []
    ensures RunTaskCycle(ctx, p, 0, 0).trace == [Persisted(t)] + InvokeCodexTurn(ctx, task, t, 0, 0).trace
    ensures t.status == Implementing && t.repairAttempts == p.repairAttempts && t.completedTasks == p.completedTasks
  {
    hide SelectNextTask, InvokeCodexTurn;
  }

  lemma KilledTurn(ctx: Context, task: SpecTask, t: State)
    requires Turning(ctx.spec, task, t) && t.status == Implementing && ctx.persist
    requires t.repairAttempts == 0 && ctx.spec.repairAttemptLimit > 0
    requires ctx.oracle == KilledInRepair().oracle
    ensures
      var trace := InvokeCodexTurn(ctx, task, t, 0, 0).trace;
      && |trace| >= 3 && trace[0] == CodexInvoked(task.id)
      && trace[1] == Persisted(t.(status := Validating))
      && trace[2].Persisted? && trace[2].state.status == Implementing && trace[2].state.repairAttempts == 1
      && trace[2].state.completedTasks == t.completedTasks && OfUnit(ctx.spec, trace[2].state)
  {
    hide InvokeCodexTurn;
    var v := t.(status := Validating);
    TurningMoves(ctx.spec, task, t, Validating, Keep, Keep);
    assert ApplyTransition(t, Validating, currentTask := To(Some(task.id))) == Ok(v);
    var failed := ValidationRecord("false", false, AgentRepairable);
    RepairMoves(ctx.spec, task, v, failed);
    var r := ApplyTransition(v, Implementing, currentTask := To(Some(task.id)), repairAttempts := To(v.repairAttempts + 1),
      lastValidation := To(Some(failed.command)), lastResult := To(Some(FailedResult))).value;
    var rest := InvokeCodexTurn(ctx, task, r, 0, 1).trace;
    assert ValidateAndMaybeRepair(ctx, task, v, 0).trace == [Persisted(r)] + rest;
    assert AfterCodex(ctx, task, t, 0, 0).trace == [Persisted(v)] + ([Persisted(r)] + rest);
    InvokedTrace(ctx, task, t);
  }

  lemma InvokedTrace(ctx: Context, task: SpecTask, t: State)
    requires ctx.oracle == KilledInRepair().oracle
    ensures InvokeCodexTurn(ctx, task, t, 0, 0).trace == [CodexInvoked(task.id)] + AfterCodex(ctx, task, t, 0, 0).trace
  {
    hide AfterCodex;
  }

  /** A file such a start may find, or has just left: fresh, or in flight with nothing completed. */
  predicate Rewound(spec: TaskSpec, file: StateFile) {
    file.NoFile? || (file.Stored? && OfUnit(spec, file.state) && file.state.status == Implementing
                     && file.state.completedTasks == [] && file.state.repairAttempts == 1)
  }

  lemma KilledOnce(spec: TaskSpec, file: StateFile)
    requires WellFormedSpec(spec) && spec.repairAttemptLimit > 0 && Rewound(spec, file)
    ensures
      var events := EventsOf(spec, KilledInRepair(), file);
      && RepairsIn(events) == 1 && CodexCount(events) == 1
      && Rewound(spec, FileAfter(file, events)) && FileAfter(file, events).Stored?
  {
    hide RunCycles, SchemaValid, FateOf;
    var ctx, p := ContextOf(spec, KilledInRepair()), StartState(spec, file);
    FreshStart(spec);
    RewoundWorks(spec, file);
    StartProceeds(ctx, file);
    var rest := RunCycles(ctx, p, |spec.tasks| + 2, 0, 0).trace;
    KilledStart(spec, p, rest);
    var events := EventsOf(spec, KilledInRepair(), file);
    assert events == ([Persisted(p)] + rest)[..5];
    OneRepair(spec, p, events);
  }

  lemma RewoundWorks(spec: TaskSpec, file: StateFile)
    requires WellFormedSpec(spec) && Rewound(spec, file)
    ensures FateOf(spec, file).Works? && Readable(file)
    ensures
      var p := StartState(spec, file);
      p.status == Pending && p.currentTask.None? && p.completedTasks == [] && p.repairAttempts == 0
  {
    assert spec.tasks[0] in spec.tasks;
  }

  /**
   * The counterexample: for every accepted spec that allows a repair, and every number, there is
   * a history of killed starts that starts so many repairs; all but the last are given back.
   */
  lemma {:induction false} RepairsAreUnbounded(spec: TaskSpec, n: nat)
    requires WellFormedSpec(spec) && spec.repairAttemptLimit > 0
    ensures
      var history := KilledTimes(n);
      && RepairsMade(spec, history) == n && CodexMade(spec, history) == n
      && Rewound(spec, LeftBehind(spec, history)) && (n > 0 ==> LeftBehind(spec, history).Stored?)
      && GivenBack(spec, history) == if n == 0 then 0 else n - 1
  {
    hide EventsOf, FileAfter, SchemaValid, BeginsAgain;
    if n > 0 {
      RepairsAreUnbounded(spec, n - 1);
      var history := KilledTimes(n);
      assert history[..n - 1] == KilledTimes(n - 1) && history[n - 1] == KilledInRepair();
      KilledOnce(spec, LeftBehind(spec, history[..n - 1]));
    }
    UntouchedConserved(spec, KilledTimes(n));
  }
}
