/**
 * Writing ahead: what the state file holds whenever Codex or final verification runs, what each
 * write changes, and how Codex is paced between the writes. Here the run persists its states
 * (`persist_state`). Nothing is asked of the state a run starts from but its schema and its unit.
 */
module Durability {
  import opened Wrappers
  import opened TaskGraph
  import opened ExecutionState
  import opened Cycle
  import opened CycleProofs

  /** The last state written, starting from the file's state. */
  function LastState(s: State, trace: seq<Event>): State {
    if trace == [] then s
    else
      var last := trace[|trace| - 1];
      if last.Persisted? then last.state else LastState(s, trace[..|trace| - 1])
  }

  /** A write that starts a repair round. */
  predicate IsRepair(s: State, t: State) {
    s.status == Validating && t.status == Implementing
  }

  /** A write that completes a task. */
  predicate IsCompletion(s: State, t: State) {
    s.status == Validating && t.status == TaskCompleted
  }

  /**
   * One write follows the transition table, or repeats the status (`_enter_implementing` writes
   * its two steps from PENDING at once); it counts a repair exactly when it starts one, and
   * completes the current task exactly when validation had passed.
   */
  predicate Follows(s: State, t: State) {
    && SchemaValid(t)
    && (t.status == s.status || t.status in AllowedTransitions(s.status) || (s.status == Pending && t.status == Implementing))
    && t.repairAttempts == s.repairAttempts + (if IsRepair(s, t) then 1 else 0)
    && if IsCompletion(s, t) then s.currentTask.Some? && t.completedTasks == s.completedTasks + [s.currentTask.value]
       else t.completedTasks == s.completedTasks
  }

  /** Codex runs only on a task the file shows as being implemented, final verification only when the file says so. */
  predicate StepOk(s: State, e: Event) {
    match e
    case Persisted(t) => Follows(s, t)
    case CodexInvoked(id) => s.status == Implementing && s.currentTask == Some(id)
    case FinalVerificationRun => s.status == FinalValidating
  }

  predicate WritesAhead(s: State, trace: seq<Event>) {
    trace == []
    || (WritesAhead(s, trace[..|trace| - 1]) && StepOk(LastState(s, trace[..|trace| - 1]), trace[|trace| - 1]))
  }

  /** How many repair rounds the writes of a trace start. */
  function Repairs(s: State, trace: seq<Event>): nat {
    if trace == [] then 0
    else
      var front, e := trace[..|trace| - 1], trace[|trace| - 1];
      Repairs(s, front) + if e.Persisted? && IsRepair(LastState(s, front), e.state) then 1 else 0
  }

  function Completions(s: State, trace: seq<Event>): nat {
    if trace == [] then 0
    else
      var front, e := trace[..|trace| - 1], trace[|trace| - 1];
      Completions(s, front) + if e.Persisted? && IsCompletion(LastState(s, front), e.state) then 1 else 0
  }

  /** At every point Codex has run at most `budget` times, and three times for each repair or completion written. */
  predicate Paced(s: State, trace: seq<Event>, budget: int) {
    && CodexCount(trace) <= budget + 3 * (Repairs(s, trace) + Completions(s, trace))
    && (trace == [] || Paced(s, trace[..|trace| - 1], budget))
  }

  predicate Traced(s: State, trace: seq<Event>, budget: int) {
    WritesAhead(s, trace) && Paced(s, trace, budget)
  }

  lemma {:induction false} CountsAppend(s: State, a: seq<Event>, b: seq<Event>)
    ensures LastState(s, a + b) == LastState(LastState(s, a), b)
    ensures Repairs(s, a + b) == Repairs(s, a) + Repairs(LastState(s, a), b)
    ensures Completions(s, a + b) == Completions(s, a) + Completions(LastState(s, a), b)
    decreases |b|
  {
    if b == [] {
      assert a + b == a;
    } else {
      assert (a + b)[..|a + b| - 1] == a + b[..|b| - 1];
      CountsAppend(s, a, b[..|b| - 1]);
    }
  }

  lemma {:induction false} TracedAppend(s: State, a: seq<Event>, budget: int, b: seq<Event>, later: int)
    requires Traced(s, a, budget) && Traced(LastState(s, a), b, later)
    requires CodexCount(a) + later <= budget + 3 * (Repairs(s, a) + Completions(s, a))
    ensures Traced(s, a + b, budget)
    decreases |b|
  {
    if b == [] {
      assert a + b == a;
    } else {
      hide Follows, IsRepair, IsCompletion;
      var front := b[..|b| - 1];
      assert (a + b)[..|a + b| - 1] == a + front;
      TracedAppend(s, a, budget, front, later);
      CountsAppend(s, a, front);
      CountsAppend(s, a, b);
      CodexCountAppend(a, b);
    }
  }

  lemma NothingWritten(s: State, budget: nat)
    ensures Traced(s, [], budget) && LastState(s, []) == s
  {
  }

  lemma OneEvent(s: State, e: Event)
    ensures WritesAhead(s, [e]) <==> StepOk(s, e)
    ensures LastState(s, [e]) == if e.Persisted? then e.state else s
    ensures Repairs(s, [e]) == if e.Persisted? && IsRepair(s, e.state) then 1 else 0
    ensures Completions(s, [e]) == if e.Persisted? && IsCompletion(s, e.state) then 1 else 0
    ensures CodexCount([e]) == if e.CodexInvoked? then 1 else 0
  {
    hide IsRepair, IsCompletion, StepOk;
    assert [e][..0] == [];
  }

  /** How much budget an event leaves. */
  function Left(s: State, e: Event, budget: int): int {
    match e
    case CodexInvoked(_) => budget - 1
    case Persisted(t) => budget + if IsRepair(s, t) || IsCompletion(s, t) then 3 else 0
    case FinalVerificationRun => budget
  }

  lemma TracedAfter(s: State, e: Event, budget: nat, trace: seq<Event>)
    requires StepOk(s, e) && Left(s, e, budget) >= 0
    requires Traced(if e.Persisted? then e.state else s, trace, Left(s, e, budget))
    ensures Traced(s, [e] + trace, budget)
  {
    hide StepOk;
    OneEvent(s, e);
    NothingWritten(s, budget);
    assert [e][..0] == [] && Paced(s, [e][..0], budget);
    TracedAppend(s, [e], budget, trace, Left(s, e, budget));
  }

  // ---------- What a Codex turn leaves ----------

  /** A readable state of this unit; its tasks, counters and order may be anything. */
  predicate OfUnit(spec: TaskSpec, s: State) {
    SchemaValid(s) && s.taskId == spec.id && s.branch == spec.targetBranch
  }

  /** A state a turn on `task` passes through. */
  predicate Turning(spec: TaskSpec, task: SpecTask, s: State) {
    OfUnit(spec, s) && s.currentTask == Some(task.id) && task.id !in s.completedTasks
  }

  /** The turns raise only foreign errors, and complete their task or none. */
  predicate TurnEnds(spec: TaskSpec, task: SpecTask, s: State, run: Run) {
    match run.exit
    case Raised(e) => e.External?
    case Returned(r) =>
      && ValidCycleResult(r)
      && OfUnit(spec, r.state)
      && r.outcome != FinalVerificationPassed
      && (r.outcome == TaskCompletedOutcome ==> r.state.status == TaskCompleted && r.state.currentTask == Some(task.id))
      && r.state.completedTasks ==
         if r.outcome == TaskCompletedOutcome then s.completedTasks + [task.id] else s.completedTasks
  }

  /**
   * The run writes ahead within its budget, an untampered result is what it wrote last, and a
   * completed task leaves the budget of the next one untouched.
   */
  predicate Kept(s: State, run: Run, budget: int) {
    && Traced(s, run.trace, budget)
    && (run.exit.Returned? ==>
          && (run.exit.result.code == Some(STATE_TAMPERED) || LastState(s, run.trace) == run.exit.result.state)
          && (run.exit.result.outcome == TaskCompletedOutcome ==>
                CodexCount(run.trace) + 3 <= budget + 3 * (Repairs(s, run.trace) + Completions(s, run.trace))))
  }

  predicate TurnKept(spec: TaskSpec, task: SpecTask, s: State, run: Run, budget: int) {
    Kept(s, run, budget) && TurnEnds(spec, task, s, run)
  }

  lemma KeptAfter(s: State, e: Event, budget: nat, run: Run)
    requires StepOk(s, e) && Left(s, e, budget) >= 0
    requires Kept(if e.Persisted? then e.state else s, run, Left(s, e, budget))
    ensures Kept(s, After([e], run), budget)
  {
    hide StepOk;
    OneEvent(s, e);
    TracedAfter(s, e, budget, run.trace);
    CountsAppend(s, [e], run.trace);
    CodexCountAppend([e], run.trace);
  }

  lemma PersistKept(ctx: Context, s: State, t: State, budget: nat, run: Run)
    requires ctx.persist && Follows(s, t) && Kept(t, run, Left(s, Persisted(t), budget))
    ensures Kept(s, After(Persist(ctx, t), run), budget)
  {
    KeptAfter(s, Persisted(t), budget, run);
  }

  /** More budget than is used does no harm. */
  lemma {:induction false} TracedWithin(s: State, trace: seq<Event>, budget: int, more: int)
    requires Traced(s, trace, budget) && budget <= more
    ensures Traced(s, trace, more)
  {
    if trace != [] { TracedWithin(s, trace[..|trace| - 1], budget, more); }
  }

  /** A state that is written and returned at once. */
  lemma FinishKept(ctx: Context, task: SpecTask, s: State, r: CycleResult, budget: nat, n: nat)
    requires ctx.persist && Follows(s, r.state) && ValidCycleResult(r)
    requires r.outcome == TaskCompletedOutcome ==> IsCompletion(s, r.state)
    ensures Kept(s, After(Persist(ctx, r.state), Finish(r, n)), budget)
    ensures TurnEnds(ctx.spec, task, s, Finish(r, n)) ==>
              TurnKept(ctx.spec, task, s, After(Persist(ctx, r.state), Finish(r, n)), budget)
  {
    hide ValidCycleResult, Follows, IsRepair, IsCompletion, Traced;
    NothingWritten(r.state, Left(s, Persisted(r.state), budget));
    OneEvent(s, Persisted(r.state));
    TracedAfter(s, Persisted(r.state), budget, []);
    assert [Persisted(r.state)] + [] == [Persisted(r.state)];
  }

  lemma TamperedKept(ctx: Context, task: SpecTask, s: State, budget: nat, n: nat)
    requires Turning(ctx.spec, task, s)
    ensures TurnKept(ctx.spec, task, s, StateTamperedResult(task, s, n), budget)
  {
    NothingWritten(s, budget);
  }

  lemma EndFailedKept(
    ctx: Context, task: SpecTask, s: State, class_: FailureClass, t: State, message: string, code: Option<string>,
    budget: nat, n: nat)
    requires ctx.persist && Follows(s, t) && OfUnit(ctx.spec, t) && t.completedTasks == s.completedTasks
    requires code != Some("") && (message == REPAIR_LIMIT_MESSAGE ==> code == Some(REPAIR_ATTEMPT_LIMIT))
    ensures TurnKept(ctx.spec, task, s, EndFailed(ctx, Some(task.id), s, class_, Ok(t), message, code, n), budget)
  {
    hide Follows, OfUnit, Kept;
    var outcome := if class_ == EnvironmentFailure then FailedOutcome else EscalatedOutcome;
    FinishKept(ctx, task, s, CycleResult(outcome, Some(task.id), t, Some(class_), message, code), budget, n);
  }

  lemma {:induction false} InvokeKept(ctx: Context, task: SpecTask, s: State, retries: nat, n: nat)
    requires ctx.persist && Turning(ctx.spec, task, s) && s.status == Implementing && retries <= TRANSPORT_RETRY_MAX
    ensures TurnKept(ctx.spec, task, s, InvokeCodexTurn(ctx, task, s, retries, n), 3 - retries)
    decreases RemainingRepairs(ctx.spec.repairAttemptLimit, s.repairAttempts), TRANSPORT_RETRY_MAX - retries, 3
  {
    hide AfterCodex, SchemaValid, StateTamperedResult, Kept, ValidCycleResult, Turning;
    var turn := ctx.oracle.turn(n);
    var e := CodexInvoked(task.id);
    TamperedKept(ctx, task, s, 3 - retries, n + 1);
    TamperedKept(ctx, task, s, 2 - retries, n + 1);
    RaisedKept(s, External("") , 2 - retries, n + 1);
    assert s.currentTask == Some(task.id) by { TurningTask(ctx.spec, task, s); }
    if turn.before.Some? {
      RaisedKept(s, External(turn.before.value), 3 - retries, n + 1);
    } else if RegularOrAbsent(turn.preFingerprint) {
      if turn.preFingerprint != turn.afterCodex {
        KeptAfter(s, e, 3 - retries, StateTamperedResult(task, s, n + 1));
      } else if turn.codex.CodexRaised? {
        RaisedKept(s, External(turn.codex.code), 2 - retries, n + 1);
        KeptAfter(s, e, 3 - retries, Fail(External(turn.codex.code), n + 1));
      } else {
        AfterCodexKept(ctx, task, s, retries, n);
        KeptAfter(s, e, 3 - retries, AfterCodex(ctx, task, s, retries, n));
      }
    }
  }

  lemma TurningTask(spec: TaskSpec, task: SpecTask, s: State)
    requires Turning(spec, task, s)
    ensures s.currentTask == Some(task.id)
  {
  }

  lemma RaisedKept(s: State, e: AgentError, budget: nat, n: nat)
    ensures Kept(s, Fail(e, n), budget)
  {
    NothingWritten(s, budget);
  }

  /** A transition that keeps the task, the counters and the completed list. */
  lemma TurningMoves(spec: TaskSpec, task: SpecTask, s: State, target: Status, v: Change<Option<string>>, r: Change<Option<LastResult>>)
    requires Turning(spec, task, s) && target in AllowedTransitions(s.status)
    requires !(s.status == Validating && (target == Implementing || target == TaskCompleted))
    ensures
      var changes := ApplyTransition(s, target, currentTask := To(Some(task.id)), lastValidation := v, lastResult := r);
      && changes.Ok? && changes.value.status == target
      && changes.value.completedTasks == s.completedTasks && changes.value.repairAttempts == s.repairAttempts
      && Turning(spec, task, changes.value) && OfUnit(spec, changes.value) && Follows(s, changes.value)
      && !IsRepair(s, changes.value) && !IsCompletion(s, changes.value)
  {
  }

  lemma {:induction false} AfterCodexKept(ctx: Context, task: SpecTask, s: State, retries: nat, n: nat)
    requires ctx.persist && Turning(ctx.spec, task, s) && s.status == Implementing && retries <= TRANSPORT_RETRY_MAX
    requires ctx.oracle.turn(n).codex.CodexExited?
    ensures TurnKept(ctx.spec, task, s, AfterCodex(ctx, task, s, retries, n), 2 - retries)
    decreases RemainingRepairs(ctx.spec.repairAttemptLimit, s.repairAttempts), TRANSPORT_RETRY_MAX - retries, 2
  {
    hide InvokeCodexTurn, ValidateAndMaybeRepair, EndFailed, SchemaValid, Turning, OfUnit, Kept, StateTamperedResult,
         ApplyTransition, Follows, IsRepair, IsCompletion;
    var turn := ctx.oracle.turn(n);
    TamperedKept(ctx, task, s, 2 - retries, n + 1);
    if turn.preFingerprint == turn.beforeScope {
      match turn.scope
      case ScopeRaised(code) => RaisedKept(s, External(code), 2 - retries, n + 1);
      case ScopeViolated(paths) =>
        TurningMoves(ctx.spec, task, s, ScopeViolation, Keep, To(Some(FailedResult)));
        var t := ApplyTransition(s, ScopeViolation, currentTask := To(Some(task.id)), lastResult := To(Some(FailedResult))).value;
        FinishKept(ctx, task, s,
          CycleResult(ScopeViolationOutcome, Some(task.id), t, Some(EscalationRequired), "SCOPE_VIOLATION: " + paths, None),
          2 - retries, n + 1);
      case ScopeAllowed =>
        if turn.codex.exitCode == 0 {
          TurningMoves(ctx.spec, task, s, Validating, Keep, Keep);
          var t := ApplyTransition(s, Validating, currentTask := To(Some(task.id))).value;
          ValidateKept(ctx, task, t, 2 - retries, n);
          PersistKept(ctx, s, t, 2 - retries, ValidateAndMaybeRepair(ctx, task, t, n));
        } else if turn.codex.transportError && retries < TRANSPORT_RETRY_MAX {
          InvokeKept(ctx, task, s, retries + 1, n + 1);
        } else {
          var class_ := if turn.codex.transportError then EnvironmentFailure else turn.codex.failureClass;
          TurningMoves(ctx.spec, task, s, FailureTarget(class_), Keep, To(Some(FailedResult)));
          assert "codex exited non-zero"[0] != REPAIR_LIMIT_MESSAGE[0];
          EndFailedKept(ctx, task, s, class_,
            ApplyTransition(s, FailureTarget(class_), currentTask := To(Some(task.id)), lastResult := To(Some(FailedResult))).value,
            if turn.codex.transportError then "codex transport retry limit reached" else "codex exited non-zero",
            if turn.codex.transportError then Some(CODEX_TRANSPORT_RETRY_LIMIT) else None, 2 - retries, n + 1);
        }
    }
  }

  lemma {:induction false} ValidateKept(ctx: Context, task: SpecTask, s: State, budget: nat, n: nat)
    requires ctx.persist && Turning(ctx.spec, task, s) && s.status == Validating
    ensures TurnKept(ctx.spec, task, s, ValidateAndMaybeRepair(ctx, task, s, n), budget)
    decreases RemainingRepairs(ctx.spec.repairAttemptLimit, s.repairAttempts), 0, 1
  {
    hide InvokeCodexTurn, EndFailed, Kept;
    var validation := ctx.oracle.turn(n).validation;
    if validation.ValidationRaised? {
      RaisedKept(s, External(validation.code), budget, n + 1);
    } else {
      var records := validation.records;
      var result := FailedRecord(records);
      if result.None? {
        var changes := ApplyTransition(s, TaskCompleted, currentTask := To(Some(task.id)),
          completedTasks := To(s.completedTasks + [task.id]),
          lastValidation := To(Some(records[|records| - 1].command)), lastResult := To(Some(PassedResult)));
        FinishKept(ctx, task, s,
          CycleResult(TaskCompletedOutcome, Some(task.id), changes.value, None, "validation passed", None), budget, n + 1);
      } else {
        RejectedKept(ctx, task, s, budget, n, result.value);
      }
    }
  }

  /** Validation failed: an ending for people, or a repair round. */
  lemma {:induction false} RejectedKept(ctx: Context, task: SpecTask, s: State, budget: nat, n: nat, failed: ValidationRecord)
    requires ctx.persist && Turning(ctx.spec, task, s) && s.status == Validating
    requires ctx.oracle.turn(n).validation.ValidationRan?
    requires FailedRecord(ctx.oracle.turn(n).validation.records) == Some(failed)
    ensures TurnKept(ctx.spec, task, s, ValidateAndMaybeRepair(ctx, task, s, n), budget)
    decreases RemainingRepairs(ctx.spec.repairAttemptLimit, s.repairAttempts), 0, 0
  {
    hide InvokeCodexTurn, EndFailed, Kept, FailedRecord, SchemaValid;
    var class_ := failed.failureClass;
    if class_ != AgentRepairable || !CanAttemptRepair(ctx.spec.repairAttemptLimit, s.repairAttempts) {
      var target := if class_ == EnvironmentFailure then Failed else Escalated;
      TurningMoves(ctx.spec, task, s, target, To(Some(failed.command)), To(Some(FailedResult)));
      assert "environment"[0] != REPAIR_LIMIT_MESSAGE[0] && "validation"[0] != REPAIR_LIMIT_MESSAGE[0];
      EndFailedKept(ctx, task, s, class_,
        ApplyTransition(s, target, currentTask := To(Some(task.id)),
          lastValidation := To(Some(failed.command)), lastResult := To(Some(FailedResult))).value,
        if class_ == EnvironmentFailure then "environment failure is not sent to repair"
        else if class_ == EscalationRequired then "validation failure requires escalation"
        else REPAIR_LIMIT_MESSAGE,
        if class_ == AgentRepairable then Some(REPAIR_ATTEMPT_LIMIT) else None, budget, n + 1);
    } else {
      var changes := ApplyTransition(s, Implementing, currentTask := To(Some(task.id)),
        repairAttempts := To(s.repairAttempts + 1),
        lastValidation := To(Some(failed.command)), lastResult := To(Some(FailedResult)));
      RepairMoves(ctx.spec, task, s, failed);
      InvokeKept(ctx, task, changes.value, 0, n + 1);
      var run := InvokeCodexTurn(ctx, task, changes.value, 0, n + 1);
      KeptWithin(changes.value, run, 3, budget + 3);
      PersistKept(ctx, s, changes.value, budget, run);
    }
  }

  lemma KeptWithin(s: State, run: Run, budget: int, more: int)
    requires Kept(s, run, budget) && budget <= more
    ensures Kept(s, run, more)
  {
    TracedWithin(s, run.trace, budget, more);
  }

  lemma RepairMoves(spec: TaskSpec, task: SpecTask, s: State, failed: ValidationRecord)
    requires Turning(spec, task, s) && s.status == Validating
    ensures
      var changes := ApplyTransition(s, Implementing, currentTask := To(Some(task.id)),
        repairAttempts := To(s.repairAttempts + 1),
        lastValidation := To(Some(failed.command)), lastResult := To(Some(FailedResult)));
      && changes.Ok? && changes.value.status == Implementing && changes.value.completedTasks == s.completedTasks
      && changes.value.repairAttempts == s.repairAttempts + 1
      && Turning(spec, task, changes.value) && Follows(s, changes.value) && IsRepair(s, changes.value)
  {
  }
}
