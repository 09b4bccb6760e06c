/** What every step of a cycle keeps, for every behaviour of the oracle. */
module CycleProofs {
  import opened Wrappers
  import opened TaskGraph
  import opened ExecutionState
  import opened Select
  import opened Cycle

  function Done(s: State): set<string> {
    set x | x in s.completedTasks
  }

  /** The current task is absent, already completed, or has all its dependencies done. */
  ghost predicate CurrentTaskSound(spec: TaskSpec, s: State) {
    s.currentTask.Some? && s.currentTask.value !in Done(s) ==>
      exists t :: t in spec.tasks && t.id == s.currentTask.value && Ready(t, Done(s))
  }

  /** What holds of every state the machine passes through or writes to the state file. */
  ghost predicate StateInv(spec: TaskSpec, s: State) {
    && s.taskId == spec.id
    && s.branch == spec.targetBranch
    && SchemaValid(s)
    && LinearExtension(spec, s.completedTasks)
    && CurrentTaskSound(spec, s)
    && s.repairAttempts <= spec.repairAttemptLimit
    && match s.status
       case Pending => s.currentTask.None? && s.completedTasks == []
       case Running => true
       case Implementing => !AllCompleted(spec.tasks, Done(s))
       case Validating => !AllCompleted(spec.tasks, Done(s))
       case TaskCompleted => s.completedTasks != []
       case FinalValidating => AllCompleted(spec.tasks, Done(s))
       case Failed => true
       case Escalated => true
       case ScopeViolation => true
       case _ => false
  }

  /** `s` is working on `task`, which is not completed and whose dependencies are. */
  ghost predicate WorkingOn(spec: TaskSpec, task: SpecTask, s: State) {
    && StateInv(spec, s)
    && (s.status == Implementing || s.status == Validating)
    && task in spec.tasks
    && s.currentTask == Some(task.id)
    && task.id !in s.completedTasks
    && Ready(task, Done(s))
  }

  /** Progress within one start: nothing completed is lost and no repair is given back. */
  predicate Extends(s: State, later: State) {
    s.completedTasks <= later.completedTasks && s.repairAttempts <= later.repairAttempts
  }

  ghost predicate TraceKeeps(spec: TaskSpec, s: State, trace: seq<Event>) {
    forall i :: 0 <= i < |trace| && trace[i].Persisted? ==>
      StateInv(spec, trace[i].state) && Extends(s, trace[i].state)
  }

  function CodexCount(trace: seq<Event>): nat {
    if trace == [] then 0 else (if trace[0].CodexInvoked? then 1 else 0) + CodexCount(trace[1..])
  }

  lemma {:induction false} CodexCountAppend(a: seq<Event>, b: seq<Event>)
    ensures CodexCount(a + b) == CodexCount(a) + CodexCount(b)
  {
    if a == [] {
      assert a + b == b;
    } else {
      assert (a + b)[1..] == a[1..] + b;
      CodexCountAppend(a[1..], b);
    }
  }

  /** The repairs a run has spent by the time it ends; all of them if it raised. */
  function RepairsAtEnd(spec: TaskSpec, run: Run): nat {
    if run.exit.Returned? then run.exit.result.state.repairAttempts else spec.repairAttemptLimit
  }

  function StatusOf(outcome: CycleOutcome): Status {
    match outcome
    case TaskCompletedOutcome => TaskCompleted
    case FinalVerificationPassed => FinalValidating
    case FailedOutcome => Failed
    case EscalatedOutcome => Escalated
    case ScopeViolationOutcome => ScopeViolation
  }

  /** A run from `s` raises only what a foreign call raised, and returns only sound results. */
  ghost predicate SoundExit(spec: TaskSpec, s: State, run: Run) {
    match run.exit
    case Raised(e) => e.External?
    case Returned(r) => ValidCycleResult(r) && StateInv(spec, r.state) && Extends(s, r.state)
  }

  /**
   * What the Codex turns on `task` guarantee from `s`: at most `budget` invocations before
   * the next repair, three more for each repair, and `task` completed only on success.
   */
  ghost predicate TurnPost(spec: TaskSpec, task: SpecTask, s: State, budget: nat, run: Run) {
    && SoundExit(spec, s, run)
    && TraceKeeps(spec, s, run.trace)
    && CodexCount(run.trace) <= budget + 3 * (RepairsAtEnd(spec, run) - s.repairAttempts)
    && (run.exit.Returned? ==>
          && run.exit.result.outcome != FinalVerificationPassed
          && run.exit.result.state.status == StatusOf(run.exit.result.outcome)
          && run.exit.result.state.completedTasks ==
             if run.exit.result.outcome == TaskCompletedOutcome then s.completedTasks + [task.id] else s.completedTasks)
  }

  lemma TraceAfter(spec: TaskSpec, s: State, s': State, a: seq<Event>, b: seq<Event>)
    requires Extends(s, s') && TraceKeeps(spec, s, a) && TraceKeeps(spec, s', b)
    ensures TraceKeeps(spec, s, a + b) && CodexCount(a + b) == CodexCount(a) + CodexCount(b)
  {
    CodexCountAppend(a, b);
    forall i | 0 <= i < |a + b| && (a + b)[i].Persisted?
      ensures StateInv(spec, (a + b)[i].state) && Extends(s, (a + b)[i].state)
    {
      if i >= |a| { assert (a + b)[i] == b[i - |a|]; }
    }
  }

  /** Steps in front of a run: the invocations they make come out of the budget. */
  lemma TurnAfter(spec: TaskSpec, task: SpecTask, s: State, budget: nat, events: seq<Event>, s': State, budget': nat, run: Run)
    requires s'.completedTasks == s.completedTasks && Extends(s, s') && TraceKeeps(spec, s, events)
    requires TurnPost(spec, task, s', budget', run)
    requires CodexCount(events) + budget' <= budget + 3 * (s'.repairAttempts - s.repairAttempts)
    ensures TurnPost(spec, task, s, budget, After(events, run))
  {
    TraceAfter(spec, s, s', events, run.trace);
  }

  /** A state written on the way satisfies the invariant. */
  lemma PersistKeeps(ctx: Context, s: State, s': State)
    requires StateInv(ctx.spec, s') && Extends(s, s')
    ensures TraceKeeps(ctx.spec, s, Persist(ctx, s')) && CodexCount(Persist(ctx, s')) == 0
  {
  }

  lemma ImplementingKeeps(spec: TaskSpec, task: SpecTask, s: State, s': State)
    requires WorkingOn(spec, task, s)
    requires s'.status in {Implementing, Validating, Failed, Escalated, ScopeViolation}
    requires s' == s.(status := s'.status, repairAttempts := s'.repairAttempts,
                      lastValidation := s'.lastValidation, lastResult := s'.lastResult)
    requires s.repairAttempts <= s'.repairAttempts <= spec.repairAttemptLimit
    ensures StateInv(spec, s') && Extends(s, s')
    ensures s'.status in {Implementing, Validating} ==> WorkingOn(spec, task, s')
  {
  }

  /** An ending of a turn: the state that was written is the one returned. */
  lemma EndingPost(ctx: Context, task: SpecTask, s: State, r: CycleResult, budget: nat, n: nat)
    requires WorkingOn(ctx.spec, task, s)
    requires ValidCycleResult(r) && StateInv(ctx.spec, r.state) && Extends(s, r.state)
    requires r.outcome != FinalVerificationPassed && r.state.status == StatusOf(r.outcome)
    requires r.state.completedTasks ==
             if r.outcome == TaskCompletedOutcome then s.completedTasks + [task.id] else s.completedTasks
    ensures TurnPost(ctx.spec, task, s, budget, Finish(r, n))
    ensures TurnPost(ctx.spec, task, s, budget, After(Persist(ctx, r.state), Finish(r, n)))
  {
  }

  lemma TamperedPost(ctx: Context, task: SpecTask, s: State, budget: nat, n: nat)
    requires WorkingOn(ctx.spec, task, s)
    ensures TurnPost(ctx.spec, task, s, budget, StateTamperedResult(task, s, n))
    ensures
      var run := StateTamperedResult(task, s, n);
      && run.exit.Returned? && run.trace == []
      && run.exit.result.outcome == ScopeViolationOutcome && run.exit.result.code == Some(STATE_TAMPERED)
  {
    ImplementingKeeps(ctx.spec, task, s, s.(status := ScopeViolation, lastResult := Some(FailedResult)));
  }

  /** Completing the task being worked on extends the execution order by exactly that task. */
  lemma CompletingKeeps(spec: TaskSpec, task: SpecTask, s: State, s': State)
    requires Distinct(Ids(spec.tasks)) && WorkingOn(spec, task, s)
    requires s' == s.(status := TaskCompleted, completedTasks := s.completedTasks + [task.id],
                      lastValidation := s'.lastValidation, lastResult := s'.lastResult)
    ensures StateInv(spec, s') && Extends(s, s')
  {
    ExtendLinear(spec, s.completedTasks, task);
    assert IsTaskId(task.id);
  }

  lemma {:induction false} InvokePost(ctx: Context, task: SpecTask, s: State, retries: nat, n: nat)
    requires Distinct(Ids(ctx.spec.tasks)) && WorkingOn(ctx.spec, task, s) && s.status == Implementing
    requires retries <= TRANSPORT_RETRY_MAX
    ensures TurnPost(ctx.spec, task, s, 3 - retries, InvokeCodexTurn(ctx, task, s, retries, n))
    decreases RemainingRepairs(ctx.spec.repairAttemptLimit, s.repairAttempts), TRANSPORT_RETRY_MAX - retries, 2
  {
    var turn := ctx.oracle.turn(n);
    var events := [CodexInvoked(task.id)];
    TamperedPost(ctx, task, s, 2 - retries, n + 1);
    TamperedPost(ctx, task, s, 3 - retries, n + 1);
    if turn.before.None? && RegularOrAbsent(turn.preFingerprint) {
      if turn.preFingerprint != turn.afterCodex {
        TurnAfter(ctx.spec, task, s, 3 - retries, events, s, 2 - retries, StateTamperedResult(task, s, n + 1));
      } else if turn.codex.CodexExited? {
        AfterCodexPost(ctx, task, s, retries, n);
        TurnAfter(ctx.spec, task, s, 3 - retries, events, s, 2 - retries, AfterCodex(ctx, task, s, retries, n));
      }
    }
  }

  lemma {:induction false} AfterCodexPost(ctx: Context, task: SpecTask, s: State, retries: nat, n: nat)
    requires Distinct(Ids(ctx.spec.tasks)) && WorkingOn(ctx.spec, task, s) && s.status == Implementing
    requires retries <= TRANSPORT_RETRY_MAX && ctx.oracle.turn(n).codex.CodexExited?
    ensures TurnPost(ctx.spec, task, s, 2 - retries, AfterCodex(ctx, task, s, retries, n))
    decreases RemainingRepairs(ctx.spec.repairAttemptLimit, s.repairAttempts), TRANSPORT_RETRY_MAX - retries, 1
  {
    hide InvokeCodexTurn, ValidateAndMaybeRepair, LinearExtension, CurrentTaskSound, Ready;
    var turn := ctx.oracle.turn(n);
    TamperedPost(ctx, task, s, 2 - retries, n + 1);
    if turn.preFingerprint == turn.beforeScope {
      match turn.scope
      case ScopeRaised(_) =>
      case ScopeViolated(paths) =>
        var state := s.(status := ScopeViolation, lastResult := Some(FailedResult));
        ImplementingKeeps(ctx.spec, task, s, state);
        EndingPost(ctx, task, s, CycleResult(ScopeViolationOutcome, Some(task.id), state, Some(EscalationRequired),
                                             "SCOPE_VIOLATION: " + paths, None), 2 - retries, n + 1);
      case ScopeAllowed =>
        if turn.codex.exitCode == 0 {
          var state := s.(status := Validating);
          ImplementingKeeps(ctx.spec, task, s, state);
          PersistKeeps(ctx, s, state);
          ValidatePost(ctx, task, state, n);
          TurnAfter(ctx.spec, task, s, 2 - retries, Persist(ctx, state), state, 0,
            ValidateAndMaybeRepair(ctx, task, state, n));
        } else if turn.codex.transportError && retries < TRANSPORT_RETRY_MAX {
          InvokePost(ctx, task, s, retries + 1, n + 1);
        } else {
          CodexFailurePost(ctx, task, s, turn.codex, 2 - retries, n + 1);
        }
    }
  }

  /** Every failed ending of a turn returns a valid result in the state its class calls for. */
  lemma EndFailedPost(
    ctx: Context, task: SpecTask, s: State, class_: FailureClass, changes: Result<State, AgentError>,
    message: string, code: Option<string>, budget: nat, n: nat)
    requires WorkingOn(ctx.spec, task, s)
    requires changes.Ok? && changes.value == s.(status := FailureTarget(class_),
                                                lastValidation := changes.value.lastValidation,
                                                lastResult := changes.value.lastResult)
    requires code != Some("") && (message == REPAIR_LIMIT_MESSAGE ==> code == Some(REPAIR_ATTEMPT_LIMIT))
    ensures TurnPost(ctx.spec, task, s, budget, EndFailed(ctx, Some(task.id), s, class_, changes, message, code, n))
  {
    ImplementingKeeps(ctx.spec, task, s, changes.value);
    var outcome := if class_ == EnvironmentFailure then FailedOutcome else EscalatedOutcome;
    EndingPost(ctx, task, s, CycleResult(outcome, Some(task.id), changes.value, Some(class_), message, code), budget, n);
  }

  /** A non-zero exit that is not retried. */
  lemma CodexFailurePost(ctx: Context, task: SpecTask, s: State, codex: CodexRun, budget: nat, n: nat)
    requires WorkingOn(ctx.spec, task, s) && s.status == Implementing && codex.CodexExited?
    ensures
      var class_ := if codex.transportError then EnvironmentFailure else codex.failureClass;
      TurnPost(ctx.spec, task, s, budget,
        EndFailed(ctx, Some(task.id), s, class_,
          ApplyTransition(s, FailureTarget(class_),
            currentTask := To(Some(task.id)), lastResult := To(Some(FailedResult))),
          if codex.transportError then "codex transport retry limit reached" else "codex exited non-zero",
          if codex.transportError then Some(CODEX_TRANSPORT_RETRY_LIMIT) else None,
          n))
  {
    var class_ := if codex.transportError then EnvironmentFailure else codex.failureClass;
    var changes := ApplyTransition(s, FailureTarget(class_),
      currentTask := To(Some(task.id)), lastResult := To(Some(FailedResult)));
    assert changes == Ok(s.(status := FailureTarget(class_), lastResult := Some(FailedResult)));
    assert "codex exited non-zero"[0] != REPAIR_LIMIT_MESSAGE[0];
    EndFailedPost(ctx, task, s, class_, changes,
      if codex.transportError then "codex transport retry limit reached" else "codex exited non-zero",
      if codex.transportError then Some(CODEX_TRANSPORT_RETRY_LIMIT) else None, budget, n);
  }

  lemma PassedPost(ctx: Context, task: SpecTask, s: State, n: nat, records: Records)
    requires Distinct(Ids(ctx.spec.tasks)) && WorkingOn(ctx.spec, task, s) && s.status == Validating
    requires ctx.oracle.turn(n).validation == ValidationRan(records) && FailedRecord(records).None?
    ensures TurnPost(ctx.spec, task, s, 0, ValidateAndMaybeRepair(ctx, task, s, n))
  {
    var state := s.(status := TaskCompleted, completedTasks := s.completedTasks + [task.id],
                    lastValidation := Some(records[|records| - 1].command), lastResult := Some(PassedResult));
    CompletingKeeps(ctx.spec, task, s, state);
    var r := CycleResult(TaskCompletedOutcome, Some(task.id), state, None, "validation passed", None);
    EndingPost(ctx, task, s, r, 0, n + 1);
  }

  lemma UnrepairedPost(ctx: Context, task: SpecTask, s: State, n: nat, records: Records, failed: ValidationRecord)
    requires WorkingOn(ctx.spec, task, s) && s.status == Validating
    requires ctx.oracle.turn(n).validation == ValidationRan(records) && FailedRecord(records) == Some(failed)
    requires failed.failureClass == AgentRepairable ==>
               !CanAttemptRepair(ctx.spec.repairAttemptLimit, s.repairAttempts)
    ensures TurnPost(ctx.spec, task, s, 0, ValidateAndMaybeRepair(ctx, task, s, n))
  {
    var class_ := failed.failureClass;
    var changes := ApplyTransition(s, FailureTarget(class_), currentTask := To(Some(task.id)),
      lastValidation := To(Some(failed.command)), lastResult := To(Some(FailedResult)));
    assert changes == Ok(s.(status := FailureTarget(class_), lastValidation := Some(failed.command),
                            lastResult := Some(FailedResult)));
    assert "environment failure is not sent to repair"[0] != REPAIR_LIMIT_MESSAGE[0];
    assert "validation failure requires escalation"[0] != REPAIR_LIMIT_MESSAGE[0];
    match class_
    case AgentRepairable =>
      EndFailedPost(ctx, task, s, class_, changes, REPAIR_LIMIT_MESSAGE, Some(REPAIR_ATTEMPT_LIMIT), 0, n + 1);
    case EnvironmentFailure =>
      EndFailedPost(ctx, task, s, class_, changes, "environment failure is not sent to repair", None, 0, n + 1);
    case EscalationRequired =>
      EndFailedPost(ctx, task, s, class_, changes, "validation failure requires escalation", None, 0, n + 1);
  }

  lemma {:induction false} ValidatePost(ctx: Context, task: SpecTask, s: State, n: nat)
    requires Distinct(Ids(ctx.spec.tasks)) && WorkingOn(ctx.spec, task, s) && s.status == Validating
    ensures TurnPost(ctx.spec, task, s, 0, ValidateAndMaybeRepair(ctx, task, s, n))
    decreases RemainingRepairs(ctx.spec.repairAttemptLimit, s.repairAttempts), 0, 0
  {
    hide InvokeCodexTurn, LinearExtension, CurrentTaskSound, Ready;
    var validation := ctx.oracle.turn(n).validation;
    if validation.ValidationRan? {
      var failed := FailedRecord(validation.records);
      if failed.None? {
        PassedPost(ctx, task, s, n, validation.records);
      } else if failed.value.failureClass == AgentRepairable
                && CanAttemptRepair(ctx.spec.repairAttemptLimit, s.repairAttempts) {
        var state := s.(status := Implementing, repairAttempts := s.repairAttempts + 1,
                        lastValidation := Some(failed.value.command), lastResult := Some(FailedResult));
        ImplementingKeeps(ctx.spec, task, s, state);
        PersistKeeps(ctx, s, state);
        InvokePost(ctx, task, state, 0, n + 1);
        TurnAfter(ctx.spec, task, s, 0, Persist(ctx, state), state, 3, InvokeCodexTurn(ctx, task, state, 0, n + 1));
      } else {
        UnrepairedPost(ctx, task, s, n, validation.records, failed.value);
      }
    }
  }
}
