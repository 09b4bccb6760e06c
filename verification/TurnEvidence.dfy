/**
 * An independent reading of the Codex turns: each turn is judged by its evidence alone, and
 * a flat loop over the judgements decides the task. The mutually recursive functions of
 * the cycle agree with it for every oracle.
 */
module TurnEvidence {
  import opened Wrappers
  import opened TaskGraph
  import opened ExecutionState
  import opened Select
  import opened Cycle
  import opened CycleProofs
  import opened Durability

  datatype Judgement =
    | Tampered            // the state file changed around the turn
    | Aborted             // a foreign call raised
    | OutOfScope
    | Dropped             // Codex lost its stream
    | CodexFailed(failureClass: FailureClass)
    | Rejected(failureClass: FailureClass)
    | Accepted

  predicate AllPassed(records: seq<ValidationRecord>) {
    forall r :: r in records ==> r.passed
  }

  function Judge(turn: TurnObservation): Judgement {
    if turn.before.Some? then Aborted
    else if !RegularOrAbsent(turn.preFingerprint) || turn.afterCodex != turn.preFingerprint then Tampered
    else if turn.codex.CodexRaised? then Aborted
    else if turn.beforeScope != turn.preFingerprint then Tampered
    else if turn.scope.ScopeRaised? then Aborted
    else if turn.scope.ScopeViolated? then OutOfScope
    else if turn.codex.exitCode != 0 then
      if turn.codex.transportError then Dropped else CodexFailed(turn.codex.failureClass)
    else if turn.validation.ValidationRaised? then Aborted
    else
      var records: seq<ValidationRecord> := turn.validation.records;
      if AllPassed(records) then Accepted
      else Rejected(records[|records| - 1].failureClass)
  }

  datatype Ending = Ending(outcome: Option<CycleOutcome>, code: Option<string>, repairs: nat, next: nat)

  function OutcomeOf(class_: FailureClass): CycleOutcome {
    if class_ == EnvironmentFailure then FailedOutcome else EscalatedOutcome
  }

  /** The flat loop: three attempts to keep a stream, `limit` repairs, one judgement per turn. */
  function Drive(oracle: Oracle, limit: nat, used: nat, drops: nat, n: nat): (e: Ending)
    requires drops <= TRANSPORT_RETRY_MAX
    ensures n < e.next
    decreases if limit > used then limit - used else 0, TRANSPORT_RETRY_MAX - drops
  {
    match Judge(oracle.turn(n))
    case Tampered => Ending(Some(ScopeViolationOutcome), Some(STATE_TAMPERED), used, n + 1)
    case Aborted => Ending(None, None, used, n + 1)
    case OutOfScope => Ending(Some(ScopeViolationOutcome), None, used, n + 1)
    case CodexFailed(class_) => Ending(Some(OutcomeOf(class_)), None, used, n + 1)
    case Accepted => Ending(Some(TaskCompletedOutcome), None, used, n + 1)
    case Dropped =>
      if drops < TRANSPORT_RETRY_MAX then Drive(oracle, limit, used, drops + 1, n + 1)
      else Ending(Some(FailedOutcome), Some(CODEX_TRANSPORT_RETRY_LIMIT), used, n + 1)
    case Rejected(class_) =>
      if class_ != AgentRepairable then Ending(Some(OutcomeOf(class_)), None, used, n + 1)
      else if used < limit then Drive(oracle, limit, used + 1, 0, n + 1)
      else Ending(Some(EscalatedOutcome), Some(REPAIR_ATTEMPT_LIMIT), used, n + 1)
  }

  /** The state an outcome leaves. */
  function StatusOf(outcome: CycleOutcome): Status {
    match outcome
    case TaskCompletedOutcome => TaskCompleted
    case FinalVerificationPassed => FinalValidating
    case FailedOutcome => Failed
    case EscalatedOutcome => Escalated
    case ScopeViolationOutcome => ScopeViolation
  }

  /** The run of `task` from `s` ends as the loop says, and its result and state show it. */
  predicate Agrees(spec: TaskSpec, task: SpecTask, s: State, run: Run, e: Ending) {
    && run.turns == e.next
    && (run.exit.Raised? <==> e.outcome.None?)
    && (run.exit.Raised? ==> run.exit.error.External?)
    && (run.exit.Returned? ==>
          var r := run.exit.result;
          && e.outcome == Some(r.outcome) && r.code == e.code && r.taskId == Some(task.id) && ValidCycleResult(r)
          && OfUnit(spec, r.state) && r.state.currentTask == Some(task.id)
          && r.state.completedTasks == s.completedTasks + (if r.outcome == TaskCompletedOutcome then [task.id] else [])
          && r.state.repairAttempts == e.repairs
          && r.state.status == StatusOf(r.outcome)
          && r.state.lastResult == Some(if r.outcome == TaskCompletedOutcome then PassedResult else FailedResult))
  }

  lemma AcceptedIffNoFailedRecord(records: Records)
    ensures FailedRecord(records).None? <==> AllPassed(records)
    ensures FailedRecord(records).Some? ==> FailedRecord(records).value == records[|records| - 1]
  {
    assert records[|records| - 1] in records;
  }

  /** A failed ending says so in its outcome and its state. */
  lemma EndsAgree(ctx: Context, task: SpecTask, s: State, t: State, class_: FailureClass, message: string, code: Option<string>, n: nat)
    requires code != Some("") && (message == REPAIR_LIMIT_MESSAGE ==> code == Some(REPAIR_ATTEMPT_LIMIT))
    requires t.status == FailureTarget(class_) && t.lastResult == Some(FailedResult)
    requires OfUnit(ctx.spec, t) && t.currentTask == Some(task.id) && t.completedTasks == s.completedTasks
    ensures Agrees(ctx.spec, task, s, EndFailed(ctx, Some(task.id), t, class_, Ok(t), message, code, n),
                   Ending(Some(OutcomeOf(class_)), code, t.repairAttempts, n))
  {
  }

  lemma TamperedAgrees(spec: TaskSpec, task: SpecTask, s: State, n: nat)
    requires Turning(spec, task, s) && s.status == Implementing
    ensures Agrees(spec, task, s, StateTamperedResult(task, s, n),
                   Ending(Some(ScopeViolationOutcome), Some(STATE_TAMPERED), s.repairAttempts, n))
  {
  }

  /** The mutual recursion of the cycle computes exactly what the flat loop decides. */
  lemma {:induction false} TurnsFollowEvidence(ctx: Context, task: SpecTask, s: State, retries: nat, n: nat)
    requires Turning(ctx.spec, task, s) && s.status == Implementing && retries <= TRANSPORT_RETRY_MAX
    ensures Agrees(ctx.spec, task, s, InvokeCodexTurn(ctx, task, s, retries, n),
                   Drive(ctx.oracle, ctx.spec.repairAttemptLimit, s.repairAttempts, retries, n))
    decreases RemainingRepairs(ctx.spec.repairAttemptLimit, s.repairAttempts), TRANSPORT_RETRY_MAX - retries, 3
  {
    hide AfterCodex, StateTamperedResult;
    var turn := ctx.oracle.turn(n);
    TamperedAgrees(ctx.spec, task, s, n + 1);
    if turn.before.None? && RegularOrAbsent(turn.preFingerprint) && turn.preFingerprint == turn.afterCodex && turn.codex.CodexExited? {
      ScopedTurnFollowsEvidence(ctx, task, s, retries, n);
    }
  }

  /** What a transition with a failed result writes. */
  lemma MovedIs(s: State, target: Status, task: string)
    requires ApplyTransition(s, target, currentTask := To(Some(task)), lastResult := To(Some(FailedResult))).Ok?
    ensures ApplyTransition(s, target, currentTask := To(Some(task)), lastResult := To(Some(FailedResult))).value.lastResult == Some(FailedResult)
  {
  }

  lemma {:induction false} ScopedTurnFollowsEvidence(ctx: Context, task: SpecTask, s: State, retries: nat, n: nat)
    requires Turning(ctx.spec, task, s) && s.status == Implementing
    requires retries <= TRANSPORT_RETRY_MAX && ctx.oracle.turn(n).codex.CodexExited?
    requires ctx.oracle.turn(n).before.None? && RegularOrAbsent(ctx.oracle.turn(n).preFingerprint)
    requires ctx.oracle.turn(n).afterCodex == ctx.oracle.turn(n).preFingerprint
    ensures Agrees(ctx.spec, task, s, AfterCodex(ctx, task, s, retries, n),
                   Drive(ctx.oracle, ctx.spec.repairAttemptLimit, s.repairAttempts, retries, n))
    decreases RemainingRepairs(ctx.spec.repairAttemptLimit, s.repairAttempts), TRANSPORT_RETRY_MAX - retries, 2
  {
    hide InvokeCodexTurn, ValidateAndMaybeRepair, EndFailed, StateTamperedResult, Turning, ApplyTransition, OfUnit, Follows,
         IsRepair, IsCompletion, AllPassed, FailedRecord, SchemaValid;
    var turn := ctx.oracle.turn(n);
    TamperedAgrees(ctx.spec, task, s, n + 1);
    if turn.beforeScope != turn.preFingerprint {
    } else if !turn.scope.ScopeAllowed? {
      TurningMoves(ctx.spec, task, s, ScopeViolation, Keep, To(Some(FailedResult)));
      MovedIs(s, ScopeViolation, task.id);
    } else if turn.codex.exitCode == 0 {
      TurningMoves(ctx.spec, task, s, Validating, Keep, Keep);
      var state := ApplyTransition(s, Validating, currentTask := To(Some(task.id))).value;
      ValidationFollowsEvidence(ctx, task, state, n);
      if turn.validation.ValidationRan? {
        AcceptedIffNoFailedRecord(turn.validation.records);
      }
    } else if turn.codex.transportError && retries < TRANSPORT_RETRY_MAX {
      TurnsFollowEvidence(ctx, task, s, retries + 1, n + 1);
    } else {
      FailedExitFollowsEvidence(ctx, task, s, turn.codex, n + 1);
    }
  }

  lemma FailedExitFollowsEvidence(ctx: Context, task: SpecTask, s: State, codex: CodexRun, n: nat)
    requires Turning(ctx.spec, task, s) && s.status == Implementing && codex.CodexExited?
    ensures
      var class_ := if codex.transportError then EnvironmentFailure else codex.failureClass;
      var code := if codex.transportError then Some(CODEX_TRANSPORT_RETRY_LIMIT) else None;
      Agrees(ctx.spec, task, s,
        EndFailed(ctx, Some(task.id), s, class_,
          ApplyTransition(s, FailureTarget(class_),
            currentTask := To(Some(task.id)), lastResult := To(Some(FailedResult))),
          if codex.transportError then "codex transport retry limit reached" else "codex exited non-zero",
          code, n),
        Ending(Some(OutcomeOf(class_)), code, s.repairAttempts, n))
  {
    var class_ := if codex.transportError then EnvironmentFailure else codex.failureClass;
    TurningMoves(ctx.spec, task, s, FailureTarget(class_), Keep, To(Some(FailedResult)));
    var t := ApplyTransition(s, FailureTarget(class_), currentTask := To(Some(task.id)), lastResult := To(Some(FailedResult))).value;
    assert "codex exited non-zero"[0] != REPAIR_LIMIT_MESSAGE[0];
    EndsAgree(ctx, task, s, t, class_,
      if codex.transportError then "codex transport retry limit reached" else "codex exited non-zero",
      if codex.transportError then Some(CODEX_TRANSPORT_RETRY_LIMIT) else None, n);
  }

  lemma {:induction false} ValidationFollowsEvidence(ctx: Context, task: SpecTask, s: State, n: nat)
    requires Turning(ctx.spec, task, s) && s.status == Validating
    ensures
      var run := ValidateAndMaybeRepair(ctx, task, s, n);
      match ctx.oracle.turn(n).validation
      case ValidationRaised(_) => run.exit.Raised? && run.exit.error.External? && run.turns == n + 1
      case ValidationRan(records) =>
        if FailedRecord(records).None? then
          Agrees(ctx.spec, task, s, run, Ending(Some(TaskCompletedOutcome), None, s.repairAttempts, n + 1))
        else
          var class_ := FailedRecord(records).value.failureClass;
          if class_ != AgentRepairable then Agrees(ctx.spec, task, s, run, Ending(Some(OutcomeOf(class_)), None, s.repairAttempts, n + 1))
          else if s.repairAttempts < ctx.spec.repairAttemptLimit then
            Agrees(ctx.spec, task, s, run, Drive(ctx.oracle, ctx.spec.repairAttemptLimit, s.repairAttempts + 1, 0, n + 1))
          else Agrees(ctx.spec, task, s, run, Ending(Some(EscalatedOutcome), Some(REPAIR_ATTEMPT_LIMIT), s.repairAttempts, n + 1))
    decreases RemainingRepairs(ctx.spec.repairAttemptLimit, s.repairAttempts), 0, 1
  {
    hide InvokeCodexTurn, EndFailed, Drive;
    var validation := ctx.oracle.turn(n).validation;
    if validation.ValidationRan? && FailedRecord(validation.records).Some? {
      RejectionFollowsEvidence(ctx, task, s, n, FailedRecord(validation.records).value);
    }
  }

  lemma {:induction false} RejectionFollowsEvidence(ctx: Context, task: SpecTask, s: State, n: nat, failed: ValidationRecord)
    requires Turning(ctx.spec, task, s) && s.status == Validating
    requires ctx.oracle.turn(n).validation.ValidationRan?
    requires FailedRecord(ctx.oracle.turn(n).validation.records) == Some(failed)
    ensures
      var run := ValidateAndMaybeRepair(ctx, task, s, n);
      var class_ := failed.failureClass;
      if class_ != AgentRepairable then Agrees(ctx.spec, task, s, run, Ending(Some(OutcomeOf(class_)), None, s.repairAttempts, n + 1))
      else if s.repairAttempts < ctx.spec.repairAttemptLimit then
        Agrees(ctx.spec, task, s, run, Drive(ctx.oracle, ctx.spec.repairAttemptLimit, s.repairAttempts + 1, 0, n + 1))
      else Agrees(ctx.spec, task, s, run, Ending(Some(EscalatedOutcome), Some(REPAIR_ATTEMPT_LIMIT), s.repairAttempts, n + 1))
    decreases RemainingRepairs(ctx.spec.repairAttemptLimit, s.repairAttempts), 0, 0
  {
    hide InvokeCodexTurn, EndFailed, Drive, FailedRecord, SchemaValid;
    var class_ := failed.failureClass;
    if class_ == AgentRepairable && s.repairAttempts < ctx.spec.repairAttemptLimit {
      RepairMoves(ctx.spec, task, s, failed);
      var changes := ApplyTransition(s, Implementing, currentTask := To(Some(task.id)),
        repairAttempts := To(s.repairAttempts + 1),
        lastValidation := To(Some(failed.command)), lastResult := To(Some(FailedResult)));
      TurnsFollowEvidence(ctx, task, changes.value, 0, n + 1);
    } else {
      var target := if class_ == EnvironmentFailure then Failed else Escalated;
      TurningMoves(ctx.spec, task, s, target, To(Some(failed.command)), To(Some(FailedResult)));
      var t := ApplyTransition(s, target, currentTask := To(Some(task.id)),
        lastValidation := To(Some(failed.command)), lastResult := To(Some(FailedResult))).value;
      assert "environment"[0] != REPAIR_LIMIT_MESSAGE[0] && "validation"[0] != REPAIR_LIMIT_MESSAGE[0];
      var message := if class_ == EnvironmentFailure then "environment failure is not sent to repair"
                     else if class_ == EscalationRequired then "validation failure requires escalation"
                     else REPAIR_LIMIT_MESSAGE;
      var code := if class_ == AgentRepairable then Some(REPAIR_ATTEMPT_LIMIT) else None;
      EndsAgree(ctx, task, s, t, class_, message, code, n + 1);
      EndFailedOfOther(ctx, task, s, t, class_, message, code, n + 1);
    }
  }

  /** The state before the ending does not matter. */
  lemma EndFailedOfOther(
    ctx: Context, task: SpecTask, s: State, t: State, class_: FailureClass, message: string, code: Option<string>, n: nat)
    ensures EndFailed(ctx, Some(task.id), s, class_, Ok(t), message, code, n)
         == EndFailed(ctx, Some(task.id), t, class_, Ok(t), message, code, n)
  {
  }

  /**
   * The last turn decides: a task is completed only on a turn whose evidence is accepted, a
   * failure is the environment's, anything else is for people; every earlier turn was retried.
   */
  lemma {:induction false} CompletionNeedsAcceptedTurn(oracle: Oracle, limit: nat, used: nat, drops: nat, n: nat)
    requires drops <= TRANSPORT_RETRY_MAX
    ensures
      var e := Drive(oracle, limit, used, drops, n);
      && n < e.next && used <= e.repairs && (used <= limit ==> e.repairs <= limit) && (used > limit ==> e.repairs == used)
      && (e.outcome.None? <==> Judge(oracle.turn(e.next - 1)) == Aborted)
      && e.outcome != Some(FinalVerificationPassed)
      && (e.outcome == Some(TaskCompletedOutcome) <==> Judge(oracle.turn(e.next - 1)) == Accepted)
      && (e.outcome == Some(ScopeViolationOutcome) <==> Judge(oracle.turn(e.next - 1)) in {Tampered, OutOfScope})
      && (e.code == Some(STATE_TAMPERED) <==> Judge(oracle.turn(e.next - 1)) == Tampered)
      && (e.outcome == Some(FailedOutcome) <==>
            Judge(oracle.turn(e.next - 1)) in {CodexFailed(EnvironmentFailure), Rejected(EnvironmentFailure), Dropped})
      && (e.outcome == Some(EscalatedOutcome) <==>
            Judge(oracle.turn(e.next - 1)) in {CodexFailed(AgentRepairable), CodexFailed(EscalationRequired),
                                               Rejected(AgentRepairable), Rejected(EscalationRequired)})
      && (forall k :: n <= k < e.next - 1 ==> Judge(oracle.turn(k)) in {Dropped, Rejected(AgentRepairable)})
    decreases RemainingRepairs(limit, used), TRANSPORT_RETRY_MAX - drops
  {
    hide Judge;
    Codes();
    var judged := Judge(oracle.turn(n));
    if judged.Dropped? && drops < TRANSPORT_RETRY_MAX {
      CompletionNeedsAcceptedTurn(oracle, limit, used, drops + 1, n + 1);
    } else if judged == Rejected(AgentRepairable) && used < limit {
      CompletionNeedsAcceptedTurn(oracle, limit, used + 1, 0, n + 1);
    }
  }

  lemma Codes()
    ensures STATE_TAMPERED != CODEX_TRANSPORT_RETRY_LIMIT && STATE_TAMPERED != REPAIR_ATTEMPT_LIMIT
  {
    assert STATE_TAMPERED[0] != CODEX_TRANSPORT_RETRY_LIMIT[0] && STATE_TAMPERED[0] != REPAIR_ATTEMPT_LIMIT[0];
  }

  /** Final verification passes exactly when it ran and every command passed. */
  lemma FinalVerificationExact(ctx: Context, s: State, c: nat, n: nat)
    requires StateInv(ctx.spec, s) && s.status == FinalValidating
    ensures
      var run := FinalVerify(ctx, s, c, n);
      var final := ctx.oracle.finalRun(c);
      (run.exit.Returned? && run.exit.result.outcome == FinalVerificationPassed)
      <==> final.ValidationRan? && AllPassed(final.records)
  {
    hide LinearExtension, CurrentTaskSound;
    var final := ctx.oracle.finalRun(c);
    if final.ValidationRan? {
      AcceptedIffNoFailedRecord(final.records);
    }
  }
}
