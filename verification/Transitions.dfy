/** The status table of `agent/state.py`, read backwards, and what it means for whole paths. */
module Transitions {
  import opened Wrappers
  import opened ExecutionState

  /** The statuses a status can be entered from. */
  function EnteredFrom(t: Status): set<Status> {
    match t
    case Pending => {}
    case Running => {Pending, Failed}
    case Implementing => {Running, Validating, TaskCompleted, InReview}
    case Validating => {Implementing}
    case TaskCompleted => {Validating}
    case FinalValidating => {TaskCompleted}
    case PrCreated => {FinalValidating}
    case InReview => {PrCreated}
    case ReadyForHuman => {InReview}
    case Completed => {ReadyForHuman}
    case InvalidSpec => {Pending, Running}
    case ScopeViolation => {Implementing, Validating}
    case Failed => {Running, Implementing, Validating, TaskCompleted, FinalValidating, PrCreated, InReview}
    case Escalated => {Running, Implementing, Validating, TaskCompleted, FinalValidating, PrCreated, InReview}
  }

  lemma EnteredFromIs(s: Status, t: Status)
    ensures t in AllowedTransitions(s) <==> s in EnteredFrom(t)
  {
  }

  /** A path through the table. */
  predicate Path(p: seq<Status>) {
    forall i :: 0 <= i < |p| - 1 ==> p[i + 1] in AllowedTransitions(p[i])
  }

  /** Whatever was tried before: what is delivered was implemented, validated and finally validated last, in that order. */
  lemma DeliveryIsValidated(p: seq<Status>)
    requires Path(p) && |p| > 0 && p[0] == Pending && p[|p| - 1] == PrCreated
    ensures |p| >= 6 && p[|p| - 5..] == [Implementing, Validating, TaskCompleted, FinalValidating, PrCreated]
  {
    var n := |p|;
    EnteredFromIs(p[n - 2], PrCreated);
    EnteredFromIs(p[n - 3], FinalValidating);
    EnteredFromIs(p[n - 4], TaskCompleted);
    EnteredFromIs(p[n - 5], Validating);
  }

  /** Nothing is COMPLETED but by way of a delivered, reviewed and ready pull request. */
  lemma CompletionIsReviewed(p: seq<Status>)
    requires Path(p) && |p| > 0 && p[0] == Pending && p[|p| - 1] == Completed
    ensures |p| >= 9
    ensures p[|p| - 8..] == [Implementing, Validating, TaskCompleted, FinalValidating, PrCreated, InReview, ReadyForHuman, Completed]
  {
    var n := |p|;
    EnteredFromIs(p[n - 2], Completed);
    EnteredFromIs(p[n - 3], ReadyForHuman);
    EnteredFromIs(p[n - 4], InReview);
    DeliveryIsValidated(p[..n - 3]);
    assert p[..n - 3][|p[..n - 3]| - 5..] == p[n - 8..n - 3];
    assert p[n - 8..] == p[n - 8..n - 3] + p[n - 3..];
  }

  /** A path stops for good exactly where people must act or everything is done; only FAILED goes back to RUNNING. */
  lemma StopsForGood(s: Status)
    ensures AllowedTransitions(s) == {} <==> s in {Escalated, ScopeViolation, InvalidSpec, Completed}
    ensures Running in AllowedTransitions(s) <==> s in {Pending, Failed}
    ensures s == Failed ==> AllowedTransitions(s) == {Running}
  {
    assert s !in {Escalated, ScopeViolation, InvalidSpec, Completed} ==>
      exists t :: t in AllowedTransitions(s) by {
      match s
      case Pending => assert Running in AllowedTransitions(s);
      case Failed => assert Running in AllowedTransitions(s);
      case ReadyForHuman => assert Completed in AllowedTransitions(s);
      case Escalated =>
      case ScopeViolation =>
      case InvalidSpec =>
      case Completed =>
      case _ => assert Escalated in AllowedTransitions(s);
    }
  }

  // ---------- What a transition refuses ----------

  /** A letter or digit, then letters, digits, underscores and hyphens. */
  predicate PlainId(id: string) {
    && id != "" && id[0] !in {'_', '-'}
    && forall c :: c in id ==> 'A' <= c <= 'Z' || 'a' <= c <= 'z' || '0' <= c <= '9' || c in {'_', '-'}
  }

  function IdsIn(s: State): set<string> {
    {s.taskId} + (if s.currentTask.Some? then {s.currentTask.value} else {}) + (set x | x in s.completedTasks)
  }

  lemma PlainIdIs(id: string)
    ensures PlainId(id) <==> IsTaskId(id)
  {
    if IsTaskId(id) {
      forall c | c in id ensures IsAlnum(c) || c in {'_', '-'} {
        var i :| 0 <= i < |id| && id[i] == c;
      }
    }
    if PlainId(id) {
      assert id[0] in id;
      forall i | 0 < i < |id| ensures IsAlnum(id[i]) || id[i] in {'_', '-'} { assert id[i] in id; }
    }
  }

  /**
   * A transition outside the table is refused first; one inside it, if and only if the state names no
   * branch or an identifier of it is malformed, whatever else it holds. Otherwise only the status moves.
   */
  lemma TransitionIs(s: State, target: Status)
    ensures
      var r := ApplyTransition(s, target);
      && (r == Err(InvalidTransition) <==> s.status !in EnteredFrom(target))
      && (r == Err(SchemaError) <==>
            s.status in EnteredFrom(target) && (s.branch == "" || exists id :: id in IdsIn(s) && !PlainId(id)))
      && (r.Ok? ==> r.value == s.(status := target))
  {
    EnteredFromIs(s.status, target);
    forall id: string ensures PlainId(id) <==> IsTaskId(id) { PlainIdIs(id); }
    hide IsTaskId, PlainId, AllowedTransitions, EnteredFrom;
    assert s.taskId in IdsIn(s);
    if s.currentTask.Some? { assert s.currentTask.value in IdsIn(s); }
    assert forall i :: 0 <= i < |s.completedTasks| ==> s.completedTasks[i] in IdsIn(s);
  }
}
