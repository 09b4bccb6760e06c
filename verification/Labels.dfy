/** Exclusive status labels of a pull request, `agent/labels.py`. */
module Labels {
  import opened Wrappers

  datatype Label = AgentRunning | AgentReview | AgentReady | AgentEscalated | AgentFailed | OtherLabel(name: string)

  const EXCLUSIVE_STATUS_LABELS := [AgentReview, AgentReady, AgentEscalated, AgentFailed]
  const TERMINAL_STATUS_LABELS := [AgentFailed, AgentEscalated, AgentReady]

  /** One GitHub call on the label set. */
  datatype LabelStep = Add(status: Label) | Remove(status: Label)

  function ApplyStep(labels: set<Label>, step: LabelStep): set<Label> {
    match step
    case Add(l) => labels + {l}
    case Remove(l) => labels - {l}
  }

  function ApplySteps(labels: set<Label>, steps: seq<LabelStep>): set<Label>
    decreases |steps|
  {
    if steps == [] then labels else ApplySteps(ApplyStep(labels, steps[0]), steps[1..])
  }

  /** The calls `apply_status_label` makes: the new label first, then the others removed in order. */
  function StatusSteps(target: Label): seq<LabelStep> {
    [Add(target)] + (if target in EXCLUSIVE_STATUS_LABELS then RemovalsExcept(target, EXCLUSIVE_STATUS_LABELS) else [])
  }

  function RemovalsExcept(target: Label, names: seq<Label>): seq<LabelStep> {
    if names == [] then []
    else (if names[0] != target then [Remove(names[0])] else []) + RemovalsExcept(target, names[1..])
  }

  /** The sticky label: failed before escalated before ready. */
  function CurrentTerminal(labels: set<Label>): Option<Label> {
    if AgentFailed in labels then Some(AgentFailed)
    else if AgentEscalated in labels then Some(AgentEscalated)
    else if AgentReady in labels then Some(AgentReady)
    else None
  }

  /** The issue whose labels the calls change one by one. */
  class Issue {
    var labels: set<Label>
    ghost var steps: seq<LabelStep>

    constructor (initial: set<Label>)
      ensures labels == initial && steps == []
    {
      labels, steps := initial, [];
    }

    method Call(step: LabelStep)
      modifies this
      ensures labels == ApplyStep(old(labels), step) && steps == old(steps) + [step]
    {
      labels := if step.Add? then labels + {step.status} else labels - {step.status};
      steps := steps + [step];
    }

    method RemoveOthers(target: Label, names: seq<Label>)
      modifies this
      ensures steps == old(steps) + RemovalsExcept(target, names)
      ensures labels == ApplySteps(old(labels), RemovalsExcept(target, names))
    {
      ghost var done: seq<LabelStep> := [];
      for i := 0 to |names|
        invariant done + RemovalsExcept(target, names[i..]) == RemovalsExcept(target, names)
        invariant steps == old(steps) + done && labels == ApplySteps(old(labels), done)
      {
        ghost var rest := RemovalsExcept(target, names[i + 1..]);
        assert names[i..][0] == names[i] && names[i..][1..] == names[i + 1..];
        if names[i] != target {
          assert done + ([Remove(names[i])] + rest) == done + [Remove(names[i])] + rest;
          Call(Remove(names[i]));
          ApplyStepsAppend(old(labels), done, Remove(names[i]));
          done := done + [Remove(names[i])];
        } else {
          assert [] + rest == rest;
        }
      }
      assert done == RemovalsExcept(target, names);
    }

    method ApplyStatusLabel(target: Label) returns (known: bool)
      modifies this
      ensures known <==> !target.OtherLabel?
      ensures !known ==> labels == old(labels) && steps == old(steps)
      ensures known ==> steps == old(steps) + StatusSteps(target)
      ensures known ==> labels == ApplySteps(old(labels), StatusSteps(target))
    {
      hide RemovalsExcept;
      if target.OtherLabel? {
        return false;
      }
      Call(Add(target));
      ghost var all := StatusSteps(target);
      if target in EXCLUSIVE_STATUS_LABELS {
        RemoveOthers(target, EXCLUSIVE_STATUS_LABELS);
      }
      assert all[0] == Add(target) && all[1..] == if target in EXCLUSIVE_STATUS_LABELS then RemovalsExcept(target, EXCLUSIVE_STATUS_LABELS) else [];
      return true;
    }

    method CurrentTerminalStatusLabel() returns (sticky: Option<Label>)
      ensures sticky == CurrentTerminal(labels)
    {
      for i := 0 to |TERMINAL_STATUS_LABELS|
        invariant i > 0 ==> AgentFailed !in labels
        invariant i > 1 ==> AgentEscalated !in labels
        invariant i > 2 ==> AgentReady !in labels
      {
        if TERMINAL_STATUS_LABELS[i] in labels {
          return Some(TERMINAL_STATUS_LABELS[i]);
        }
      }
      return None;
    }
  }

  lemma {:induction false} ApplyStepsAppend(labels: set<Label>, steps: seq<LabelStep>, last: LabelStep)
    ensures ApplySteps(labels, steps + [last]) == ApplyStep(ApplySteps(labels, steps), last)
    decreases |steps|
  {
    if steps == [] {
      assert steps + [last] == [last];
    } else {
      assert (steps + [last])[1..] == steps[1..] + [last];
      ApplyStepsAppend(ApplyStep(labels, steps[0]), steps[1..], last);
    }
  }

  predicate Exclusive(l: Label) {
    l in EXCLUSIVE_STATUS_LABELS
  }

  /** The label set after the first `k` calls of an exclusive change. */
  function AfterCalls(labels: set<Label>, target: Label, k: nat): set<Label> {
    ApplySteps(labels, StatusSteps(target)[..if k <= |StatusSteps(target)| then k else |StatusSteps(target)|])
  }

  lemma {:induction false} StatusStepsAre(target: Label)
    requires Exclusive(target)
    ensures StatusSteps(target) == match target
                                   case AgentReview => [Add(AgentReview), Remove(AgentReady), Remove(AgentEscalated), Remove(AgentFailed)]
                                   case AgentReady => [Add(AgentReady), Remove(AgentReview), Remove(AgentEscalated), Remove(AgentFailed)]
                                   case AgentEscalated => [Add(AgentEscalated), Remove(AgentReview), Remove(AgentReady), Remove(AgentFailed)]
                                   case _ => [Add(AgentFailed), Remove(AgentReview), Remove(AgentReady), Remove(AgentEscalated)]
  {
    var e := EXCLUSIVE_STATUS_LABELS;
    assert e[1..] == [AgentReady, AgentEscalated, AgentFailed] && e[2..] == [AgentEscalated, AgentFailed] && e[3..] == [AgentFailed];
    assert e[1..][1..] == e[2..] && e[2..][1..] == e[3..] && e[3..][1..] == [];
  }

  lemma StatusStepsShape(target: Label)
    requires Exclusive(target)
    ensures var steps := StatusSteps(target);
            && |steps| == 4 && steps[0] == Add(target)
            && forall i :: 1 <= i < |steps| ==> steps[i].Remove? && steps[i].status != target
  {
    hide StatusSteps, RemovalsExcept;
    StatusStepsAre(target);
  }

  lemma {:induction false} AfterCallsIs(labels: set<Label>, target: Label, k: nat)
    requires Exclusive(target) && k <= 4
    ensures
      var s := StatusSteps(target);
      && |s| == 4
      && AfterCalls(labels, target, k) ==
         (if k == 0 then labels
          else labels + {target} - (if k > 1 then {s[1].status} else {}) - (if k > 2 then {s[2].status} else {})
               - (if k > 3 then {s[3].status} else {}))
    decreases k
  {
    hide StatusSteps, RemovalsExcept;
    StatusStepsShape(target);
    var s := StatusSteps(target);
    if k > 0 {
      AfterCallsIs(labels, target, k - 1);
      ApplyStepsAppend(labels, s[..k - 1], s[k - 1]);
      assert s[..k] == s[..k - 1] + [s[k - 1]];
    }
  }

  /**
   * However many calls of a label change went through: the target is present from the
   * first one on, no other label of the issue changed, and the sticky reading is either the
   * one before the change or the one after it, never a third. Complete, it leaves the target
   * as the only exclusive label.
   */
  lemma LabelChangeIsSafe(labels: set<Label>, target: Label, k: nat)
    requires Exclusive(target) && k <= |StatusSteps(target)|
    ensures
      var now, end := AfterCalls(labels, target, k), ApplySteps(labels, StatusSteps(target));
      && (k > 0 ==> target in now)
      && (forall l :: !Exclusive(l) ==> (l in now <==> l in labels))
      && (CurrentTerminal(now) == CurrentTerminal(labels) || CurrentTerminal(now) == CurrentTerminal(end))
      && (forall l :: Exclusive(l) ==> (l in end <==> l == target))
  {
    hide RemovalsExcept, ApplySteps, ApplyStep;
    StatusStepsAre(target);
    AfterCallsIs(labels, target, k);
    AfterCallsIs(labels, target, 4);
    var s := StatusSteps(target);
    assert s[..4] == s;
    match target
    case AgentReview =>
    case AgentReady =>
    case AgentEscalated =>
    case AgentFailed =>
  }
}
