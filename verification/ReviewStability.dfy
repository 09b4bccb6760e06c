/** Ready and escalated outcomes are durable: the next run on the same head finds them and changes nothing. */
module ReviewStability {
  import opened Wrappers
  import opened ReviewTracking
  import opened Labels
  import opened ReviewLoop
  import opened ReviewRecord
  import opened ReviewProofs
  import opened ReviewNotices
  import opened ReviewProgress

  /** What a run leaves behind when it ends for people: its track on the head, and one label. */
  ghost predicate Leaves(input: RunInput, plan: Plan, end: Record, target: Label) {
    && plan.exit.Returned? && !plan.exit.sticky
    && end.track.Some?
    && end.track.value.1.headSha == input.head
    && end.track.value.1.processed == plan.exit.processed
    && end.track.value.1.reviewAttempts == plan.exit.attempts
    && forall l :: Exclusive(l) ==> (l in end.labels <==> l == target)
  }

  lemma EscalatedLeaves(
    cfg: ReviewConfig, w: World, input: RunInput, done: seq<Effect>, trackId: Option<int>, t: ReviewTrack, reason: string, r: Record)
    ensures
      var plan := EscalatePlan(cfg, w, input, done, trackId, t, reason);
      Leaves(input, plan, AfterAll(r, plan), AgentEscalated)
  {
    hide StatusSteps, HasEscalationComment, StatusEffects, PersistTrack;
    var bound := WithProcessed(t, [], false, Some(input.head));
    var effects := done + [PersistTrack(input, trackId, bound)] + StatusEffects(AgentEscalated);
    PersistThenLabels(r, done, input, trackId, bound, AgentEscalated);
    var notice := PostNotice(input.noticeCommentId, input.notice(reason));
    StepsAppend(r, effects, [notice]);
    NoticeKeeps(Steps(r, effects), notice);
  }

  lemma NoticeKeeps(r: Record, notice: Effect)
    requires notice.PostNotice?
    ensures Steps(r, [notice]).track == r.track && Steps(r, [notice]).labels == r.labels
  {
    assert [notice][1..] == [];
  }

  lemma ConvergedLeaves(
    input: RunInput, done: seq<Effect>, trackId: Option<int>, t: ReviewTrack, items: seq<Feedback>, r: Record)
    requires trackId.Some?
    ensures
      var plan := ConvergencePlan(input, done, trackId, t, items);
      plan.exit.outcome == ReadyForHuman ==> Leaves(input, plan, AfterAll(r, plan), AgentReady)
  {
    hide StatusSteps;
    ConvergenceIsExact(input, done, trackId, t, items, r);
  }

  /** How a run on completed feedback can end for people. */
  lemma CompletedLeaves(
    cfg: ReviewConfig, unit: WorkUnit, w: World, input: RunInput, trackId: Option<int>, track: ReviewTrack, r: Record)
    ensures
      var plan := CompletedPlan(cfg, unit, w, input, trackId, track);
      && (plan.exit.Returned? && plan.exit.outcome == ReviewEscalated ==> Leaves(input, plan, AfterAll(r, plan), AgentEscalated))
      && (plan.exit.Returned? && plan.exit.outcome == ReadyForHuman ==> Leaves(input, plan, AfterAll(r, plan), AgentReady))
      && (plan.exit.Returned? ==> plan.exit.outcome != ReviewFailed)
  {
    hide EscalatePlan, ConvergencePlan, DecidedPlan, StatusEffects, PartitionItems, ClassifyFrom, WithProcessed, Leaves, Steps,
         PersistTrack;
    var done := StatusEffects(AgentReview);
    var items := Collect(input.feedback, cfg.actor);
    var p := PartitionItems(cfg, input, track, items);
    if p.forbidden != [] {
      EscalatedLeaves(cfg, w, input, done, trackId, WithProcessed(track, p.skipped + IdentitiesOf(p.forbidden), false, None),
        "review references a forbidden path", r);
      EscalatedIs(cfg, w, input, done, trackId, WithProcessed(track, p.skipped + IdentitiesOf(p.forbidden), false, None),
        "review references a forbidden path");
    } else {
      var batch := Batch(cfg.maxCommentsPerRun, p.candidates);
      var classified := ClassifyFrom(cfg, input, [], batch);
      if batch == [] {
        var updated := WithProcessed(track, p.skipped, false, None);
        var persisted := done + [PersistTrack(input, trackId, updated)];
        ConvergedLeaves(input, persisted, PersistedId(input, trackId), updated, items, r);
        ConvergedIs(input, persisted, PersistedId(input, trackId), updated, items);
      } else if classified.FailClosed? {
        var t := WithProcessed(track, p.skipped + [classified.item.identity], false, None);
        EscalatedLeaves(cfg, w, input, done, trackId, t, classified.message, r);
        EscalatedIs(cfg, w, input, done, trackId, t, classified.message);
      } else if classified.AllDecided? {
        DecidedLeaves(cfg, unit, w, input, done, trackId, track, items, p, batch, classified.decided, r);
      }
    }
  }

  lemma EscalatedIs(
    cfg: ReviewConfig, w: World, input: RunInput, done: seq<Effect>, trackId: Option<int>, t: ReviewTrack, reason: string)
    ensures var exit := EscalatePlan(cfg, w, input, done, trackId, t, reason).exit;
            exit.Returned? && exit.outcome == ReviewEscalated
  {
    hide StatusSteps, HasEscalationComment, ApplyEffects;
  }

  lemma ConvergedIs(input: RunInput, done: seq<Effect>, trackId: Option<int>, t: ReviewTrack, items: seq<Feedback>)
    ensures var exit := ConvergencePlan(input, done, trackId, t, items).exit;
            exit.Returned? && exit.outcome in {ReadyForHuman, InReviewOutcome}
  {
    hide StatusSteps;
  }

  lemma DecidedLeaves(
    cfg: ReviewConfig, unit: WorkUnit, w: World, input: RunInput, done: seq<Effect>, trackId: Option<int>, track: ReviewTrack,
    items: seq<Feedback>, p: Partition, batch: seq<Feedback>, decided: seq<Decided>, r: Record)
    ensures
      var plan := DecidedPlan(cfg, unit, w, input, done, trackId, track, items, p, batch, decided);
      && (plan.exit.Returned? && plan.exit.outcome == ReviewEscalated ==> Leaves(input, plan, AfterAll(r, plan), AgentEscalated))
      && (plan.exit.Returned? && plan.exit.outcome == ReadyForHuman ==> Leaves(input, plan, AfterAll(r, plan), AgentReady))
      && (plan.exit.Returned? ==> plan.exit.outcome != ReviewFailed)
  {
    hide EscalatePlan, ConvergencePlan, StatusEffects, FirstEscalation, AcceptedItems, WithProcessed, Leaves, Steps, PersistTrack;
    var updated := WithProcessed(track, p.skipped + IdentitiesOf(batch), false, None);
    if FirstEscalation(decided).Some? {
      EscalatedLeaves(cfg, w, input, done, trackId, updated, FirstEscalation(decided).value, r);
      EscalatedIs(cfg, w, input, done, trackId, updated, FirstEscalation(decided).value);
    } else if AcceptedItems(decided) == [] {
      var persisted := done + [PersistTrack(input, trackId, updated)];
      ConvergedLeaves(input, persisted, PersistedId(input, trackId), updated, items, r);
      ConvergedIs(input, persisted, PersistedId(input, trackId), updated, items);
    } else if track.reviewAttempts >= ReviewAttemptLimit(cfg, unit) {
      EscalatedLeaves(cfg, w, input, done, trackId, updated, "review_attempt_limit reached", r);
      EscalatedIs(cfg, w, input, done, trackId, updated, "review_attempt_limit reached");
    }
  }

  function TargetOf(outcome: ReviewOutcome): Label {
    if outcome == ReadyForHuman then AgentReady else AgentEscalated
  }

  /** The run ended for people on its own evidence, not on a label it found. */
  predicate EndsForPeople(plan: Plan) {
    plan.exit.Returned? && !plan.exit.sticky && plan.exit.outcome in {ReadyForHuman, ReviewEscalated}
  }

  lemma PlanLeaves(cfg: ReviewConfig, unit: WorkUnit, w: World, r: Record, input: RunInput)
    requires Describes(cfg, unit, w, r)
    ensures
      var plan := ReviewPlan(cfg, unit, w, input);
      EndsForPeople(plan) ==> Leaves(input, plan, AfterAll(r, plan), TargetOf(plan.exit.outcome))
  {
    hide StatusSteps, StatusEffects, EscalatePlan, CompletedPlan, Leaves, Represents, RecordInv, Steps;
    LoadReadsRecord(cfg, unit, w, r);
    var (trackId, track) := Loaded(r, unit.identity);
    var reason := "CodeRabbit terminal is " + TerminalName(input.terminal);
    CompletedLeaves(cfg, unit, w, input, trackId, track, r);
    EscalatedLeaves(cfg, w, input, [], trackId, track, reason, r);
    EscalatedIs(cfg, w, input, [], trackId, track, reason);
  }

  /**
   * Main theorem. After an undisturbed run that ended READY or ESCALATED on its own evidence, any
   * further run on the same head that finds no forged marker, the run's own notice included,
   * returns the same outcome with the same processed set and attempts, and makes no effect at all.
   */
  lemma TerminalIsStable(
    cfg: ReviewConfig, unit: WorkUnit, w: World, r: Record, input: RunInput, next: RunInput, foreign: seq<Comment>)
    requires Describes(cfg, unit, w, r) && ValidUnit(unit) && ValidInput(input, r.ids)
    requires forall i :: 0 <= i < |foreign| ==> foreign[i].author != cfg.trackAuthor && !HasMarker(foreign[i].body)
    requires next.head == input.head && next.setupError.None?
    ensures
      var plan := ReviewPlan(cfg, unit, w, input);
      var after := ApplyEffects(cfg, w, plan.effects).(foreign := foreign);
      EndsForPeople(plan) && (plan.exit.outcome == ReviewEscalated ==> Quiet(input)) ==>
        ReviewPlan(cfg, unit, after, next) == Plan([], Returned(plan.exit.outcome, plan.exit.processed, plan.exit.attempts, true))
  {
    hide ReviewPlan, Represents, RecordInv, Steps, ApplyEffects, HasMarker, ValidUnit, ValidInput, Quiet;
    var plan := ReviewPlan(cfg, unit, w, input);
    if EndsForPeople(plan) && (plan.exit.outcome == ReviewEscalated ==> Quiet(input)) {
      PlanLeaves(cfg, unit, w, r, input);
      UnquotedPlanAllowed(cfg, unit, w, r, input);
      EffectsKeep(cfg, unit, w, r, plan.effects);
      var end := AfterAll(r, plan);
      NewForeign(cfg, ApplyEffects(cfg, w, plan.effects), end, foreign);
      StickyNext(cfg, unit, ApplyEffects(cfg, w, plan.effects).(foreign := foreign), end, input, plan, next);
    }
  }

  lemma StickyNext(cfg: ReviewConfig, unit: WorkUnit, w: World, end: Record, input: RunInput, plan: Plan, next: RunInput)
    requires Represents(cfg, w, end) && RecordInv(cfg, unit, end)
    requires EndsForPeople(plan) && Leaves(input, plan, end, TargetOf(plan.exit.outcome))
    requires forall i :: 0 <= i < |w.foreign| ==> !HasMarker(w.foreign[i].body)
    requires next.head == input.head && next.setupError.None?
    ensures ReviewPlan(cfg, unit, w, next) ==
            Plan([], Returned(plan.exit.outcome, plan.exit.processed, plan.exit.attempts, true))
  {
    hide RecordInv, HasMarker, CompletedPlan, EscalatePlan, LoadReviewTrack, StatusSteps;
    LoadReadsRecord(cfg, unit, w, end);
    var target := TargetOf(plan.exit.outcome);
    assert forall l :: l in {AgentReady, AgentEscalated, AgentFailed} ==> (l in w.labels <==> l == target) by {
      assert Exclusive(AgentReady) && Exclusive(AgentEscalated) && Exclusive(AgentFailed);
    }
  }
}
