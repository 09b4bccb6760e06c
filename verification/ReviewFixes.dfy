/**
 * Fixes that do not reach the branch. A review run persists its attempt, starts the fix, and pushes
 * it; whatever stops it before the push leaves accepted feedback processed and unpushed.
 */
module ReviewFixes {
  import opened Wrappers
  import opened ReviewTracking
  import opened Labels
  import opened ReviewLoop
  import opened ReviewRecord
  import opened ReviewProofs
  import opened ReviewNotices
  import opened ReviewProgress
  import opened ReviewStability
  import opened ReviewTraps

  // ---------- What a fixing run does ----------

  /** Where the plan starts its fix, if it does. */
  predicate StartsFixAt(plan: Plan, k: nat) {
    k < |plan.effects| && plan.effects[k].StartFix?
  }

  /** What follows the start of a fix: nothing if it raised, else its push and the review label. */
  predicate AfterFix(plan: Plan, input: RunInput, k: nat)
    requires StartsFixAt(plan, k)
  {
    plan.effects[k + 1..] ==
      match input.fix
      case FixRaised(_) => []
      case FixPushRaised(_) => [PushFix(plan.effects[k].accepted)]
      case FixPushed => [PushFix(plan.effects[k].accepted)] + StatusEffects(AgentReview)
  }

  /** What a fixing run does: the review label, the incremented track, the fix, and the push if it succeeds. */
  lemma FixPlanShape(cfg: ReviewConfig, unit: WorkUnit, w: World, input: RunInput, trackId: Option<int>, track: ReviewTrack, k: nat)
    requires StartsFixAt(CompletedPlan(cfg, unit, w, input, trackId, track), k)
    ensures
      var plan := CompletedPlan(cfg, unit, w, input, trackId, track);
      var p := PartitionItems(cfg, input, track, Collect(input.feedback, cfg.actor));
      var batch := Batch(cfg.maxCommentsPerRun, p.candidates);
      var started := WithProcessed(track, Merged(p, batch), true, Some(input.head));
      && k == |StatusEffects(AgentReview)| + 1
      && plan.effects[..k] == StatusEffects(AgentReview) + [PersistTrack(input, trackId, started)]
      && (forall x :: x in plan.effects[k].accepted ==> x in Merged(p, batch) && x in IdentitiesOf(batch))
      && plan.effects[k].accepted != [] && p.forbidden == [] && batch != []
      && AfterFix(plan, input, k)
  {
    hide StatusSteps, StatusEffects, PartitionItems, PrefilterReason, EscalatePlan, ConvergencePlan, DecidedPlan, WithProcessed,
         ClassifyFrom, PersistTrack;
    var done := StatusEffects(AgentReview);
    var items := Collect(input.feedback, cfg.actor);
    var p := PartitionItems(cfg, input, track, items);
    var batch := Batch(cfg.maxCommentsPerRun, p.candidates);
    var classified := ClassifyFrom(cfg, input, [], batch);
    StatusIsCalls(AgentReview);
    if p.forbidden != [] {
      EscalationNeverFixes(cfg, w, input, done, trackId, WithProcessed(track, p.skipped + IdentitiesOf(p.forbidden), false, None),
        "review references a forbidden path", k);
    } else if batch == [] {
      ConvergenceNeverFixes(input, done, trackId, WithProcessed(track, p.skipped, false, None), items, k);
    } else if classified.FailClosed? {
      EscalationNeverFixes(cfg, w, input, done, trackId,
        WithProcessed(track, p.skipped + [classified.item.identity], false, None), classified.message, k);
    } else if classified.AllDecided? {
      ClassifiedBatch(cfg, input, [], batch);
      forall d | d in classified.decided ensures d.item in batch {
        var i :| 0 <= i < |classified.decided| && classified.decided[i] == d;
        assert classified.decided[0 + i].item == batch[i];
      }
      DecidedFixShape(cfg, unit, w, input, trackId, track, items, p, batch, classified.decided, k);
    }
  }

  /** A run's plan that starts a fix is the plan of a completed review. */
  lemma FixesOnlyCompleted(cfg: ReviewConfig, unit: WorkUnit, w: World, r: Record, input: RunInput, k: nat)
    requires Describes(cfg, unit, w, r) && StartsFixAt(ReviewPlan(cfg, unit, w, input), k)
    ensures
      var (trackId, track) := Loaded(r, unit.identity);
      && ReviewPlan(cfg, unit, w, input) == CompletedPlan(cfg, unit, w, input, trackId, track)
      && input.terminal == CompletedTerminal && input.setupError.None?
  {
    hide StatusEffects, EscalatePlan, CompletedPlan, Represents, RecordInv;
    LoadReadsRecord(cfg, unit, w, r);
    StatusIsCalls(AgentReview);
    var (trackId, track) := Loaded(r, unit.identity);
    EscalationNeverFixes(cfg, w, input, [], trackId, track, "CodeRabbit terminal is " + TerminalName(input.terminal), k);
  }

  /** How far a fixing run gets whose push is not reached: the attempt is persisted, the push is not made. */
  predicate Abandons(plan: Plan, input: RunInput, k: nat, cut: nat) {
    StartsFixAt(plan, k) && k <= cut && (input.fix.FixRaised? || cut <= k + 1)
  }

  /** What such a run leaves of the record: the attempt, no push, and no sticky label. */
  lemma AbandonLeaves(cfg: ReviewConfig, unit: WorkUnit, w: World, r: Record, input: RunInput, k: nat, cut: nat)
    requires Describes(cfg, unit, w, r) && Abandons(ReviewPlan(cfg, unit, w, input), input, k, cut)
    ensures
      var (trackId, track) := Loaded(r, unit.identity);
      var p := PartitionItems(cfg, input, track, Collect(input.feedback, cfg.actor));
      var ids := Merged(p, Batch(cfg.maxCommentsPerRun, p.candidates));
      var end := Steps(r, Prefix(ReviewPlan(cfg, unit, w, input).effects, cut));
      && end.track == Some((PersistedId(input, trackId).value, WithProcessed(track, ids, true, Some(input.head))))
      && CurrentTerminal(end.labels).None? && end.pushed == r.pushed
  {
    hide ReviewPlan, CompletedPlan, PartitionItems, StatusEffects, Describes, Merge, Steps, Batch;
    var (trackId, track) := Loaded(r, unit.identity);
    FixesOnlyCompleted(cfg, unit, w, r, input, k);
    FixPlanShape(cfg, unit, w, input, trackId, track, k);
    var p := PartitionItems(cfg, input, track, Collect(input.feedback, cfg.actor));
    var ids := Merged(p, Batch(cfg.maxCommentsPerRun, p.candidates));
    var effects, started := ReviewPlan(cfg, unit, w, input).effects, WithProcessed(track, ids, true, Some(input.head));
    PersistThenLabels(r, StatusEffects(AgentReview), input, trackId, started, AgentReview);
    ReviewLabelOnly(r, input, trackId, started);
    PersistLeavesPushes(r, input, trackId, started);
    if cut > k {
      assert Prefix(effects, cut) == effects[..k] + [effects[k]];
      StepsAppend(r, effects[..k], [effects[k]]);
      OneStart(Steps(r, effects[..k]), effects[k]);
    }
  }

  lemma OneStart(r: Record, fix: Effect)
    requires fix.StartFix?
    ensures Steps(r, [fix]) == r.(fixes := r.fixes + [fix.accepted])
  {
    assert [fix][1..] == [];
  }

  /**
   * The claim that whatever is processed was fixed fails on exactly these runs: one that decides to
   * fix leaves its accepted feedback processed and unpushed if and only if its attempt was persisted
   * and its fix raised, or was killed before the push.
   */
  lemma AbandonedIff(cfg: ReviewConfig, unit: WorkUnit, w: World, r: Record, input: RunInput, k: nat, cut: nat)
    requires Describes(cfg, unit, w, r) && StartsFixAt(ReviewPlan(cfg, unit, w, input), k)
    ensures
      var effects := ReviewPlan(cfg, unit, w, input).effects;
      var end := Steps(r, Prefix(effects, cut));
      (forall x :: x in effects[k].accepted ==> x in ProcessedIn(end)) && end.pushed == r.pushed
      <==> k <= cut && (input.fix.FixRaised? || cut <= k + 1)
  {
    hide ReviewPlan, CompletedPlan, PartitionItems, StatusSteps, Represents, RecordInv, Merge, Steps;
    var (trackId, track) := Loaded(r, unit.identity);
    FixesOnlyCompleted(cfg, unit, w, r, input, k);
    FixPlanShape(cfg, unit, w, input, trackId, track, k);
    var p := PartitionItems(cfg, input, track, Collect(input.feedback, cfg.actor));
    var ids := Merged(p, Batch(cfg.maxCommentsPerRun, p.candidates));
    var effects, done := ReviewPlan(cfg, unit, w, input).effects, StatusEffects(AgentReview);
    var accepted := effects[k].accepted;
    MergeAdds(track.processed, ids);
    if cut < k {
      assert effects[..cut] == effects[..k][..cut] && effects[..cut] == done[..cut];
      StatusIsCalls(AgentReview);
      LabelCallsLeave(r, done[..cut]);
      assert accepted[0] in accepted;
      BatchWaits(cfg, input, track, accepted[0]);
      assert Prefix(effects, cut) == done[..cut];
    } else if Abandons(ReviewPlan(cfg, unit, w, input), input, k, cut) {
      AbandonLeaves(cfg, unit, w, r, input, k, cut);
    } else {
      assert effects[k + 1] == effects[k + 1..][0];
      PushesGrow(r, Prefix(effects, cut), k + 1);
    }
  }

  /** What is in the batch is not processed yet. */
  lemma BatchWaits(cfg: ReviewConfig, input: RunInput, track: ReviewTrack, x: string)
    requires x in IdentitiesOf(Batch(cfg.maxCommentsPerRun, PartitionItems(cfg, input, track, Collect(input.feedback, cfg.actor)).candidates))
    ensures x !in track.processed
  {
    hide PartitionItems;
    var candidates := PartitionItems(cfg, input, track, Collect(input.feedback, cfg.actor)).candidates;
    var batch := Batch(cfg.maxCommentsPerRun, candidates);
    BatchIsPrefix(cfg.maxCommentsPerRun, candidates);
    var i :| 0 <= i < |batch| && IdentitiesOf(batch)[i] == x;
    assert batch[i] in batch;
    CandidatesWait(cfg, input, track, batch[i]);
  }

  lemma {:induction false} LabelCallsLeave(r: Record, effects: seq<Effect>)
    requires forall i :: 0 <= i < |effects| ==> effects[i].LabelCall?
    ensures Steps(r, effects).track == r.track && Steps(r, effects).fixes == r.fixes && Steps(r, effects).pushed == r.pushed
    decreases |effects|
  {
    if effects != [] { LabelCallsLeave(Step(r, effects[0]), effects[1..]); }
  }

  lemma {:induction false} PushesNeverShrink(r: Record, effects: seq<Effect>)
    ensures |Steps(r, effects).pushed| >= |r.pushed|
    decreases |effects|
  {
    if effects != [] { PushesNeverShrink(Step(r, effects[0]), effects[1..]); }
  }

  lemma PushesGrow(r: Record, effects: seq<Effect>, k: nat)
    requires k < |effects| && effects[k].PushFix?
    ensures |Steps(r, effects).pushed| > |r.pushed|
  {
    assert effects == effects[..k] + effects[k..];
    StepsAppend(r, effects[..k], effects[k..]);
    var mid := Steps(r, effects[..k]);
    PushesNeverShrink(r, effects[..k]);
    PushesNeverShrink(Step(mid, effects[k]), effects[k..][1..]);
  }

  lemma {:induction false} AllProcessed(cfg: ReviewConfig, input: RunInput, track: ReviewTrack, items: seq<Feedback>)
    requires forall x :: x in items ==> x.identity in track.processed
    ensures PartitionItems(cfg, input, track, items) == Partition([], [], [])
  {
    if items != [] {
      var n := |items| - 1;
      assert items[n] in items;
      AllProcessed(cfg, input, track, items[..n]);
    }
  }

  // ---------- What the next review makes of it ----------

  /** Another completed review of the same head and feedback. */
  predicate SameReview(input: RunInput, next: RunInput) {
    next.setupError.None? && next.terminal == CompletedTerminal && next.head == input.head && next.feedback == input.feedback
  }

  /** READY, after looking at the feedback. */
  predicate IsReady(plan: Plan) {
    plan.exit.Returned? && plan.exit.outcome == ReadyForHuman && !plan.exit.sticky
  }

  /** Some candidate was left for a later batch. */
  ghost predicate LeftWaiting(cfg: ReviewConfig, input: RunInput, track: ReviewTrack) {
    var p := PartitionItems(cfg, input, track, Collect(input.feedback, cfg.actor));
    exists c :: c in p.candidates && c.identity !in Merged(p, Batch(cfg.maxCommentsPerRun, p.candidates))
  }

  /** The failure handling got no label call through, and posted no marker. */
  predicate Unnoticed(c: Option<ControlPlane>) {
    c.Some? ==> c.value.labelCalls == 0 && (c.value.notice.Some? ==> !HasMarker(c.value.notice.value))
  }

  /** Filtering after the attempt: what the run did not process was a candidate, and still is one. */
  lemma {:induction false} PartitionLater(
    cfg: ReviewConfig, input: RunInput, track: ReviewTrack, next: RunInput, later: ReviewTrack, items: seq<Feedback>)
    requires next.head == input.head == later.headSha && next.missingPaths == input.missingPaths
    requires forall x :: x in items ==> x.identity in later.processed || PrefilterReason(cfg, input, track, x).None?
    ensures
      var q := PartitionItems(cfg, next, later, items);
      && q.forbidden == [] && forall c :: c in items && c.identity !in later.processed ==> c in q.candidates
  {
    if items != [] {
      var n := |items| - 1;
      assert items[n] in items;
      PartitionLater(cfg, input, track, next, later, items[..n]);
    }
  }

  /** Everything collected was merged into the attempt, or was a candidate left waiting. */
  lemma MergedOrWaiting(cfg: ReviewConfig, input: RunInput, track: ReviewTrack, x: Feedback)
    requires ConfiguredActor(cfg) && x in Collect(input.feedback, cfg.actor)
    requires PartitionItems(cfg, input, track, Collect(input.feedback, cfg.actor)).forbidden == []
    ensures
      var p := PartitionItems(cfg, input, track, Collect(input.feedback, cfg.actor));
      var ids := Merged(p, Batch(cfg.maxCommentsPerRun, p.candidates));
      x.identity in Merge(track.processed, ids)
      || (PrefilterReason(cfg, input, track, x).None? && x in p.candidates && x.identity !in ids)
  {
    hide PartitionItems, PrefilterReason, Batch;
    var items := Collect(input.feedback, cfg.actor);
    var p := PartitionItems(cfg, input, track, items);
    var ids := Merged(p, Batch(cfg.maxCommentsPerRun, p.candidates));
    ItemsAccounted(cfg, input, track, ids, x);
    PartitionIsExact(cfg, input, track, items);
    MergeAdds(track.processed, ids);
  }

  /** A fixing run posts no notice of its own, so all its effects are allowed, whatever its notices would say. */
  lemma FixingRunAllowed(cfg: ReviewConfig, unit: WorkUnit, w: World, r: Record, input: RunInput, k: nat)
    requires Describes(cfg, unit, w, r) && ValidUnit(unit) && ValidInput(input, r.ids)
    requires StartsFixAt(ReviewPlan(cfg, unit, w, input), k)
    ensures AllAllowed(cfg, unit, r, ReviewPlan(cfg, unit, w, input).effects)
  {
    hide ReviewPlan, CompletedPlan, PartitionItems, StatusEffects, Represents, RecordInv, Merge, Batch, AllAllowed, ValidUnit, ValidInput;
    var (trackId, track) := Loaded(r, unit.identity);
    var effects := ReviewPlan(cfg, unit, w, input).effects;
    FixesOnlyCompleted(cfg, unit, w, r, input, k);
    FixPlanShape(cfg, unit, w, input, trackId, track, k);
    FrontAllowed(cfg, unit, w, r, input);
    StatusIsCalls(AgentReview);
    if !input.fix.FixRaised? {
      var last := |effects| - 1;
      assert effects[last] == effects[k + 1..][last - k - 1];
    } else {
      assert |effects| == k + 1;
    }
  }

  /** What the failure handling does to the record: its label, if a call got through, and nothing else. */
  lemma HandlingLeaves(r: Record, c: ControlPlane)
    ensures
      var end := Steps(r, ControlPlaneEffects(c));
      var target := if c.failed then AgentFailed else AgentEscalated;
      && end.track == r.track && end.fixes == r.fixes && end.pushed == r.pushed
      && (c.labelCalls == 0 ==> end.labels == r.labels)
      && (c.labelCalls > 0 ==> target in end.labels)
  {
    hide StatusSteps;
    var target := if c.failed then AgentFailed else AgentEscalated;
    var steps := StatusSteps(target);
    StatusStepsShape(target);
    var n := if c.labelCalls <= |steps| then c.labelCalls else |steps|;
    var calls := Prefix(StatusEffects(target), c.labelCalls);
    var notice := if c.notice.Some? then [PostNotice(c.noticeCommentId, c.notice.value)] else [];
    assert calls == LabelEffects(steps[..n]);
    LabelStepsAre(r, steps[..n]);
    LabelChangeIsSafe(r.labels, target, n);
    StepsAppend(r, calls, notice);
    if c.notice.Some? { assert notice[1..] == []; }
    if n == 0 { assert steps[..n] == []; }
  }

  /** The pull request after an abandoning run: the attempt and its label, or it refuses for ever. */
  lemma AbandonedRun(cfg: ReviewConfig, unit: WorkUnit, w: World, r: Record, run: ReviewRun, foreign: seq<Comment>, k: nat)
    requires Describes(cfg, unit, w, r) && ValidUnit(unit) && ValidRun(cfg, unit, w, run, foreign)
    requires Abandons(ReviewPlan(cfg, unit, w, run.input), run.input, k, run.cut)
    ensures
      var (trackId, track) := Loaded(r, unit.identity);
      var p := PartitionItems(cfg, run.input, track, Collect(run.input.feedback, cfg.actor));
      var ids := Merged(p, Batch(cfg.maxCommentsPerRun, p.candidates));
      var after, end := AfterRun(cfg, unit, w, run, foreign), RecordAfter(cfg, unit, w, r, run, foreign);
      && end.track == Some((PersistedId(run.input, trackId).value, WithProcessed(track, ids, true, Some(run.input.head))))
      && end.pushed == r.pushed
      && (CurrentTerminal(end.labels).None? <==> run.controlPlane.None? || run.controlPlane.value.labelCalls == 0)
      && (CurrentTerminal(end.labels).Some? ==> CurrentTerminal(end.labels).value != AgentReady)
      && (Poisoned(cfg, unit, after) || Describes(cfg, unit, after, end))
      && (!MarkedHandling(run.controlPlane) ==> Describes(cfg, unit, after, end))
      && (MarkedHandling(run.controlPlane) ==> Poisoned(cfg, unit, after))
  {
    hide ReviewPlan, PartitionItems, Describes, Merge, Steps, Batch, Poisoned, ControlPlaneEffects, AfterRun, ValidUnit, ValidInput, HasMarker;
    var effects := ReviewPlan(cfg, unit, w, run.input).effects;
    AbandonLeaves(cfg, unit, w, r, run.input, k, run.cut);
    var planned := Steps(r, Prefix(effects, run.cut)).(ids := IdsOf(AfterPlan(cfg, unit, w, run)));
    if run.controlPlane.Some? { HandlingLeaves(planned, run.controlPlane.value); } else { NothingDone(planned); }
    RunRecorded(cfg, unit, w, r, run, foreign);
    if MarkedHandling(run.controlPlane) {
      MarkedRunPoisons(cfg, unit, w, r, run, foreign);
    } else {
      FixingRunAllowedIn(cfg, unit, w, r, run, k);
      AllowedRunKeeps(cfg, unit, w, r, run, foreign);
    }
  }

  lemma NothingDone(r: Record)
    ensures Steps(r, []) == r
  {
  }

  lemma FixingRunAllowedIn(cfg: ReviewConfig, unit: WorkUnit, w: World, r: Record, run: ReviewRun, k: nat)
    requires Describes(cfg, unit, w, r) && ValidUnit(unit) && ValidInput(run.input, IdsOf(w))
    requires StartsFixAt(ReviewPlan(cfg, unit, w, run.input), k)
    ensures AllAllowed(cfg, unit, r, ReviewPlan(cfg, unit, w, run.input).effects)
  {
    hide ReviewPlan, Represents, RecordInv, AllAllowed, ValidUnit, ValidInput, StartsFixAt;
    FixingRunAllowed(cfg, unit, w, r, run.input, k);
  }

  /** The failure handling posted a notice with the tracking marker. */
  predicate MarkedHandling(c: Option<ControlPlane>) {
    c.Some? && c.value.notice.Some? && HasMarker(c.value.notice.value)
  }

  /** Once there is a track, a notice with the marker makes every later load refuse. */
  lemma MarkedRunPoisons(cfg: ReviewConfig, unit: WorkUnit, w: World, r: Record, run: ReviewRun, foreign: seq<Comment>)
    requires Describes(cfg, unit, w, r) && ValidUnit(unit) && ValidRun(cfg, unit, w, run, foreign)
    requires Steps(r, Prefix(ReviewPlan(cfg, unit, w, run.input).effects, run.cut)).track.Some?
    requires MarkedHandling(run.controlPlane)
    ensures Poisoned(cfg, unit, AfterRun(cfg, unit, w, run, foreign))
  {
    hide ReviewPlan, Represents, RecordInv, Unsafe, ValidUnit, ValidInput, HasMarker, WithinLimit, Steps;
    var effects := Prefix(ReviewPlan(cfg, unit, w, run.input).effects, run.cut);
    PlanRecorded(cfg, unit, w, r, run.input, run.cut);
    var mid, planned := ApplyEffects(cfg, w, effects), Steps(r, effects);
    var c := run.controlPlane.value;
    ApplyAppend(cfg, w, effects, ControlPlaneEffects(c));
    if Poisoned(cfg, unit, mid) {
      HandlingIsNotices(run.controlPlane);
      PoisonStays(cfg, unit, mid, ControlPlaneEffects(c));
    } else {
      Redescribe(cfg, unit, mid, planned);
      MarkedHandlingPoisons(cfg, unit, mid, planned.(ids := IdsOf(mid)), c);
    }
  }

  lemma MarkedHandlingPoisons(cfg: ReviewConfig, unit: WorkUnit, w: World, r: Record, c: ControlPlane)
    requires Describes(cfg, unit, w, r) && c.noticeCommentId !in IdsOf(w) && r.track.Some?
    requires c.notice.Some? && HasMarker(c.notice.value)
    ensures Poisoned(cfg, unit, ApplyEffects(cfg, w, ControlPlaneEffects(c)))
  {
    hide StatusSteps, Represents, RecordInv, HasMarker, Poisoned;
    var silent := c.(notice := None);
    var calls := ControlPlaneEffects(silent);
    ControlPlaneAllowed(cfg, unit, r, silent);
    EffectsKeep(cfg, unit, w, r, calls);
    TrackIsKept(r, calls);
    var notice := PostNotice(c.noticeCommentId, c.notice.value);
    assert ControlPlaneEffects(c) == calls + [notice];
    ApplyAppend(cfg, w, calls, [notice]);
    assert [notice][1..] == [];
    PoisonousNotice(cfg, unit, ApplyEffects(cfg, w, calls), Steps(r, calls), notice.id, notice.body);
  }

  /** The next review of the same head, if nothing was left waiting and nothing was noticed: READY, and no fix. */
  lemma AbandonedThenReady(
    cfg: ReviewConfig, unit: WorkUnit, w: World, r: Record, run: ReviewRun, foreign: seq<Comment>, k: nat, next: RunInput)
    requires Describes(cfg, unit, w, r) && ValidUnit(unit) && ValidRun(cfg, unit, w, run, foreign) && ConfiguredActor(cfg)
    requires Abandons(ReviewPlan(cfg, unit, w, run.input), run.input, k, run.cut)
    requires forall i :: 0 <= i < |foreign| ==> !HasMarker(foreign[i].body)
    requires !LeftWaiting(cfg, run.input, Loaded(r, unit.identity).1) && Unnoticed(run.controlPlane) && SameReview(run.input, next)
    ensures
      var plan := ReviewPlan(cfg, unit, AfterRun(cfg, unit, w, run, foreign), next);
      IsReady(plan) && forall i: nat :: !StartsFixAt(plan, i)
  {
    hide ReviewPlan, CompletedPlan, PartitionItems, Represents, RecordInv, Merge, Batch, RecordAfter, ApplyEffects, RunEffects, HasMarker,
         ValidUnit, ValidInput, Poisoned;
    var (trackId, track) := Loaded(r, unit.identity);
    var items := Collect(run.input.feedback, cfg.actor);
    var p := PartitionItems(cfg, run.input, track, items);
    var ids := Merged(p, Batch(cfg.maxCommentsPerRun, p.candidates));
    var started := WithProcessed(track, ids, true, Some(run.input.head));
    AbandonedRun(cfg, unit, w, r, run, foreign, k);
    FixesOnlyCompleted(cfg, unit, w, r, run.input, k);
    FixPlanShape(cfg, unit, w, run.input, trackId, track, k);
    var after, end := AfterRun(cfg, unit, w, run, foreign), RecordAfter(cfg, unit, w, r, run, foreign);
    RepresentedLabels(cfg, after, end);
    forall x | x in items ensures x.identity in started.processed { MergedOrWaiting(cfg, run.input, track, x); }
    AllProcessed(cfg, next, started, items);
    ReadyNext(cfg, unit, after, end, next, PersistedId(run.input, trackId).value, started);
  }

  /** If something was left waiting, a review whose classifier fails is not READY. */
  lemma AbandonedThenWaits(
    cfg: ReviewConfig, unit: WorkUnit, w: World, r: Record, run: ReviewRun, foreign: seq<Comment>, k: nat, next: RunInput)
    requires Describes(cfg, unit, w, r) && ValidUnit(unit) && ValidRun(cfg, unit, w, run, foreign) && ConfiguredActor(cfg)
    requires Abandons(ReviewPlan(cfg, unit, w, run.input), run.input, k, run.cut)
    requires LeftWaiting(cfg, run.input, Loaded(r, unit.identity).1) && Unnoticed(run.controlPlane)
    requires next == run.input.(classifier := _ => ClassifierError("CLASSIFIER_API_FAILURE", ""))
    ensures !IsReady(ReviewPlan(cfg, unit, AfterRun(cfg, unit, w, run, foreign), next))
  {
    hide ReviewPlan, CompletedPlan, PartitionItems, PrefilterReason, Represents, RecordInv, Merge, Batch, RecordAfter, AfterRun, HasMarker,
         ValidUnit, ValidInput, Poisoned;
    var (trackId, track) := Loaded(r, unit.identity);
    var items := Collect(run.input.feedback, cfg.actor);
    var p := PartitionItems(cfg, run.input, track, items);
    var batch := Batch(cfg.maxCommentsPerRun, p.candidates);
    var ids := Merged(p, batch);
    var started := WithProcessed(track, ids, true, Some(run.input.head));
    AbandonedRun(cfg, unit, w, r, run, foreign, k);
    FixesOnlyCompleted(cfg, unit, w, r, run.input, k);
    FixPlanShape(cfg, unit, w, run.input, trackId, track, k);
    var after, end := AfterRun(cfg, unit, w, run, foreign), RecordAfter(cfg, unit, w, r, run, foreign);
    RepresentedLabels(cfg, after, end);
    forall x | x in items ensures x.identity in started.processed || PrefilterReason(cfg, run.input, track, x).None? {
      MergedOrWaiting(cfg, run.input, track, x);
    }
    PartitionLater(cfg, run.input, track, next, started, items);
    var c :| c in p.candidates && c.identity !in ids;
    CandidatesWait(cfg, run.input, track, c);
    MergeAdds(track.processed, ids);
    BatchStays(cfg.maxCommentsPerRun, p.candidates, PartitionItems(cfg, next, started, items).candidates);
    FailingClassifier(cfg, unit, after, end, next, PersistedId(run.input, trackId).value, started);
  }

  lemma BatchStays(cap: Option<int>, a: seq<Feedback>, b: seq<Feedback>)
    requires Batch(cap, a) != [] && b != []
    ensures Batch(cap, b) != []
  {
  }

  lemma FailingClassifier(cfg: ReviewConfig, unit: WorkUnit, w: World, r: Record, next: RunInput, id: int, t: ReviewTrack)
    requires Represents(cfg, w, r) && RecordInv(cfg, unit, r)
    requires r.track == Some((id, t)) && CurrentTerminal(w.labels).None?
    requires next.setupError.None? && next.terminal == CompletedTerminal
    requires forall item :: next.classifier(item) == ClassifierError("CLASSIFIER_API_FAILURE", "")
    requires
      var q := PartitionItems(cfg, next, t, Collect(next.feedback, cfg.actor));
      q.forbidden == [] && Batch(cfg.maxCommentsPerRun, q.candidates) != []
    ensures ReviewPlan(cfg, unit, w, next).exit.Raised?
  {
    hide StatusEffects, PartitionItems, ConvergencePlan, EscalatePlan, DecidedPlan, HasMarker, Represents, RecordInv, Batch;
    LoadReadsRecord(cfg, unit, w, r);
    NotFailClosed();
  }

  lemma NotFailClosed()
    ensures "CLASSIFIER_API_FAILURE" !in CLASSIFIER_FAIL_CLOSED
  {
    assert |"CLASSIFIER_API_FAILURE"| == 22 && |"INVALID_CLASSIFIER_JSON"| == 23 && |"CLASSIFIER_REFUSAL"| == 18
        && |"CLASSIFIER_INCOMPLETE"| == 21;
  }

  /** If the failure was noticed, no review of the same head is READY: it is refused, or keeps the failure. */
  lemma NoticedIsNotReady(
    cfg: ReviewConfig, unit: WorkUnit, w: World, r: Record, run: ReviewRun, foreign: seq<Comment>, k: nat, next: RunInput)
    requires Describes(cfg, unit, w, r) && ValidUnit(unit) && ValidRun(cfg, unit, w, run, foreign)
    requires Abandons(ReviewPlan(cfg, unit, w, run.input), run.input, k, run.cut)
    requires !Unnoticed(run.controlPlane) && SameReview(run.input, next)
    ensures !IsReady(ReviewPlan(cfg, unit, AfterRun(cfg, unit, w, run, foreign), next))
  {
    hide ReviewPlan, PartitionItems, Represents, RecordInv, Merge, Batch, RecordAfter, AfterRun, HasMarker, ValidUnit, ValidInput, Poisoned;
    AbandonedRun(cfg, unit, w, r, run, foreign, k);
    var after, end := AfterRun(cfg, unit, w, run, foreign), RecordAfter(cfg, unit, w, r, run, foreign);
    if Poisoned(cfg, unit, after) {
      RefusingRun(cfg, unit, after, next);
    } else {
      RepresentedLabels(cfg, after, end);
      StickyKeeps(cfg, unit, after, end, next);
    }
  }

  lemma StickyKeeps(cfg: ReviewConfig, unit: WorkUnit, w: World, r: Record, next: RunInput)
    requires Represents(cfg, w, r) && RecordInv(cfg, unit, r)
    requires r.track.Some? && r.track.value.1.headSha == next.head && CurrentTerminal(w.labels).Some?
    ensures !IsReady(ReviewPlan(cfg, unit, w, next))
  {
    hide EscalatePlan, CompletedPlan, Represents, RecordInv;
    LoadReadsRecord(cfg, unit, w, r);
  }

  /**
   * Main theorem. After a run that decided to fix and did not reach its push, every completed review
   * of the same head and feedback is READY if and only if nothing was left waiting and the failure
   * went unnoticed: no failed or escalated label call got through, and no marker was posted.
   */
  lemma AbandonedIsReadyIff(
    cfg: ReviewConfig, unit: WorkUnit, w: World, r: Record, run: ReviewRun, foreign: seq<Comment>, k: nat)
    requires Describes(cfg, unit, w, r) && ValidUnit(unit) && ValidRun(cfg, unit, w, run, foreign) && ConfiguredActor(cfg)
    requires Abandons(ReviewPlan(cfg, unit, w, run.input), run.input, k, run.cut)
    requires forall i :: 0 <= i < |foreign| ==> !HasMarker(foreign[i].body)
    ensures
      var after := AfterRun(cfg, unit, w, run, foreign);
      (forall next :: SameReview(run.input, next) ==> IsReady(ReviewPlan(cfg, unit, after, next)))
      <==> !LeftWaiting(cfg, run.input, Loaded(r, unit.identity).1) && Unnoticed(run.controlPlane)
  {
    hide ReviewPlan, Describes, ValidUnit, ValidRun, LeftWaiting, AfterRun, IsReady, HasMarker, Loaded, Unnoticed;
    var after := AfterRun(cfg, unit, w, run, foreign);
    FixingIsReview(cfg, unit, w, r, run, k);
    if !Unnoticed(run.controlPlane) {
      NoticedIsNotReady(cfg, unit, w, r, run, foreign, k, run.input);
      assert SameReview(run.input, run.input);
    } else if LeftWaiting(cfg, run.input, Loaded(r, unit.identity).1) {
      var next := run.input.(classifier := _ => ClassifierError("CLASSIFIER_API_FAILURE", ""));
      AbandonedThenWaits(cfg, unit, w, r, run, foreign, k, next);
      assert SameReview(run.input, next);
    } else {
      forall next | SameReview(run.input, next) ensures IsReady(ReviewPlan(cfg, unit, after, next)) {
        AbandonedThenReady(cfg, unit, w, r, run, foreign, k, next);
      }
    }
  }

  lemma FixingIsReview(cfg: ReviewConfig, unit: WorkUnit, w: World, r: Record, run: ReviewRun, k: nat)
    requires Describes(cfg, unit, w, r) && Abandons(ReviewPlan(cfg, unit, w, run.input), run.input, k, run.cut)
    ensures run.input.setupError.None? && run.input.terminal == CompletedTerminal
  {
    hide ReviewPlan, Describes, CompletedPlan;
    FixesOnlyCompleted(cfg, unit, w, r, run.input, k);
  }

  // ---------- The inputs ----------

  /** A configuration and a first run whose only feedback is actionable, in scope and confident enough. */
  ghost predicate FirstFeedback(cfg: ReviewConfig, unit: WorkUnit, input: RunInput, item: Feedback, path: string) {
    && cfg.autoRepairEnabled && cfg.maxCommentsPerRun.None? && ReviewAttemptLimit(cfg, unit) > 0 && ConfiguredActor(cfg)
    && input.setupError.None? && input.terminal == CompletedTerminal && input.feedback == [item]
    && item.author == cfg.actor && item.path.None? && item.commitSha == Some(input.head) && input.head != ""
    && cfg.inScope(path)
    && input.classifier(item) == Classified(ClassificationResult(Actionable, cfg.confidenceThreshold, [path]))
  }

  /** Such a run starts a fix of that feedback. */
  lemma FirstFixStarts(cfg: ReviewConfig, unit: WorkUnit, input: RunInput, item: Feedback, path: string)
    requires FirstFeedback(cfg, unit, input, item, path)
    ensures
      var plan := ReviewPlan(cfg, unit, EMPTY_WORLD, input);
      var k := |StatusEffects(AgentReview)| + 1;
      && StartsFixAt(plan, k) && plan.effects[k].accepted == [item.identity]
      && (input.fix.FixRaised? ==> plan.exit == Raised(input.fix.code))
  {
    hide StatusEffects, ConfiguredActor, EscalatePlan, ConvergencePlan, Merge;
    EmptyDescribed(cfg, unit);
    LoadReadsRecord(cfg, unit, EMPTY_WORLD, Record(None, {}, [], [], {}));
    OneCandidate(cfg, unit, input, item, path);
    var track := EmptyReviewTrack(unit.identity);
    var d := Decided(item, PolicyDecision(Fix, "actionable review is in scope"));
    assert ClassifyFrom(cfg, input, [], [item]) == AllDecided([d]) by { OneDecision(cfg, unit, input, item, path); }
    AcceptedOne(d);
    assert IdentitiesOf([item]) == [item.identity];
    assert ReviewPlan(cfg, unit, EMPTY_WORLD, input) == CompletedPlan(cfg, unit, EMPTY_WORLD, input, None, track);
  }

  lemma AcceptedOne(d: Decided)
    requires d.decision.action == Fix
    ensures FirstEscalation([d]).None? && AcceptedItems([d]) == [d.item]
  {
    assert [d][1..] == [];
  }

  lemma OneCandidate(cfg: ReviewConfig, unit: WorkUnit, input: RunInput, item: Feedback, path: string)
    requires FirstFeedback(cfg, unit, input, item, path)
    ensures Collect(input.feedback, cfg.actor) == [item]
    ensures PartitionItems(cfg, input, EmptyReviewTrack(unit.identity), [item]) == Partition([], [], [item])
  {
    var track := EmptyReviewTrack(unit.identity);
    assert [item][1..] == [] && [item][..0] == [];
    assert PrefilterReason(cfg, input, track, item).None?;
    assert PartitionItems(cfg, input, track, []) == Partition([], [], []);
  }

  lemma OneDecision(cfg: ReviewConfig, unit: WorkUnit, input: RunInput, item: Feedback, path: string)
    requires FirstFeedback(cfg, unit, input, item, path)
    ensures ClassifyFrom(cfg, input, [], [item]) == AllDecided([Decided(item, PolicyDecision(Fix, "actionable review is in scope"))])
  {
    var r := input.classifier(item).result;
    assert DecideReviewPolicy(cfg, r) == PolicyDecision(Fix, "actionable review is in scope");
    assert [item][1..] == [];
    assert ClassifyFrom(cfg, input, [] + [Decided(item, DecideReviewPolicy(cfg, r))], []) ==
           AllDecided([Decided(item, DecideReviewPolicy(cfg, r))]);
  }

  lemma NothingLoaded(unit: WorkUnit)
    ensures Loaded(Record(None, {}, [], [], {}), unit.identity) == (None, EmptyReviewTrack(unit.identity))
  {
  }

  /** A first run on that feedback whose push is not reached, and unnoticed: the next review is READY, and nothing was pushed. */
  lemma FirstFixIsMissed(cfg: ReviewConfig, unit: WorkUnit, run: ReviewRun, next: RunInput, item: Feedback, path: string)
    requires FirstFeedback(cfg, unit, run.input, item, path) && ValidUnit(unit) && ValidRun(cfg, unit, EMPTY_WORLD, run, [])
    requires |StatusEffects(AgentReview)| + 1 <= run.cut && (run.input.fix.FixRaised? || run.cut <= |StatusEffects(AgentReview)| + 2)
    requires Unnoticed(run.controlPlane) && SameReview(run.input, next)
    ensures
      var after := AfterRun(cfg, unit, EMPTY_WORLD, run, []);
      IsReady(ReviewPlan(cfg, unit, after, next)) && after.pushed == []
  {
    hide ReviewPlan, StatusEffects, ValidRun, ValidUnit, Describes, PartitionItems, Collect, CompletedPlan, Loaded, AfterRun, Unnoticed,
         RecordAfter, Poisoned;
    var k := |StatusEffects(AgentReview)| + 1;
    var r := Record(None, {}, [], [], {});
    FirstFixStarts(cfg, unit, run.input, item, path);
    EmptyDescribed(cfg, unit);
    OneCandidate(cfg, unit, run.input, item, path);
    NothingLoaded(unit);
    assert IdentitiesOf([item])[0] == item.identity;
    AbandonedThenReady(cfg, unit, EMPTY_WORLD, r, run, [], k, next);
    AbandonedRunPushes(cfg, unit, EMPTY_WORLD, r, run, [], k);
  }

  lemma AbandonedRunPushes(cfg: ReviewConfig, unit: WorkUnit, w: World, r: Record, run: ReviewRun, foreign: seq<Comment>, k: nat)
    requires Describes(cfg, unit, w, r) && ValidUnit(unit) && ValidRun(cfg, unit, w, run, foreign)
    requires Abandons(ReviewPlan(cfg, unit, w, run.input), run.input, k, run.cut) && Unnoticed(run.controlPlane)
    ensures AfterRun(cfg, unit, w, run, foreign).pushed == w.pushed
  {
    hide ReviewPlan, PartitionItems, Merge, Batch, RecordAfter, AfterRun, HasMarker, ValidUnit, ValidInput, RecordInv, Poisoned;
    AbandonedRun(cfg, unit, w, r, run, foreign, k);
  }

  /** The process is killed while the fix runs. */
  lemma KilledFixIsMissed(cfg: ReviewConfig, unit: WorkUnit, input: RunInput, next: RunInput, item: Feedback, path: string)
    requires FirstFeedback(cfg, unit, input, item, path) && ValidUnit(unit) && ValidInput(input, {}) && SameReview(input, next)
    ensures
      var killed := ReviewRun(input, |StatusEffects(AgentReview)| + 2, None);
      var after := AfterRun(cfg, unit, EMPTY_WORLD, killed, []);
      IsReady(ReviewPlan(cfg, unit, after, next)) && after.pushed == []
  {
    hide ReviewPlan, StatusEffects, AfterRun, ValidUnit, ValidInput, IdsOf;
    EmptyIds();
    FirstFixIsMissed(cfg, unit, ReviewRun(input, |StatusEffects(AgentReview)| + 2, None), next, item, path);
  }

  /** The fix raises, all of the run's effects were made, and the failure label does not get through. */
  lemma RaisedFixIsMissed(
    cfg: ReviewConfig, unit: WorkUnit, input: RunInput, next: RunInput, item: Feedback, path: string, failed: bool, id: int, cut: nat)
    requires FirstFeedback(cfg, unit, input, item, path) && ValidUnit(unit) && ValidInput(input, {}) && SameReview(input, next)
    requires input.fix.FixRaised? && cut >= |ReviewPlan(cfg, unit, EMPTY_WORLD, input).effects|
    ensures ReviewPlan(cfg, unit, EMPTY_WORLD, input).exit == Raised(input.fix.code)
    ensures
      var raised := ReviewRun(input, cut, Some(ControlPlane(failed, 0, None, id)));
      var after := AfterRun(cfg, unit, EMPTY_WORLD, raised, []);
      id !in IdsOf(AfterPlan(cfg, unit, EMPTY_WORLD, raised)) ==>
        IsReady(ReviewPlan(cfg, unit, after, next)) && after.pushed == []
  {
    hide ReviewPlan, StatusEffects, AfterRun, AfterPlan, ValidUnit, ValidInput, IdsOf;
    FirstFixStarts(cfg, unit, input, item, path);
    var raised := ReviewRun(input, cut, Some(ControlPlane(failed, 0, None, id)));
    EmptyIds();
    if id !in IdsOf(AfterPlan(cfg, unit, EMPTY_WORLD, raised)) {
      FirstFixIsMissed(cfg, unit, raised, next, item, path);
    }
  }

  lemma EmptyIds()
    ensures IdsOf(EMPTY_WORLD) == {}
  {
  }

  lemma PersistLeavesPushes(r: Record, input: RunInput, trackId: Option<int>, t: ReviewTrack)
    ensures Steps(r, StatusEffects(AgentReview) + [PersistTrack(input, trackId, t)]).pushed == r.pushed
  {
    hide StatusSteps;
    StatusIsCalls(AgentReview);
    LabelCallsLeave(r, StatusEffects(AgentReview));
    StepsAppend(r, StatusEffects(AgentReview), [PersistTrack(input, trackId, t)]);
    assert [PersistTrack(input, trackId, t)][1..] == [];
  }

  /** A completed run that finds everything processed and no sticky label is READY and fixes nothing. */
  lemma ReadyNext(cfg: ReviewConfig, unit: WorkUnit, w: World, r: Record, next: RunInput, id: int, t: ReviewTrack)
    requires Represents(cfg, w, r) && RecordInv(cfg, unit, r) && ConfiguredActor(cfg)
    requires forall i :: 0 <= i < |w.foreign| ==> !HasMarker(w.foreign[i].body)
    requires r.track == Some((id, t)) && CurrentTerminal(w.labels).None?
    requires next.setupError.None? && next.terminal == CompletedTerminal
    requires PartitionItems(cfg, next, t, Collect(next.feedback, cfg.actor)) == Partition([], [], [])
    ensures
      var plan := ReviewPlan(cfg, unit, w, next);
      && plan.exit.Returned? && plan.exit.outcome == ReadyForHuman && !plan.exit.sticky
      && forall i: nat :: !StartsFixAt(plan, i)
  {
    hide StatusEffects, PartitionItems, ConvergencePlan, HasMarker, Represents, RecordInv, ClassifyFrom;
    LoadReadsRecord(cfg, unit, w, r);
    var items := Collect(next.feedback, cfg.actor);
    var updated := WithProcessed(t, [], false, None);
    assert ReviewPlan(cfg, unit, w, next) == Converge(cfg, next, Some(id), t, []);
    AllMergedIsReady(cfg, next, t, Some(id), [], r);
    ConvergedIs(next, PersistMerged(next, Some(id), t, []), PersistedId(next, Some(id)), updated, items);
    ConvergedLeaves(next, PersistMerged(next, Some(id), t, []), PersistedId(next, Some(id)), updated, items, r);
    StatusIsCalls(AgentReview);
    forall i: nat ensures !StartsFixAt(ReviewPlan(cfg, unit, w, next), i) {
      ConvergenceNeverFixes(next, StatusEffects(AgentReview), Some(id), updated, items, i);
    }
  }

  lemma DecidedFixShape(
    cfg: ReviewConfig, unit: WorkUnit, w: World, input: RunInput, trackId: Option<int>, track: ReviewTrack,
    items: seq<Feedback>, p: Partition, batch: seq<Feedback>, decided: seq<Decided>, k: nat)
    requires forall d :: d in decided ==> d.item in batch
    requires StartsFixAt(DecidedPlan(cfg, unit, w, input, StatusEffects(AgentReview), trackId, track, items, p, batch, decided), k)
    ensures
      var done := StatusEffects(AgentReview);
      var plan := DecidedPlan(cfg, unit, w, input, done, trackId, track, items, p, batch, decided);
      var started := WithProcessed(track, Merged(p, batch), true, Some(input.head));
      && k == |done| + 1
      && plan.effects[..k] == done + [PersistTrack(input, trackId, started)]
      && (forall x :: x in plan.effects[k].accepted ==> x in Merged(p, batch) && x in IdentitiesOf(batch))
      && plan.effects[k].accepted != []
      && AfterFix(plan, input, k)
  {
    hide StatusEffects, EscalatePlan, ConvergencePlan, FirstEscalation, AcceptedItems, WithProcessed, PersistTrack;
    var done := StatusEffects(AgentReview);
    StatusIsCalls(AgentReview);
    AcceptedFromBatch(decided, batch);
    var updated := WithProcessed(track, Merged(p, batch), false, None);
    var accepted := AcceptedItems(decided);
    if FirstEscalation(decided).Some? {
      EscalationNeverFixes(cfg, w, input, done, trackId, updated, FirstEscalation(decided).value, k);
    } else if accepted == [] {
      ConvergenceNeverFixes(input, done, trackId, updated, items, k);
      PersistNeverFixes(input, trackId, updated);
    } else if track.reviewAttempts >= ReviewAttemptLimit(cfg, unit) {
      EscalationNeverFixes(cfg, w, input, done, trackId, updated, "review_attempt_limit reached", k);
    } else {
      PersistNeverFixes(input, trackId, WithProcessed(track, Merged(p, batch), true, Some(input.head)));
      var persist := PersistTrack(input, trackId, WithProcessed(track, Merged(p, batch), true, Some(input.head)));
      var fix := StartFix(IdentitiesOf(accepted));
      var effects := done + [persist, fix];
      assert effects == done + [persist] + [fix];
      assert effects[|done| + 2..] == [];
      if input.fix.FixPushRaised? {
        assert (effects + [PushFix(IdentitiesOf(accepted))])[..|done| + 1] == done + [persist];
      } else if input.fix.FixPushed? {
        var pushed := effects + [PushFix(IdentitiesOf(accepted))] + done;
        assert pushed[..|done| + 1] == done + [persist];
        assert pushed[|done| + 2..] == [PushFix(IdentitiesOf(accepted))] + done;
        assert forall i :: |effects| < i < |pushed| ==> pushed[i] == done[i - |effects| - 1];
      }
    }
  }

  lemma PersistNeverFixes(input: RunInput, trackId: Option<int>, t: ReviewTrack)
    ensures !PersistTrack(input, trackId, t).StartFix?
  {
  }

  lemma EscalationNeverFixes(
    cfg: ReviewConfig, w: World, input: RunInput, done: seq<Effect>, trackId: Option<int>, t: ReviewTrack, reason: string, k: nat)
    requires forall i :: 0 <= i < |done| ==> done[i].LabelCall?
    ensures !StartsFixAt(EscalatePlan(cfg, w, input, done, trackId, t, reason), k)
  {
    hide StatusEffects, HasEscalationComment, ApplyEffects, WithProcessed;
    StatusIsCalls(AgentEscalated);
  }

  lemma ConvergenceNeverFixes(input: RunInput, done: seq<Effect>, trackId: Option<int>, t: ReviewTrack, items: seq<Feedback>, k: nat)
    requires forall i :: 0 <= i < |done| ==> done[i].LabelCall?
    ensures !StartsFixAt(ConvergencePlan(input, done + [PersistTrack(input, trackId, t)], PersistedId(input, trackId), t, items), k)
  {
    hide StatusEffects, WithProcessed;
    StatusIsCalls(AgentReady);
  }
}
