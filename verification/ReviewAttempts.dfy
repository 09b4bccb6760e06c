/**
 * What the attempts in the track stand for: fixes that were pushed, and runs that persisted their
 * attempt and did not reach the push. What such a run accepted is never pushed.
 */
module ReviewAttempts {
  import opened Wrappers
  import opened ReviewTracking
  import opened Labels
  import opened ReviewLoop
  import opened ReviewRecord
  import opened ReviewProofs
  import opened ReviewNotices
  import opened ReviewProgress
  import opened ReviewFixes

  // ---------- The effects of a plan ----------

  /** No fix, and every track written has `attempts` attempts. */
  predicate Steady(effects: seq<Effect>, attempts: nat) {
    forall i :: 0 <= i < |effects| ==>
      && !effects[i].StartFix? && !effects[i].PushFix?
      && (TrackOf(effects[i]).Some? ==> TrackOf(effects[i]).value.reviewAttempts == attempts)
  }

  predicate HasFix(effects: seq<Effect>) {
    exists i :: 0 <= i < |effects| && effects[i].StartFix?
  }

  /** A plan without a fix writes no other number of attempts. */
  predicate Accounted(effects: seq<Effect>, attempts: nat) {
    Steady(effects, attempts) || HasFix(effects)
  }

  lemma LabelsSteady(target: Label, attempts: nat)
    ensures Steady(StatusEffects(target), attempts)
  {
    hide StatusEffects;
    StatusIsCalls(target);
  }

  lemma EscalateSteady(
    cfg: ReviewConfig, w: World, input: RunInput, done: seq<Effect>, trackId: Option<int>, t: ReviewTrack, reason: string)
    requires Steady(done, t.reviewAttempts)
    ensures Steady(EscalatePlan(cfg, w, input, done, trackId, t, reason).effects, t.reviewAttempts)
  {
    hide StatusEffects, HasEscalationComment, ApplyEffects, Merge;
    LabelsSteady(AgentEscalated, t.reviewAttempts);
  }

  lemma ConvergenceSteady(input: RunInput, done: seq<Effect>, trackId: Option<int>, t: ReviewTrack, items: seq<Feedback>)
    requires Steady(done, t.reviewAttempts)
    ensures Steady(ConvergencePlan(input, done, trackId, t, items).effects, t.reviewAttempts)
  {
    hide StatusEffects, Merge, AppliesToCurrentHead;
    LabelsSteady(AgentReady, t.reviewAttempts);
  }

  lemma DecidedAccounted(
    cfg: ReviewConfig, unit: WorkUnit, w: World, input: RunInput, trackId: Option<int>, track: ReviewTrack,
    items: seq<Feedback>, p: Partition, batch: seq<Feedback>, decided: seq<Decided>)
    ensures
      Accounted(DecidedPlan(cfg, unit, w, input, StatusEffects(AgentReview), trackId, track, items, p, batch, decided).effects,
                track.reviewAttempts)
  {
    hide StatusEffects, EscalatePlan, ConvergencePlan, FirstEscalation, AcceptedItems, Merge;
    var done := StatusEffects(AgentReview);
    LabelsSteady(AgentReview, track.reviewAttempts);
    var ids := p.skipped + IdentitiesOf(batch);
    var updated := WithProcessed(track, ids, false, None);
    var accepted := AcceptedItems(decided);
    if FirstEscalation(decided).Some? {
      EscalateSteady(cfg, w, input, done, trackId, updated, FirstEscalation(decided).value);
    } else if accepted == [] {
      ConvergenceSteady(input, done + [PersistTrack(input, trackId, updated)], PersistedId(input, trackId), updated, items);
    } else if track.reviewAttempts >= ReviewAttemptLimit(cfg, unit) {
      EscalateSteady(cfg, w, input, done, trackId, updated, "review_attempt_limit reached");
    } else {
      var plan := DecidedPlan(cfg, unit, w, input, done, trackId, track, items, p, batch, decided);
      assert plan.effects[|done| + 1].StartFix?;
    }
  }

  lemma CompletedAccounted(cfg: ReviewConfig, unit: WorkUnit, w: World, input: RunInput, trackId: Option<int>, track: ReviewTrack)
    ensures Accounted(CompletedPlan(cfg, unit, w, input, trackId, track).effects, track.reviewAttempts)
  {
    hide StatusEffects, PartitionItems, PrefilterReason, EscalatePlan, ConvergencePlan, DecidedPlan, ClassifyFrom, Merge;
    var done := StatusEffects(AgentReview);
    LabelsSteady(AgentReview, track.reviewAttempts);
    var items := Collect(input.feedback, cfg.actor);
    var p := PartitionItems(cfg, input, track, items);
    var batch := Batch(cfg.maxCommentsPerRun, p.candidates);
    var classified := ClassifyFrom(cfg, input, [], batch);
    if p.forbidden != [] {
      EscalateSteady(cfg, w, input, done, trackId, WithProcessed(track, p.skipped + IdentitiesOf(p.forbidden), false, None),
        "review references a forbidden path");
    } else if batch == [] {
      var updated := WithProcessed(track, p.skipped, false, None);
      ConvergenceSteady(input, done + [PersistTrack(input, trackId, updated)], PersistedId(input, trackId), updated, items);
    } else if classified.FailClosed? {
      EscalateSteady(cfg, w, input, done, trackId, WithProcessed(track, p.skipped + [classified.item.identity], false, None),
        classified.message);
    } else if classified.AllDecided? {
      DecidedAccounted(cfg, unit, w, input, trackId, track, items, p, batch, classified.decided);
    }
  }

  function Attempts(r: Record): nat {
    if r.track.Some? then r.track.value.1.reviewAttempts else 0
  }

  lemma PlanAccounted(cfg: ReviewConfig, unit: WorkUnit, w: World, r: Record, input: RunInput)
    requires Describes(cfg, unit, w, r)
    ensures Accounted(ReviewPlan(cfg, unit, w, input).effects, Attempts(r))
  {
    hide StatusEffects, EscalatePlan, CompletedPlan, Represents, RecordInv, HasFix, Steady;
    LoadReadsRecord(cfg, unit, w, r);
    var (trackId, track) := Loaded(r, unit.identity);
    LabelsSteady(AgentReview, track.reviewAttempts);
    NothingSteady(track.reviewAttempts);
    CompletedAccounted(cfg, unit, w, input, trackId, track);
    EscalateSteady(cfg, w, input, [], trackId, track, "CodeRabbit terminal is " + TerminalName(input.terminal));
  }

  lemma NothingSteady(attempts: nat)
    ensures Steady([], attempts)
  {
  }

  // ---------- What they leave ----------

  /** The attempts without a push. */
  function Unpushed(r: Record): int {
    Attempts(r) - |r.pushed|
  }

  lemma {:induction false} SteadyLeaves(r: Record, effects: seq<Effect>)
    requires Steady(effects, Attempts(r))
    ensures Unpushed(Steps(r, effects)) == Unpushed(r)
    ensures Attempts(Steps(r, effects)) == Attempts(r)
    decreases |effects|
  {
    if effects != [] {
      assert TrackOf(effects[0]).Some? ==> TrackOf(effects[0]).value.reviewAttempts == Attempts(r);
      SteadyLeaves(Step(r, effects[0]), effects[1..]);
    }
  }

  lemma SteadyPrefix(effects: seq<Effect>, attempts: nat, cut: nat)
    requires Steady(effects, attempts)
    ensures Steady(Prefix(effects, cut), attempts)
  {
  }

  /** The run decides to fix, persists its attempt, and does not reach the push. */
  ghost predicate AbandonsFix(cfg: ReviewConfig, unit: WorkUnit, w: World, run: ReviewRun) {
    exists k: nat :: Abandons(ReviewPlan(cfg, unit, w, run.input), run.input, k, run.cut)
  }

  /** An attempt without a push is left if and only if the run abandons its fix. */
  lemma PlanAccounts(cfg: ReviewConfig, unit: WorkUnit, w: World, r: Record, run: ReviewRun)
    requires Describes(cfg, unit, w, r)
    ensures
      Unpushed(Steps(r, Prefix(ReviewPlan(cfg, unit, w, run.input).effects, run.cut)))
      == Unpushed(r) + if AbandonsFix(cfg, unit, w, run) then 1 else 0
  {
    hide ReviewPlan, Steps, Steady, Describes;
    var plan := ReviewPlan(cfg, unit, w, run.input);
    PlanAccounted(cfg, unit, w, r, run.input);
    if HasFix(plan.effects) {
      var k :| 0 <= k < |plan.effects| && plan.effects[k].StartFix?;
      FixAccounts(cfg, unit, w, r, run, k);
    } else {
      SteadyPrefix(plan.effects, Attempts(r), run.cut);
      SteadyLeaves(r, Prefix(plan.effects, run.cut));
    }
  }

  lemma FixAccounts(cfg: ReviewConfig, unit: WorkUnit, w: World, r: Record, run: ReviewRun, k: nat)
    requires Describes(cfg, unit, w, r) && StartsFixAt(ReviewPlan(cfg, unit, w, run.input), k)
    ensures
      Unpushed(Steps(r, Prefix(ReviewPlan(cfg, unit, w, run.input).effects, run.cut)))
      == Unpushed(r) + if AbandonsFix(cfg, unit, w, run) then 1 else 0
  {
    hide ReviewPlan, CompletedPlan, PartitionItems, StatusEffects, Steps, Steady, Describes, Merge, Batch;
    var (trackId, track) := Loaded(r, unit.identity);
    var plan, cut := ReviewPlan(cfg, unit, w, run.input), run.cut;
    FixesOnlyCompleted(cfg, unit, w, r, run.input, k);
    FixPlanShape(cfg, unit, w, run.input, trackId, track, k);
    forall j | StartsFixAt(plan, j) ensures j == k { FixPlanShape(cfg, unit, w, run.input, trackId, track, j); }
    if cut < k {
      var done := StatusEffects(AgentReview);
      assert Prefix(plan.effects, cut) == plan.effects[..k][..cut] == done[..cut];
      LabelsSteady(AgentReview, Attempts(r));
      SteadyPrefix(done, Attempts(r), cut);
      SteadyLeaves(r, done[..cut]);
    } else {
      AbandonLeaves(cfg, unit, w, r, run.input, k, k);
      if Abandons(plan, run.input, k, cut) {
        AbandonLeaves(cfg, unit, w, r, run.input, k, cut);
      } else {
        StatusIsCalls(AgentReview);
        PushedLeaves(r, plan, k, cut, if run.input.fix.FixPushed? then StatusEffects(AgentReview) else []);
      }
    }
  }

  /** With its push, a fix pays for its attempt. */
  lemma PushedLeaves(r: Record, plan: Plan, k: nat, cut: nat, last: seq<Effect>)
    requires StartsFixAt(plan, k) && k + 1 < cut && forall i :: 0 <= i < |last| ==> last[i].LabelCall?
    requires plan.effects[k + 1..] == [PushFix(plan.effects[k].accepted)] + last
    ensures Unpushed(Steps(r, Prefix(plan.effects, cut))) == Unpushed(Steps(r, plan.effects[..k])) - 1
  {
    hide Steps;
    var effects := plan.effects;
    var fix, push, rest := effects[k], effects[k + 1..][0], Prefix(last, cut - k - 2);
    assert Prefix(effects, cut) == effects[..k] + ([fix, push] + rest);
    StepsAppend(r, effects[..k], [fix, push] + rest);
    OneFix(Steps(r, effects[..k]), fix, push, rest);
  }

  lemma OneFix(r: Record, fix: Effect, push: Effect, rest: seq<Effect>)
    requires fix.StartFix? && push.PushFix? && Steady(rest, Attempts(r))
    ensures Unpushed(Steps(r, [fix, push] + rest)) == Unpushed(r) - 1
  {
    hide Steady;
    var effects := [fix, push] + rest;
    assert effects[0] == fix && effects[1..] == [push] + rest && ([push] + rest)[1..] == rest;
    SteadyLeaves(Step(Step(r, fix), push), rest);
  }

  // ---------- Histories ----------

  ghost function AbandoningRuns(cfg: ReviewConfig, unit: WorkUnit, w: World, runs: seq<(ReviewRun, seq<Comment>)>): nat
    decreases |runs|
  {
    if runs == [] then 0
    else
      (if AbandonsFix(cfg, unit, w, runs[0].0) then 1 else 0)
      + AbandoningRuns(cfg, unit, AfterRun(cfg, unit, w, runs[0].0, runs[0].1), runs[1..])
  }

  lemma HandlingSteady(c: ControlPlane, attempts: nat)
    ensures Steady(ControlPlaneEffects(c), attempts)
  {
    hide StatusEffects;
    var target := if c.failed then AgentFailed else AgentEscalated;
    LabelsSteady(target, attempts);
    SteadyPrefix(StatusEffects(target), attempts, c.labelCalls);
  }

  lemma RunAccounts(cfg: ReviewConfig, unit: WorkUnit, w: World, r: Record, run: ReviewRun, foreign: seq<Comment>)
    requires Describes(cfg, unit, w, r)
    ensures Unpushed(RecordAfter(cfg, unit, w, r, run, foreign))
         == Unpushed(r) + if AbandonsFix(cfg, unit, w, run) then 1 else 0
  {
    hide ReviewPlan, ApplyEffects, Steps, Steady, Describes, AfterRun, AfterPlan, IdsOf, ControlPlaneEffects, AbandonsFix;
    PlanAccounts(cfg, unit, w, r, run);
    var planned := Steps(r, Prefix(ReviewPlan(cfg, unit, w, run.input).effects, run.cut)).(ids := IdsOf(AfterPlan(cfg, unit, w, run)));
    var handling := if run.controlPlane.Some? then ControlPlaneEffects(run.controlPlane.value) else [];
    if run.controlPlane.Some? { HandlingSteady(run.controlPlane.value, Attempts(planned)); } else { NothingSteady(Attempts(planned)); }
    SteadyLeaves(planned, handling);
  }

  lemma SameRecord(cfg: ReviewConfig, unit: WorkUnit, w: World, a: Record, b: Record)
    requires Describes(cfg, unit, w, a) && Describes(cfg, unit, w, b)
    ensures a == b
  {
    hide RecordInv, HasMarker, IdsOf;
    if a.track.Some? {
      var k :| TrackAt(w.own, k, a.track.value.0, a.track.value.1);
      ParsedHasMarker(w.own[k].body);
    }
    if b.track.Some? {
      var k :| TrackAt(w.own, k, b.track.value.0, b.track.value.1);
      ParsedHasMarker(w.own[k].body);
    }
  }

  /** A pull request that refuses for ever is described by no record. */
  lemma PoisonedIsNotDescribed(cfg: ReviewConfig, unit: WorkUnit, w: World, r: Record)
    requires Poisoned(cfg, unit, w)
    ensures !Describes(cfg, unit, w, r)
  {
    hide RecordInv, FindTracks;
    if Describes(cfg, unit, w, r) { OwnTracks(cfg, unit, w, r); }
  }

  /** A refused pull request stays refused, and none of its runs has an effect. */
  lemma {:induction false} RefusedForEver(cfg: ReviewConfig, unit: WorkUnit, w: World, runs: seq<(ReviewRun, seq<Comment>)>)
    requires Poisoned(cfg, unit, w)
    ensures Poisoned(cfg, unit, AfterRuns(cfg, unit, w, runs)) && AfterRuns(cfg, unit, w, runs).pushed == w.pushed
    decreases |runs|
  {
    hide Poisoned, AfterRun;
    if runs != [] {
      RefusedRun(cfg, unit, w, runs[0].0, runs[0].1);
      RefusedForEver(cfg, unit, AfterRun(cfg, unit, w, runs[0].0, runs[0].1), runs[1..]);
    }
  }

  lemma RefusedRun(cfg: ReviewConfig, unit: WorkUnit, w: World, run: ReviewRun, foreign: seq<Comment>)
    requires Poisoned(cfg, unit, w)
    ensures Poisoned(cfg, unit, AfterRun(cfg, unit, w, run, foreign)) && AfterRun(cfg, unit, w, run, foreign).pushed == w.pushed
  {
    hide ReviewPlan, Unsafe, WithinLimit, ControlPlaneEffects;
    RefusingRun(cfg, unit, w, run.input);
    var handling := if run.controlPlane.Some? then ControlPlaneEffects(run.controlPlane.value) else [];
    assert [] + handling == handling;
    HandlingIsNotices(run.controlPlane);
    PoisonStays(cfg, unit, w, handling);
    NoticesPushNothing(cfg, w, handling);
  }

  lemma {:induction false} NoticesPushNothing(cfg: ReviewConfig, w: World, effects: seq<Effect>)
    requires forall i :: 0 <= i < |effects| ==> effects[i].LabelCall? || effects[i].PostNotice?
    ensures ApplyEffects(cfg, w, effects).pushed == w.pushed
    decreases |effects|
  {
    if effects != [] { NoticesPushNothing(cfg, ApplyEffect(cfg, w, effects[0]), effects[1..]); }
  }

  /** No notice of a run's failure handling reads as a track of this unit. */
  predicate NothingForged(unit: WorkUnit, run: ReviewRun) {
    run.controlPlane.Some? && run.controlPlane.value.notice.Some? ==> !ReadsAsTrack(unit, run.controlPlane.value.notice.value)
  }

  /**
   * Main theorem: over any history of runs, cut anywhere, whose failure notices do not read as a
   * track, the attempts without a push grow by exactly the runs that abandoned their fix. A notice
   * that quotes the marker otherwise leaves a pull request that no record describes.
   */
  lemma {:induction false} AttemptsAreConserved(
    cfg: ReviewConfig, unit: WorkUnit, w: World, r: Record, runs: seq<(ReviewRun, seq<Comment>)>, end: Record)
    requires Describes(cfg, unit, w, r) && ValidUnit(unit) && ValidRuns(cfg, unit, w, runs)
    requires r.track.Some? || forall i :: 0 <= i < |runs| ==> NothingForged(unit, runs[i].0)
    requires Describes(cfg, unit, AfterRuns(cfg, unit, w, runs), end)
    ensures Unpushed(end) == Unpushed(r) + AbandoningRuns(cfg, unit, w, runs)
    decreases |runs|
  {
    hide Describes, ValidRun, ValidUnit, AfterRun, RecordAfter, NothingForged, Unpushed, AbandonsFix, Poisoned, Unforged;
    if runs == [] {
      SameRecord(cfg, unit, w, r, end);
    } else {
      var (run, foreign) := runs[0];
      var after, r' := AfterRun(cfg, unit, w, run, foreign), RecordAfter(cfg, unit, w, r, run, foreign);
      UnforgedRun(cfg, unit, w, r, run, foreign);
      RunRecorded(cfg, unit, w, r, run, foreign);
      if Poisoned(cfg, unit, after) {
        RefusedForEver(cfg, unit, after, runs[1..]);
        PoisonedIsNotDescribed(cfg, unit, AfterRuns(cfg, unit, w, runs), end);
      } else {
        RunAccounts(cfg, unit, w, r, run, foreign);
        AttemptsAreConserved(cfg, unit, after, r', runs[1..], end);
      }
    }
  }

  lemma UnforgedRun(cfg: ReviewConfig, unit: WorkUnit, w: World, r: Record, run: ReviewRun, foreign: seq<Comment>)
    requires r.track.Some? || NothingForged(unit, run)
    ensures Unforged(cfg, unit, w, r, run)
    ensures r.track.Some? ==> RecordAfter(cfg, unit, w, r, run, foreign).track.Some?
  {
    hide ReviewPlan, ReadsAsTrack, Steps, ControlPlaneEffects, AfterRun, AfterPlan, IdsOf;
    var effects := Prefix(ReviewPlan(cfg, unit, w, run.input).effects, run.cut);
    if r.track.Some? {
      TrackIsKept(r, effects);
      var planned := Steps(r, effects).(ids := IdsOf(AfterPlan(cfg, unit, w, run)));
      TrackIsKept(planned, if run.controlPlane.Some? then ControlPlaneEffects(run.controlPlane.value) else []);
    }
  }

  /** The input on which a forged track breaks the account: an attempt that no run made. */
  lemma ForgedAttempts(cfg: ReviewConfig, unit: WorkUnit, w: World, r: Record, t: ReviewTrack, id: int)
    requires Describes(cfg, unit, w, r) && r.track.None? && id !in r.ids
    requires WellFormedTrack(t) && t.identity == unit.identity
    ensures
      var after := ApplyEffect(cfg, w, PostNotice(id, RenderReviewTrack(t)));
      exists end :: Describes(cfg, unit, after, end) && Unpushed(end) == t.reviewAttempts
  {
    hide RecordInv, Represents, WellFormedTrack, ParseReviewTrack, RenderReviewTrack, HasMarker;
    TrackRoundTripIff(t);
    ForgedTrack(cfg, unit, w, r, id, RenderReviewTrack(t));
    NoTrackNoPush(cfg, unit, r);
    var after := ApplyEffect(cfg, w, PostNotice(id, RenderReviewTrack(t)));
    var forged := r.(track := Some((id, t)), ids := r.ids + {id});
    Redescribe(cfg, unit, after, forged);
    assert Unpushed(forged.(ids := IdsOf(after))) == t.reviewAttempts;
  }

  lemma NoTrackNoPush(cfg: ReviewConfig, unit: WorkUnit, r: Record)
    requires RecordInv(cfg, unit, r) && r.track.None?
    ensures r.pushed == []
  {
  }

  // ---------- Feedback that is never pushed ----------

  /** Tracked as processed, and part of no push. */
  predicate Lost(r: Record, x: string) {
    r.track.Some? && x in ProcessedIn(r) && forall i :: 0 <= i < |r.pushed| ==> x !in r.pushed[i]
  }

  predicate NotPushedBy(effects: seq<Effect>, x: string) {
    forall i :: 0 <= i < |effects| && effects[i].PushFix? ==> x !in effects[i].accepted
  }

  lemma {:induction false} LostStays(cfg: ReviewConfig, unit: WorkUnit, r: Record, effects: seq<Effect>, x: string)
    requires Lost(r, x) && AllAllowed(cfg, unit, r, effects) && NotPushedBy(effects, x)
    ensures Lost(Steps(r, effects), x)
    decreases |effects|
  {
    hide WellFormedTrack, HasMarker;
    if effects != [] {
      var e := effects[0];
      if e.UpdateTrack? { PrefixMembers(ProcessedIn(r), e.track.processed); }
      LostStays(cfg, unit, Step(r, e), effects[1..], x);
    }
  }

  /** A run pushes nothing that was processed before. */
  lemma ProcessedIsNotPushed(cfg: ReviewConfig, unit: WorkUnit, w: World, r: Record, input: RunInput, x: string)
    requires Describes(cfg, unit, w, r) && x in ProcessedIn(r)
    ensures NotPushedBy(ReviewPlan(cfg, unit, w, input).effects, x)
  {
    hide ReviewPlan, CompletedPlan, PartitionItems, StatusEffects, Describes, Merge, Batch;
    var plan := ReviewPlan(cfg, unit, w, input);
    var effects := plan.effects;
    var (trackId, track) := Loaded(r, unit.identity);
    PlanAccounted(cfg, unit, w, r, input);
    forall i | 0 <= i < |effects| && effects[i].PushFix? ensures x !in effects[i].accepted {
      assert HasFix(effects);
      var k :| 0 <= k < |effects| && effects[k].StartFix?;
      FixesOnlyCompleted(cfg, unit, w, r, input, k);
      FixPlanShape(cfg, unit, w, input, trackId, track, k);
      OnlyPush(plan, input, trackId, k, i);
      if x in effects[k].accepted { BatchWaits(cfg, input, track, x); }
    }
  }

  lemma OnlyPush(plan: Plan, input: RunInput, trackId: Option<int>, k: nat, i: nat)
    requires StartsFixAt(plan, k) && AfterFix(plan, input, k)
    requires exists t :: plan.effects[..k] == StatusEffects(AgentReview) + [PersistTrack(input, trackId, t)]
    requires i < |plan.effects| && plan.effects[i].PushFix?
    ensures plan.effects[i].accepted == plan.effects[k].accepted
  {
    hide StatusEffects;
    StatusIsCalls(AgentReview);
    var t :| plan.effects[..k] == StatusEffects(AgentReview) + [PersistTrack(input, trackId, t)];
    forall j | 0 <= j < k ensures !plan.effects[j].PushFix? {
      assert plan.effects[j] == plan.effects[..k][j];
    }
    if i > k {
      assert plan.effects[i] == plan.effects[k + 1..][i - k - 1];
    }
  }

  /** What a plan cut anywhere leaves of lost feedback, whatever its notice says. */
  lemma PlanKeepsLost(cfg: ReviewConfig, unit: WorkUnit, w: World, r: Record, input: RunInput, cut: nat, x: string)
    requires Describes(cfg, unit, w, r) && ValidUnit(unit) && ValidInput(input, r.ids) && Lost(r, x)
    ensures Lost(Steps(r, Prefix(ReviewPlan(cfg, unit, w, input).effects, cut)), x)
  {
    hide ReviewPlan, Steps, Represents, RecordInv, AllAllowed, ValidInput, HasMarker, Lost;
    var effects := ReviewPlan(cfg, unit, w, input).effects;
    var front, done := BeforeNotice(effects), Prefix(effects, cut);
    LostIsProcessed(r, x);
    ProcessedIsNotPushed(cfg, unit, w, r, input, x);
    FrontAllowed(cfg, unit, w, r, input);
    AllowedPrefix(cfg, unit, r, front, cut);
    LostStays(cfg, unit, r, Prefix(front, cut), x);
    if done != Prefix(front, cut) {
      var notice := effects[|effects| - 1];
      assert done == front + [notice] && Prefix(front, cut) == front;
      StepsAppend(r, front, [notice]);
      NoticeLeavesLost(Steps(r, front), notice, x);
    }
  }

  lemma NoticeLeavesLost(r: Record, notice: Effect, x: string)
    requires notice.PostNotice? && Lost(r, x)
    ensures Lost(Steps(r, [notice]), x)
  {
    assert [notice][1..] == [];
  }

  lemma LostIsProcessed(r: Record, x: string)
    requires Lost(r, x)
    ensures x in ProcessedIn(r)
  {
  }

  lemma HandlingKeepsLost(cfg: ReviewConfig, unit: WorkUnit, w: World, r: Record, run: ReviewRun, foreign: seq<Comment>, x: string)
    requires Lost(Steps(r, Prefix(ReviewPlan(cfg, unit, w, run.input).effects, run.cut)), x)
    ensures Lost(RecordAfter(cfg, unit, w, r, run, foreign), x)
  {
    hide ReviewPlan, Steps, AfterRun, AfterPlan, IdsOf, ControlPlaneEffects;
    var planned := Steps(r, Prefix(ReviewPlan(cfg, unit, w, run.input).effects, run.cut)).(ids := IdsOf(AfterPlan(cfg, unit, w, run)));
    if run.controlPlane.Some? { HandlingLeaves(planned, run.controlPlane.value); } else { NothingDone(planned); }
  }

  /** What a run accepted is lost if it abandons the fix. */
  lemma AbandonLoses(cfg: ReviewConfig, unit: WorkUnit, w: World, r: Record, input: RunInput, k: nat, cut: nat, x: string)
    requires Describes(cfg, unit, w, r) && Abandons(ReviewPlan(cfg, unit, w, input), input, k, cut)
    requires x in ReviewPlan(cfg, unit, w, input).effects[k].accepted
    ensures Lost(Steps(r, Prefix(ReviewPlan(cfg, unit, w, input).effects, cut)), x)
  {
    hide ReviewPlan, CompletedPlan, PartitionItems, StatusSteps, Represents, HasMarker, Merge, Steps, Batch, WellFormedTrack;
    var (trackId, track) := Loaded(r, unit.identity);
    FixesOnlyCompleted(cfg, unit, w, r, input, k);
    FixPlanShape(cfg, unit, w, input, trackId, track, k);
    BatchWaits(cfg, input, track, x);
    AbandonLeaves(cfg, unit, w, r, input, k, cut);
    var p := PartitionItems(cfg, input, track, Collect(input.feedback, cfg.actor));
    MergeAdds(track.processed, Merged(p, Batch(cfg.maxCommentsPerRun, p.candidates)));
    PushedIsProcessed(cfg, unit, r, x);
  }

  /** What was pushed is processed. */
  lemma PushedIsProcessed(cfg: ReviewConfig, unit: WorkUnit, r: Record, x: string)
    requires RecordInv(cfg, unit, r) && x !in Loaded(r, unit.identity).1.processed
    ensures forall i :: 0 <= i < |r.pushed| ==> x !in r.pushed[i]
  {
    forall i | 0 <= i < |r.pushed| ensures x !in r.pushed[i] {
      var j :| 0 <= j < |r.fixes| && r.fixes[j] == r.pushed[i];
    }
  }

  /** No push has this feedback, and no run will push it: it is lost, or the pull request refuses for ever. */
  ghost predicate NeverPushed(cfg: ReviewConfig, unit: WorkUnit, w: World, x: string) {
    && (forall i :: 0 <= i < |w.pushed| ==> x !in w.pushed[i])
    && (Poisoned(cfg, unit, w) || exists r :: Describes(cfg, unit, w, r) && Lost(r, x))
  }

  lemma LostIsNeverPushed(cfg: ReviewConfig, unit: WorkUnit, w: World, r: Record, x: string)
    requires Describes(cfg, unit, w, r) && Lost(r, x)
    ensures NeverPushed(cfg, unit, w, x)
  {
    hide RecordInv, HasMarker;
  }

  /** A run from lost feedback, or one that loses it, with any notices. */
  lemma RunKeepsLost(cfg: ReviewConfig, unit: WorkUnit, w: World, r: Record, run: ReviewRun, foreign: seq<Comment>, x: string)
    requires Describes(cfg, unit, w, r) && ValidUnit(unit) && ValidRun(cfg, unit, w, run, foreign)
    requires Lost(Steps(r, Prefix(ReviewPlan(cfg, unit, w, run.input).effects, run.cut)), x)
    ensures NeverPushed(cfg, unit, AfterRun(cfg, unit, w, run, foreign), x)
  {
    hide ReviewPlan, Represents, RecordInv, AfterRun, RecordAfter, Poisoned, ValidUnit, ValidInput, Steps, Describes;
    RunRecorded(cfg, unit, w, r, run, foreign);
    HandlingKeepsLost(cfg, unit, w, r, run, foreign, x);
    var after, end := AfterRun(cfg, unit, w, run, foreign), RecordAfter(cfg, unit, w, r, run, foreign);
    if Poisoned(cfg, unit, after) {
      PushesAfterRun(cfg, unit, w, r, run, foreign);
    } else {
      LostIsNeverPushed(cfg, unit, after, end, x);
    }
  }

  /** The log of pushes is kept even where the comments refuse. */
  lemma PushesAfterRun(cfg: ReviewConfig, unit: WorkUnit, w: World, r: Record, run: ReviewRun, foreign: seq<Comment>)
    requires w.pushed == r.pushed || Describes(cfg, unit, w, r)
    ensures AfterRun(cfg, unit, w, run, foreign).pushed == RecordAfter(cfg, unit, w, r, run, foreign).pushed
  {
    hide ReviewPlan, RecordInv, HasMarker, ControlPlaneEffects;
    var effects := Prefix(ReviewPlan(cfg, unit, w, run.input).effects, run.cut);
    var handling := if run.controlPlane.Some? then ControlPlaneEffects(run.controlPlane.value) else [];
    var planned := Steps(r, effects).(ids := IdsOf(AfterPlan(cfg, unit, w, run)));
    ApplyAppend(cfg, w, effects, handling);
    SamePushes(cfg, w, r, effects);
    SamePushes(cfg, ApplyEffects(cfg, w, effects), planned, handling);
  }

  lemma {:induction false} SamePushes(cfg: ReviewConfig, w: World, r: Record, effects: seq<Effect>)
    requires w.pushed == r.pushed
    ensures ApplyEffects(cfg, w, effects).pushed == Steps(r, effects).pushed
    decreases |effects|
  {
    if effects != [] { SamePushes(cfg, ApplyEffect(cfg, w, effects[0]), Step(r, effects[0]), effects[1..]); }
  }

  lemma {:induction false} NeverPushedStays(
    cfg: ReviewConfig, unit: WorkUnit, w: World, runs: seq<(ReviewRun, seq<Comment>)>, x: string)
    requires ValidUnit(unit) && ValidRuns(cfg, unit, w, runs) && NeverPushed(cfg, unit, w, x)
    ensures NeverPushed(cfg, unit, AfterRuns(cfg, unit, w, runs), x)
    decreases |runs|
  {
    hide Describes, ValidUnit, AfterRun, Lost, Poisoned, ReviewPlan, Steps;
    if Poisoned(cfg, unit, w) {
      RefusedForEver(cfg, unit, w, runs);
    } else if runs != [] {
      var (run, foreign) := runs[0];
      var r :| Describes(cfg, unit, w, r) && Lost(r, x);
      IdsDescribed(cfg, unit, w, r);
      PlanKeepsLost(cfg, unit, w, r, run.input, run.cut, x);
      RunKeepsLost(cfg, unit, w, r, run, foreign, x);
      NeverPushedStays(cfg, unit, AfterRun(cfg, unit, w, run, foreign), runs[1..], x);
    }
  }

  lemma IdsDescribed(cfg: ReviewConfig, unit: WorkUnit, w: World, r: Record)
    requires Describes(cfg, unit, w, r)
    ensures r.ids == IdsOf(w)
  {
  }

  /**
   * Main theorem: feedback that a run accepted and then abandoned is never pushed, whatever runs
   * follow and whatever any notice says.
   */
  lemma AbandonedIsNeverPushed(
    cfg: ReviewConfig, unit: WorkUnit, w: World, r: Record, runs: seq<(ReviewRun, seq<Comment>)>, k: nat, x: string)
    requires Describes(cfg, unit, w, r) && ValidUnit(unit) && ValidRuns(cfg, unit, w, runs) && runs != []
    requires
      var plan := ReviewPlan(cfg, unit, w, runs[0].0.input);
      Abandons(plan, runs[0].0.input, k, runs[0].0.cut) && x in plan.effects[k].accepted
    ensures
      var end := AfterRuns(cfg, unit, w, runs);
      && (forall i :: 0 <= i < |end.pushed| ==> x !in end.pushed[i])
      && NeverPushed(cfg, unit, end, x)
  {
    hide Describes, ValidUnit, AfterRun, Lost, Poisoned, ReviewPlan, Steps;
    var (run, foreign) := runs[0];
    AbandonLoses(cfg, unit, w, r, run.input, k, run.cut, x);
    RunKeepsLost(cfg, unit, w, r, run, foreign, x);
    NeverPushedStays(cfg, unit, AfterRun(cfg, unit, w, run, foreign), runs[1..], x);
  }
}
