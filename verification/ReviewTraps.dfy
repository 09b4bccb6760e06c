/**
 * Claims about reviews that do not hold, shown on inputs: IN_REVIEW for ever, and READY over
 * feedback nobody looked at.
 */
module ReviewTraps {
  import opened Wrappers
  import opened ReviewTracking
  import opened Labels
  import opened ReviewLoop
  import opened ReviewRecord
  import opened ReviewProofs
  import opened ReviewNotices
  import opened ReviewProgress
  import opened ReviewStability

  // ---------- A cap of zero ----------

  /** The same input with ids that GitHub has not handed out yet. */
  function WithIds(input: RunInput, id: int): RunInput {
    input.(trackCommentId := id, noticeCommentId := id + 1)
  }

  lemma {:induction false} FreshId(ids: set<int>) returns (id: int)
    ensures forall i :: i in ids ==> i < id
    decreases |ids|
  {
    if x :| x in ids {
      var rest := FreshId(ids - {x});
      id := if rest > x then rest else x + 1;
      assert forall i :: i in ids ==> i == x || i in ids - {x};
    } else {
      id := 0;
    }
  }

  /** Filtering again after more was processed: nothing new is forbidden or skipped, and a waiting item still waits. */
  lemma {:induction false} PartitionAgain(
    cfg: ReviewConfig, input: RunInput, id: int, track: ReviewTrack, later: ReviewTrack, items: seq<Feedback>)
    requires later.headSha == track.headSha && forall x :: x in track.processed ==> x in later.processed
    ensures
      var p, q := PartitionItems(cfg, input, track, items), PartitionItems(cfg, WithIds(input, id), later, items);
      && (p.forbidden == [] ==> q.forbidden == [])
      && (forall x :: x in q.skipped ==> x in p.skipped && x !in later.processed)
      && (forall c :: c in p.candidates && c.identity !in later.processed ==> c in q.candidates)
  {
    if items != [] { PartitionAgain(cfg, input, id, track, later, items[..|items| - 1]); }
  }

  /** Something waits that this run will not skip, and nothing is forbidden. */
  ghost predicate SomethingWaits(cfg: ReviewConfig, input: RunInput, track: ReviewTrack) {
    var p := PartitionItems(cfg, input, track, Collect(input.feedback, cfg.actor));
    p.forbidden == [] && exists c :: c in p.candidates && c.identity !in p.skipped
  }

  /** A run gets to the feedback: set up, completed on the head, no sticky label, no marker of others. */
  ghost predicate GetsToFeedback(cfg: ReviewConfig, w: World, track: ReviewTrack, input: RunInput) {
    && input.setupError.None? && input.terminal == CompletedTerminal
    && !(track.headSha == input.head && CurrentTerminal(w.labels).Some?)
    && (forall i :: 0 <= i < |w.foreign| ==> !HasMarker(w.foreign[i].body) && w.foreign[i].author != cfg.trackAuthor)
  }

  lemma ZeroCapPlan(cfg: ReviewConfig, unit: WorkUnit, w: World, r: Record, input: RunInput)
    requires Describes(cfg, unit, w, r) && CapIsZero(cfg)
    requires var track := Loaded(r, unit.identity).1; GetsToFeedback(cfg, w, track, input) && SomethingWaits(cfg, input, track)
    ensures
      var (trackId, track) := Loaded(r, unit.identity);
      var p := PartitionItems(cfg, input, track, Collect(input.feedback, cfg.actor));
      var plan := ReviewPlan(cfg, unit, w, input);
      && plan.exit.Returned? && plan.exit.outcome == InReviewOutcome
      && plan.effects == PersistMerged(input, trackId, track, p.skipped)
  {
    hide StatusSteps, PrefilterReason, PartitionItems, ConvergencePlan, HasMarker, Represents, RecordInv, ClassifyFrom;
    LoadReadsRecord(cfg, unit, w, r);
    var (trackId, track) := Loaded(r, unit.identity);
    var items := Collect(input.feedback, cfg.actor);
    var p := PartitionItems(cfg, input, track, items);
    var c :| c in p.candidates && c.identity !in p.skipped;
    CandidatesWait(cfg, input, track, c);
    MergeAdds(track.processed, p.skipped);
    assert Batch(cfg.maxCommentsPerRun, p.candidates) == [];
    assert ReviewPlan(cfg, unit, w, input) == CompletedPlan(cfg, unit, w, input, trackId, track);
    assert CompletedPlan(cfg, unit, w, input, trackId, track) == Converge(cfg, input, trackId, track, p.skipped);
    var updated := WithProcessed(track, p.skipped, false, None);
    ConvergedIs(input, PersistMerged(input, trackId, track, p.skipped), PersistedId(input, trackId), updated, items);
    ConvergenceIsExact(input, PersistMerged(input, trackId, track, p.skipped), PersistedId(input, trackId), updated, items, r);
    assert c in items && AppliesToCurrentHead(c, input.head, updated.headSha) && c.identity !in updated.processed;
  }

  /** After such a run the pull request is ready for another one just like it. */
  lemma ZeroCapAgain(cfg: ReviewConfig, unit: WorkUnit, w: World, r: Record, input: RunInput) returns (r': Record, next: RunInput)
    requires Describes(cfg, unit, w, r) && ValidUnit(unit) && ValidInput(input, IdsOf(w)) && CapIsZero(cfg)
    requires var track := Loaded(r, unit.identity).1; GetsToFeedback(cfg, w, track, input) && SomethingWaits(cfg, input, track)
    ensures
      var after := ApplyEffects(cfg, w, ReviewPlan(cfg, unit, w, input).effects).(foreign := w.foreign);
      var track := Loaded(r', unit.identity).1;
      && Describes(cfg, unit, after, r') && ValidInput(next, IdsOf(after)) && next.feedback == input.feedback
      && GetsToFeedback(cfg, after, track, next) && SomethingWaits(cfg, next, track)
  {
    hide StatusSteps, PrefilterReason, PartitionItems, HasMarker, Represents, RecordInv, ReviewPlan, Steps, ApplyEffects, Merge;
    var (trackId, track) := Loaded(r, unit.identity);
    var items := Collect(input.feedback, cfg.actor);
    var p := PartitionItems(cfg, input, track, items);
    ZeroCapPlan(cfg, unit, w, r, input);
    UnquotedPlanAllowed(cfg, unit, w, r, input);
    var effects := ReviewPlan(cfg, unit, w, input).effects;
    EffectsKeep(cfg, unit, w, r, effects);
    var merged := WithProcessed(track, p.skipped, false, None);
    PersistThenLabels(r, StatusEffects(AgentReview), input, trackId, merged, AgentReview);
    ReviewLabelOnly(r, input, trackId, merged);
    var mid, end := ApplyEffects(cfg, w, effects), Steps(r, effects);
    var after := mid.(foreign := w.foreign);
    NewForeign(cfg, mid, end, w.foreign);
    Redescribe(cfg, unit, after, end);
    r' := end.(ids := IdsOf(after));
    var id := FreshId(IdsOf(after));
    next := WithIds(input, id);
    MergeAdds(track.processed, p.skipped);
    PartitionAgain(cfg, input, id, track, merged, items);
    var c :| c in p.candidates && c.identity !in p.skipped;
    CandidatesWait(cfg, input, track, c);
    RepresentedLabels(cfg, after, r');
    var q := PartitionItems(cfg, next, merged, items);
    assert c in q.candidates && c.identity !in q.skipped;
  }

  /** After the review label and a persisted track, no sticky label is left. */
  lemma ReviewLabelOnly(r: Record, input: RunInput, trackId: Option<int>, t: ReviewTrack)
    ensures CurrentTerminal(Steps(r, StatusEffects(AgentReview) + [PersistTrack(input, trackId, t)]).labels).None?
  {
    hide StatusSteps;
    var persist := PersistTrack(input, trackId, t);
    StepsAppend(r, StatusEffects(AgentReview), [persist]);
    assert [persist][1..] == [];
    LabelStepsAre(r, StatusSteps(AgentReview));
    LabelChangeIsSafe(r.labels, AgentReview, 0);
    assert Exclusive(AgentReady) && Exclusive(AgentEscalated) && Exclusive(AgentFailed);
  }

  lemma RepresentedLabels(cfg: ReviewConfig, w: World, r: Record)
    requires Represents(cfg, w, r)
    ensures w.labels == r.labels
  {
  }

  /**
   * The counterexample for progress: with a cap of zero, something waiting and nothing forbidden,
   * there are as many IN_REVIEW runs in a row as anyone likes, on the same head and the same items.
   */
  lemma {:induction false} ZeroCapWaitsForEver(
    cfg: ReviewConfig, unit: WorkUnit, w: World, r: Record, input: RunInput, n: nat)
    requires Describes(cfg, unit, w, r) && ValidUnit(unit) && ValidInput(input, IdsOf(w)) && CapIsZero(cfg)
    requires var track := Loaded(r, unit.identity).1; GetsToFeedback(cfg, w, track, input) && SomethingWaits(cfg, input, track)
    ensures exists inputs :: |inputs| == n && KeepsWaiting(cfg, unit, w, inputs, input.feedback)
    decreases n
  {
    hide *;
    if n == 0 {
      NoWait(cfg, unit, w, input.feedback);
    } else {
      var r', next := ZeroCapAgain(cfg, unit, w, r, input);
      var after := ApplyEffects(cfg, w, ReviewPlan(cfg, unit, w, input).effects).(foreign := w.foreign);
      ZeroCapWaitsForEver(cfg, unit, after, r', next, n - 1);
      var rest :| |rest| == n - 1 && KeepsWaiting(cfg, unit, after, rest, input.feedback);
      ZeroCapStays(cfg, unit, w, r, input);
      OneMoreWait(cfg, unit, w, input, rest);
      assert |[(input, w.foreign)] + rest| == n;
    }
  }

  lemma NoWait(cfg: ReviewConfig, unit: WorkUnit, w: World, feedback: seq<Feedback>)
    ensures KeepsWaiting(cfg, unit, w, [], feedback)
  {
  }

  lemma OneMoreWait(cfg: ReviewConfig, unit: WorkUnit, w: World, input: RunInput, rest: seq<(RunInput, seq<Comment>)>)
    requires ValidInput(input, IdsOf(w)) && StaysAfterCompletion(cfg, unit, w, input)
    requires forall i :: 0 <= i < |w.foreign| ==> w.foreign[i].author != cfg.trackAuthor
    requires KeepsWaiting(cfg, unit, ApplyEffects(cfg, w, ReviewPlan(cfg, unit, w, input).effects).(foreign := w.foreign),
                          rest, input.feedback)
    ensures KeepsWaiting(cfg, unit, w, [(input, w.foreign)] + rest, input.feedback)
  {
    hide ReviewPlan, ValidInput, StaysAfterCompletion, ApplyEffects, IdsOf;
    var inputs := [(input, w.foreign)] + rest;
    assert inputs[0] == (input, w.foreign) && inputs[1..] == rest;
  }

  lemma ZeroCapStays(cfg: ReviewConfig, unit: WorkUnit, w: World, r: Record, input: RunInput)
    requires Describes(cfg, unit, w, r) && CapIsZero(cfg)
    requires var track := Loaded(r, unit.identity).1; GetsToFeedback(cfg, w, track, input) && SomethingWaits(cfg, input, track)
    ensures StaysAfterCompletion(cfg, unit, w, input)
    ensures forall i :: 0 <= i < |w.foreign| ==> w.foreign[i].author != cfg.trackAuthor
  {
    hide ReviewPlan, Describes, SomethingWaits, HasMarker;
    ZeroCapPlan(cfg, unit, w, r, input);
  }

  // ---------- A sticky READY ----------

  /** A pull request on which nothing happened yet. */
  const EMPTY_WORLD := World([], [], {}, [], [])

  lemma EmptyDescribed(cfg: ReviewConfig, unit: WorkUnit)
    ensures Describes(cfg, unit, EMPTY_WORLD, Record(None, {}, [], [], {}))
  {
  }

  /** With no feedback at all, a completed review is READY. */
  lemma NothingToReview(cfg: ReviewConfig, unit: WorkUnit, input: RunInput)
    requires input.setupError.None? && input.terminal == CompletedTerminal && input.feedback == []
    ensures
      var exit := ReviewPlan(cfg, unit, EMPTY_WORLD, input).exit;
      exit == Returned(ReadyForHuman, [], 0, false)
  {
    hide StatusSteps, ClassifyFrom;
    EmptyDescribed(cfg, unit);
    LoadReadsRecord(cfg, unit, EMPTY_WORLD, Record(None, {}, [], [], {}));
    assert PartitionItems(cfg, input, EmptyReviewTrack(unit.identity), []) == Partition([], [], []);
  }

  /**
   * The counterexample for READY: a completed review without feedback is READY; then feedback for
   * the same head arrives, and the next run is READY again, although the item applies to the head
   * and is not processed.
   */
  lemma StickyReadyMissesFeedback(cfg: ReviewConfig, unit: WorkUnit, input: RunInput, next: RunInput, item: Feedback)
    requires ValidUnit(unit) && ValidInput(input, {})
    requires input.setupError.None? && input.terminal == CompletedTerminal && input.feedback == []
    requires next.setupError.None? && next.terminal == CompletedTerminal && next.head == input.head && next.feedback == [item]
    requires item.commitSha == Some(input.head) && input.head != "" && item.author == cfg.actor
    ensures
      var after := ApplyEffects(cfg, EMPTY_WORLD, ReviewPlan(cfg, unit, EMPTY_WORLD, input).effects).(foreign := []);
      var plan := ReviewPlan(cfg, unit, after, next);
      && plan == Plan([], Returned(ReadyForHuman, [], 0, true))
      && item in Collect(next.feedback, cfg.actor)
      && AppliesToCurrentHead(item, next.head, next.head) && item.identity !in plan.exit.processed
  {
    hide ReviewPlan, ApplyEffects;
    EmptyDescribed(cfg, unit);
    NothingToReview(cfg, unit, input);
    TerminalIsStable(cfg, unit, EMPTY_WORLD, Record(None, {}, [], [], {}), input, next, []);
  }
}
