/** What READY means, and why IN_REVIEW cannot repeat forever. */
module ReviewProgress {
  import opened Wrappers
  import opened PyText
  import opened ReviewTracking
  import opened Labels
  import opened ReviewLoop
  import opened ReviewRecord
  import opened ReviewProofs
  import opened ReviewNotices

  function ProcessedIn(r: Record): seq<string> {
    if r.track.Some? then r.track.value.1.processed else []
  }

  /** The record after a whole plan, without a crash. */
  function AfterAll(r: Record, plan: Plan): Record {
    Steps(r, plan.effects)
  }

  predicate ConfiguredActor(cfg: ReviewConfig) {
    Strip(cfg.actor) != ""
  }

  // ---------- The record a plan leaves ----------

  lemma PersistThenLabels(r: Record, done: seq<Effect>, input: RunInput, trackId: Option<int>, t: ReviewTrack, target: Label)
    requires Exclusive(target)
    ensures Steps(r, done + [PersistTrack(input, trackId, t)]).track == Some((PersistedId(input, trackId).value, t))
    ensures
      var end := Steps(r, done + [PersistTrack(input, trackId, t)] + StatusEffects(target));
      && end.track == Some((PersistedId(input, trackId).value, t))
      && forall l :: Exclusive(l) ==> (l in end.labels <==> l == target)
  {
    hide StatusSteps;
    var persist := PersistTrack(input, trackId, t);
    StepsAppend(r, done, [persist]);
    assert [persist][1..] == [];
    var mid := Steps(r, done + [persist]);
    StepsAppend(r, done + [persist], StatusEffects(target));
    LabelStepsAre(mid, StatusSteps(target));
    LabelChangeIsSafe(mid.labels, target, 0);
  }

  lemma {:induction false} StepsAppend(r: Record, a: seq<Effect>, b: seq<Effect>)
    ensures Steps(r, a + b) == Steps(Steps(r, a), b)
    decreases |a|
  {
    if a == [] {
      assert a + b == b;
    } else {
      assert (a + b)[1..] == a[1..] + b;
      StepsAppend(Step(r, a[0]), a[1..], b);
    }
  }

  lemma {:induction false} LabelStepsAre(r: Record, steps: seq<LabelStep>)
    ensures Steps(r, LabelEffects(steps)) == r.(labels := ApplySteps(r.labels, steps))
    decreases |steps|
  {
    if steps != [] {
      assert LabelEffects(steps)[1..] == LabelEffects(steps[1..]);
      LabelStepsAre(Step(r, LabelCall(steps[0])), steps[1..]);
    }
  }

  /** Every collected item was processed before, is merged now, or is a candidate that applies. */
  lemma ItemsAccounted(cfg: ReviewConfig, input: RunInput, track: ReviewTrack, ids: seq<string>, x: Feedback)
    requires ConfiguredActor(cfg) && x in Collect(input.feedback, cfg.actor)
    ensures
      var p := PartitionItems(cfg, input, track, Collect(input.feedback, cfg.actor));
      p.forbidden == [] && (forall id :: id in p.skipped ==> id in ids) ==>
        x.identity in Merge(track.processed, ids)
        || (x in p.candidates && AppliesToCurrentHead(x, input.head, track.headSha))
  {
    PartitionIsExact(cfg, input, track, Collect(input.feedback, cfg.actor));
    PrefilterOrder(cfg, input, track, x);
    MergeAdds(track.processed, ids);
  }

  /** Two collected items with the same identity are the same item. */
  ghost predicate DistinctItems(cfg: ReviewConfig, input: RunInput) {
    forall x, y :: x in Collect(input.feedback, cfg.actor) && y in Collect(input.feedback, cfg.actor) ==>
      x.identity == y.identity ==> x == y
  }

  /** A candidate applies, is not processed, and is not skipped. */
  lemma CandidatesWait(cfg: ReviewConfig, input: RunInput, track: ReviewTrack, c: Feedback)
    requires c in PartitionItems(cfg, input, track, Collect(input.feedback, cfg.actor)).candidates
    ensures AppliesToCurrentHead(c, input.head, track.headSha)
    ensures c in Collect(input.feedback, cfg.actor) && c.identity !in track.processed
    ensures DistinctItems(cfg, input) ==>
              c.identity !in PartitionItems(cfg, input, track, Collect(input.feedback, cfg.actor)).skipped
  {
    var items := Collect(input.feedback, cfg.actor);
    PartitionIsExact(cfg, input, track, items);
    PrefilterOrder(cfg, input, track, c);
    SkippedHaveReasons(cfg, input, track, items);
  }

  /** A skipped identity belongs to an item that was filtered for its head or its path. */
  lemma {:induction false} SkippedHaveReasons(cfg: ReviewConfig, input: RunInput, track: ReviewTrack, items: seq<Feedback>)
    ensures forall id :: id in PartitionItems(cfg, input, track, items).skipped ==>
              exists x :: x in items && x.identity == id && PrefilterReason(cfg, input, track, x).Some?
  {
    hide PrefilterReason;
    if items != [] {
      SkippedHaveReasons(cfg, input, track, items[..|items| - 1]);
    }
  }

  // ---------- READY ----------

  /** What a READY result promises of the durable record `end`, from the loaded `track`. */
  ghost predicate ReadyMeans(cfg: ReviewConfig, input: RunInput, track: ReviewTrack, end: Record) {
    && input.terminal == CompletedTerminal
    && end.track.Some?
    && end.track.value.1.headSha == input.head
    && (forall l :: Exclusive(l) ==> (l in end.labels <==> l == AgentReady))
    && (forall x :: x in Collect(input.feedback, cfg.actor) && AppliesToCurrentHead(x, input.head, track.headSha) ==>
          x.identity in ProcessedIn(end))
    && (ConfiguredActor(cfg) ==>
          forall x :: x in Collect(input.feedback, cfg.actor) ==> x.identity in ProcessedIn(end))
  }

  /** `_convergence_result` decides READY exactly when every item that applies is processed. */
  lemma ConvergenceIsExact(input: RunInput, done: seq<Effect>, trackId: Option<int>, t: ReviewTrack, items: seq<Feedback>, r: Record)
    requires trackId.Some?
    ensures
      var plan := ConvergencePlan(input, done, trackId, t, items);
      && (plan.exit.outcome == ReadyForHuman <==>
            forall x :: x in items && AppliesToCurrentHead(x, input.head, t.headSha) ==> x.identity in t.processed)
      && (plan.exit.outcome == ReadyForHuman ==>
            var end := AfterAll(r, plan);
            && end.track == Some((trackId.value, t.(headSha := input.head)))
            && forall l :: Exclusive(l) ==> (l in end.labels <==> l == AgentReady))
      && (plan.exit.outcome != ReadyForHuman ==> plan.exit.outcome == InReviewOutcome && plan.effects == done)
  {
    hide StatusSteps;
    var bound := WithProcessed(t, [], false, Some(input.head));
    assert bound == t.(headSha := input.head);
    PersistThenLabels(r, done, input, trackId, bound, AgentReady);
    forall x | x in items && AppliesToCurrentHead(x, input.head, t.headSha) && x.identity !in t.processed
      ensures exists i :: 0 <= i < |items| && AppliesToCurrentHead(items[i], input.head, t.headSha) && items[i].identity !in t.processed
    {
      var i :| 0 <= i < |items| && items[i] == x;
    }
  }

  /** The items a run merges into the processed set when it escalates nothing and fixes nothing. */
  function Merged(p: Partition, batch: seq<Feedback>): seq<string> {
    p.skipped + IdentitiesOf(batch)
  }

  lemma ConvergedMeansReady(
    cfg: ReviewConfig, input: RunInput, track: ReviewTrack, trackId: Option<int>, done: seq<Effect>, ids: seq<string>, r: Record)
    requires input.terminal == CompletedTerminal
    requires
      var p := PartitionItems(cfg, input, track, Collect(input.feedback, cfg.actor));
      p.forbidden == [] && forall id :: id in p.skipped ==> id in ids
    ensures
      var updated := WithProcessed(track, ids, false, None);
      var persisted := done + [PersistTrack(input, trackId, updated)];
      var plan := ConvergencePlan(input, persisted, PersistedId(input, trackId), updated, Collect(input.feedback, cfg.actor));
      && (plan.exit.outcome == ReadyForHuman ==> ReadyMeans(cfg, input, track, AfterAll(r, plan)))
      && (plan.exit.outcome != ReadyForHuman ==>
            plan.exit.outcome == InReviewOutcome && ProcessedIn(AfterAll(r, plan)) == updated.processed)
  {
    hide StatusSteps, PrefilterReason, ConvergencePlan, PartitionItems;
    var items := Collect(input.feedback, cfg.actor);
    var updated := WithProcessed(track, ids, false, None);
    var persisted := done + [PersistTrack(input, trackId, updated)];
    PersistThenLabels(r, done, input, trackId, updated, AgentReady);
    ConvergenceIsExact(input, persisted, PersistedId(input, trackId), updated, items, r);
    if ConfiguredActor(cfg) {
      forall x | x in items
        ensures x.identity in updated.processed || AppliesToCurrentHead(x, input.head, track.headSha)
      {
        ItemsAccounted(cfg, input, track, ids, x);
      }
    }
  }

  /** The track with `ids` merged, persisted after the review label. */
  function PersistMerged(input: RunInput, trackId: Option<int>, track: ReviewTrack, ids: seq<string>): seq<Effect> {
    StatusEffects(AgentReview) + [PersistTrack(input, trackId, WithProcessed(track, ids, false, None))]
  }

  function Converge(cfg: ReviewConfig, input: RunInput, trackId: Option<int>, track: ReviewTrack, ids: seq<string>): Plan {
    ConvergencePlan(input, PersistMerged(input, trackId, track, ids), PersistedId(input, trackId),
                    WithProcessed(track, ids, false, None), Collect(input.feedback, cfg.actor))
  }

  predicate Settled(plan: Plan) {
    plan.exit.Raised? || plan.exit.outcome == ReviewEscalated || plan.exit.outcome == ReviewFixPushed
  }

  /** The only ways a run on completed feedback ends without escalating or fixing. */
  lemma CompletedShape(cfg: ReviewConfig, unit: WorkUnit, w: World, input: RunInput, trackId: Option<int>, track: ReviewTrack)
    ensures
      var plan := CompletedPlan(cfg, unit, w, input, trackId, track);
      var p := PartitionItems(cfg, input, track, Collect(input.feedback, cfg.actor));
      var batch := Batch(cfg.maxCommentsPerRun, p.candidates);
      || Settled(plan)
      || (p.forbidden == [] && batch == [] && plan == Converge(cfg, input, trackId, track, p.skipped))
      || (p.forbidden == [] && batch != [] && batch == p.candidates
          && plan == Converge(cfg, input, trackId, track, Merged(p, batch)))
      || (p.forbidden == [] && batch != [] && |batch| < |p.candidates|
          && plan == Plan(PersistMerged(input, trackId, track, Merged(p, batch)),
                          Ends(InReviewOutcome, WithProcessed(track, Merged(p, batch), false, None))))
    ensures
      var p := PartitionItems(cfg, input, track, Collect(input.feedback, cfg.actor));
      p.forbidden == [] && Batch(cfg.maxCommentsPerRun, p.candidates) == [] ==> !Settled(CompletedPlan(cfg, unit, w, input, trackId, track))
  {
    hide StatusSteps, PrefilterReason, PartitionItems, ClassifyFrom, FirstEscalation, AcceptedItems, WithProcessed, PersistTrack,
         HasEscalationComment;
  }

  /** A run that ends in READY without a sticky label earned it. */
  lemma ReadyIsSound(cfg: ReviewConfig, unit: WorkUnit, w: World, r: Record, input: RunInput)
    requires Describes(cfg, unit, w, r)
    ensures
      var plan := ReviewPlan(cfg, unit, w, input);
      plan.exit.Returned? && plan.exit.outcome == ReadyForHuman && !plan.exit.sticky ==>
        input.setupError.None? && ReadyMeans(cfg, input, Loaded(r, unit.identity).1, AfterAll(r, plan))
  {
    hide StatusSteps, ConvergencePlan, CompletedPlan, ReadyMeans, RecordInv, HasEscalationComment, PartitionItems, WithProcessed;
    LoadReadsRecord(cfg, unit, w, r);
    var (trackId, track) := Loaded(r, unit.identity);
    CompletedShape(cfg, unit, w, input, trackId, track);
    var p := PartitionItems(cfg, input, track, Collect(input.feedback, cfg.actor));
    var batch := Batch(cfg.maxCommentsPerRun, p.candidates);
    if input.terminal == CompletedTerminal && p.forbidden == [] {
      ConvergedMeansReady(cfg, input, track, trackId, StatusEffects(AgentReview), p.skipped, r);
      ConvergedMeansReady(cfg, input, track, trackId, StatusEffects(AgentReview), Merged(p, batch), r);
    }
  }

  /**
   * The other READY: a run on the head its track is bound to, with a ready label and no failed
   * or escalated one, returns READY without an effect, whatever feedback has arrived since.
   */
  lemma StickyReadyIff(cfg: ReviewConfig, unit: WorkUnit, w: World, r: Record, input: RunInput, feedback: seq<Feedback>)
    requires Describes(cfg, unit, w, r)
    ensures
      var plan := ReviewPlan(cfg, unit, w, input);
      var sticky := plan.exit.Returned? && plan.exit.outcome == ReadyForHuman && plan.exit.sticky;
      && (sticky <==> input.setupError.None? && LoadReviewTrack(w.own + w.foreign, cfg.trackAuthor, unit.identity).Ok?
                      && Loaded(r, unit.identity).1.headSha == input.head
                      && AgentReady in w.labels && AgentFailed !in w.labels && AgentEscalated !in w.labels)
      && (sticky ==> plan.effects == [] && ReviewPlan(cfg, unit, w, input.(feedback := feedback)) == plan)
  {
    hide StatusSteps, ConvergencePlan, CompletedPlan, RecordInv, HasEscalationComment, PartitionItems, WithProcessed, Represents;
    LoadReadsRecord(cfg, unit, w, r);
    var (trackId, track) := Loaded(r, unit.identity);
    NeverSticky(cfg, unit, w, input, trackId, track);
  }

  lemma NeverSticky(cfg: ReviewConfig, unit: WorkUnit, w: World, input: RunInput, trackId: Option<int>, track: ReviewTrack)
    ensures var exit := CompletedPlan(cfg, unit, w, input, trackId, track).exit; exit.Returned? ==> !exit.sticky
  {
    hide StatusSteps, PrefilterReason, PartitionItems, ClassifyFrom, FirstEscalation, AcceptedItems, WithProcessed, PersistTrack,
         HasEscalationComment;
  }

  // ---------- IN_REVIEW ----------

  /** The run got as far as the items: not sticky, and CodeRabbit completed on the head. */
  predicate StaysAfterCompletion(cfg: ReviewConfig, unit: WorkUnit, w: World, input: RunInput) {
    var exit := ReviewPlan(cfg, unit, w, input).exit;
    input.terminal == CompletedTerminal && exit.Returned? && exit.outcome == InReviewOutcome
  }

  /** `end` has processed an item of the head that `r` had not, and lost none. */
  ghost predicate Grows(cfg: ReviewConfig, input: RunInput, r: Record, end: Record) {
    && ProcessedIn(r) <= ProcessedIn(end)
    && exists x :: x in Collect(input.feedback, cfg.actor)
                   && x.identity !in ProcessedIn(r) && x.identity in ProcessedIn(end)
  }

  /** A cap of zero takes no candidate, so a run changes the record only by skipping. */
  predicate CapIsZero(cfg: ReviewConfig) {
    cfg.maxCommentsPerRun == Some(0)
  }

  lemma MergedGrows(cfg: ReviewConfig, input: RunInput, r: Record, track: ReviewTrack, trackId: Option<int>, ids: seq<string>, x: Feedback)
    requires ProcessedIn(r) == track.processed
    requires x in Collect(input.feedback, cfg.actor) && x.identity !in track.processed && x.identity in ids
    ensures Grows(cfg, input, r, Steps(r, PersistMerged(input, trackId, track, ids)))
  {
    hide StatusSteps;
    MergeAdds(track.processed, ids);
    PersistThenLabels(r, StatusEffects(AgentReview), input, trackId, WithProcessed(track, ids, false, None), AgentReview);
  }

  /** With the configured actor, a run that merged every candidate is READY. */
  lemma AllMergedIsReady(cfg: ReviewConfig, input: RunInput, track: ReviewTrack, trackId: Option<int>, ids: seq<string>, r: Record)
    requires ConfiguredActor(cfg)
    requires
      var p := PartitionItems(cfg, input, track, Collect(input.feedback, cfg.actor));
      && p.forbidden == []
      && (forall id :: id in p.skipped ==> id in ids)
      && forall c :: c in p.candidates ==> c.identity in ids
    ensures Converge(cfg, input, trackId, track, ids).exit.outcome == ReadyForHuman
  {
    hide StatusSteps, PrefilterReason, ConvergencePlan, PartitionItems;
    var items := Collect(input.feedback, cfg.actor);
    var updated := WithProcessed(track, ids, false, None);
    ConvergenceIsExact(input, PersistMerged(input, trackId, track, ids), PersistedId(input, trackId), updated, items, r);
    MergeAdds(track.processed, ids);
    forall x | x in items ensures x.identity in updated.processed {
      ItemsAccounted(cfg, input, track, ids, x);
    }
  }

  lemma IdentitiesInclude(items: seq<Feedback>, c: Feedback)
    requires c in items
    ensures c.identity in IdentitiesOf(items)
  {
    var i :| 0 <= i < |items| && items[i] == c;
    assert IdentitiesOf(items)[i] == c.identity;
  }

  /** Unless the cap is zero, an IN_REVIEW run after completion has processed something new. */
  lemma InReviewGrows(cfg: ReviewConfig, unit: WorkUnit, w: World, r: Record, input: RunInput)
    requires Describes(cfg, unit, w, r) && ConfiguredActor(cfg) && !CapIsZero(cfg)
    ensures StaysAfterCompletion(cfg, unit, w, input) ==>
              Grows(cfg, input, r, AfterAll(r, ReviewPlan(cfg, unit, w, input)))
  {
    hide StatusSteps, ConvergencePlan, CompletedPlan, RecordInv, HasEscalationComment, PartitionItems, Grows, PersistMerged,
         WithProcessed;
    LoadReadsRecord(cfg, unit, w, r);
    var (trackId, track) := Loaded(r, unit.identity);
    CompletedShape(cfg, unit, w, input, trackId, track);
    var p := PartitionItems(cfg, input, track, Collect(input.feedback, cfg.actor));
    var batch := Batch(cfg.maxCommentsPerRun, p.candidates);
    forall c | c in p.candidates && batch == p.candidates ensures c.identity in Merged(p, batch) {
      IdentitiesInclude(batch, c);
    }
    if StaysAfterCompletion(cfg, unit, w, input) && p.forbidden == [] {
      if batch == p.candidates {
        AllMergedIsReady(cfg, input, track, trackId, Merged(p, batch), r);
        if batch == [] {
          AllMergedIsReady(cfg, input, track, trackId, p.skipped, r);
        }
      } else {
        var c := batch[0];
        assert c in p.candidates && c in batch;
        CandidatesWait(cfg, input, track, c);
        IdentitiesInclude(batch, c);
        MergedGrows(cfg, input, r, track, trackId, Merged(p, batch), c);
      }
    }
  }

  /**
   * The cap of zero: on completed feedback the run stays IN_REVIEW with nothing new processed
   * if and only if something waits, nothing is skipped and nothing is forbidden.
   */
  lemma ZeroCapStallsIff(cfg: ReviewConfig, unit: WorkUnit, w: World, input: RunInput, trackId: Option<int>, track: ReviewTrack)
    requires ConfiguredActor(cfg) && CapIsZero(cfg) && DistinctItems(cfg, input)
    ensures
      var plan := CompletedPlan(cfg, unit, w, input, trackId, track);
      var p := PartitionItems(cfg, input, track, Collect(input.feedback, cfg.actor));
      plan.exit.Returned? && plan.exit.outcome == InReviewOutcome && plan.exit.processed == track.processed
      <==> p.forbidden == [] && p.candidates != [] && p.skipped == []
  {
    hide StatusSteps, PrefilterReason, CompletedPlan, ConvergencePlan, PartitionItems, HasEscalationComment;
    CompletedShape(cfg, unit, w, input, trackId, track);
    var items := Collect(input.feedback, cfg.actor);
    var p := PartitionItems(cfg, input, track, items);
    MergeAdds(track.processed, p.skipped);
    PartitionIsExact(cfg, input, track, items);
    var anyRecord := Record(None, {}, [], [], {});
    var updated := WithProcessed(track, p.skipped, false, None);
    ConvergenceIsExact(input, PersistMerged(input, trackId, track, p.skipped), PersistedId(input, trackId), updated, items, anyRecord);
    if p.forbidden == [] {
      if p.candidates == [] {
        AllMergedIsReady(cfg, input, track, trackId, p.skipped, anyRecord);
      } else {
        var c := p.candidates[0];
        assert c in p.candidates;
        CandidatesWait(cfg, input, track, c);
        ConvergeKeepsProcessed(cfg, input, trackId, track, p.skipped);
        if p.skipped != [] { assert p.skipped[0] in p.skipped; }
      }
    } else {
      ForbiddenEscalates(cfg, unit, w, input, trackId, track);
    }
  }

  lemma ConvergeKeepsProcessed(cfg: ReviewConfig, input: RunInput, trackId: Option<int>, track: ReviewTrack, ids: seq<string>)
    ensures Converge(cfg, input, trackId, track, ids).exit.processed == Merge(track.processed, ids)
  {
    hide StatusSteps;
  }

  lemma ForbiddenEscalates(cfg: ReviewConfig, unit: WorkUnit, w: World, input: RunInput, trackId: Option<int>, track: ReviewTrack)
    requires PartitionItems(cfg, input, track, Collect(input.feedback, cfg.actor)).forbidden != []
    ensures CompletedPlan(cfg, unit, w, input, trackId, track).exit.outcome == ReviewEscalated
  {
    hide StatusSteps, PartitionItems, HasEscalationComment;
  }

  // ---------- Repeated runs on a fixed head ----------

  /** Runs that all stay IN_REVIEW after completion, on the same items; none is cut short. */
  ghost predicate KeepsWaiting(cfg: ReviewConfig, unit: WorkUnit, w: World, inputs: seq<(RunInput, seq<Comment>)>, feedback: seq<Feedback>)
    decreases |inputs|
  {
    inputs == []
    || (var (input, foreign) := inputs[0];
        && input.feedback == feedback
        && ValidInput(input, IdsOf(w))
        && StaysAfterCompletion(cfg, unit, w, input)
        && (forall i :: 0 <= i < |foreign| ==> foreign[i].author != cfg.trackAuthor)
        && KeepsWaiting(cfg, unit, ApplyEffects(cfg, w, ReviewPlan(cfg, unit, w, input).effects).(foreign := foreign),
                        inputs[1..], feedback))
  }

  function Unprocessed(cfg: ReviewConfig, feedback: seq<Feedback>, processed: seq<string>): set<string> {
    set x | x in Collect(feedback, cfg.actor) && x.identity !in processed :: x.identity
  }

  /** IN_REVIEW cannot repeat forever: at most once for each item not yet processed. */
  lemma {:induction false} WaitingIsBounded(
    cfg: ReviewConfig, unit: WorkUnit, w: World, r: Record, inputs: seq<(RunInput, seq<Comment>)>, feedback: seq<Feedback>)
    requires Describes(cfg, unit, w, r) && ValidUnit(unit) && ConfiguredActor(cfg) && !CapIsZero(cfg)
    requires KeepsWaiting(cfg, unit, w, inputs, feedback)
    ensures |inputs| <= |Unprocessed(cfg, feedback, ProcessedIn(r))|
    decreases |inputs|
  {
    hide Represents, RecordInv, ReviewPlan, ValidInput, HasMarker, HasStatus, ValidUnit;
    if inputs != [] {
      var (input, foreign) := inputs[0];
      var plan := ReviewPlan(cfg, unit, w, input);
      UnquotedPlanAllowed(cfg, unit, w, r, input);
      EffectsKeep(cfg, unit, w, r, plan.effects);
      InReviewGrows(cfg, unit, w, r, input);
      var end := AfterAll(r, plan);
      var w' := ApplyEffects(cfg, w, plan.effects).(foreign := foreign);
      NewForeign(cfg, ApplyEffects(cfg, w, plan.effects), end, foreign);
      Redescribe(cfg, unit, w', end);
      var r' := end.(ids := IdsOf(w'));
      WaitingIsBounded(cfg, unit, w', r', inputs[1..], feedback);
      PrefixMembers(ProcessedIn(r), ProcessedIn(r'));
      var before, after := Unprocessed(cfg, feedback, ProcessedIn(r)), Unprocessed(cfg, feedback, ProcessedIn(r'));
      var x :| x in Collect(feedback, cfg.actor) && x.identity !in ProcessedIn(r) && x.identity in ProcessedIn(end);
      assert x.identity in before && x.identity !in after;
      SmallerSet(after, before, x.identity);
    }
  }

  lemma SmallerSet(a: set<string>, b: set<string>, x: string)
    requires a <= b && x in b && x !in a
    ensures |a| < |b|
  {
    SubsetSize(a, b - {x});
  }

  lemma {:induction false} SubsetSize(a: set<string>, b: set<string>)
    requires a <= b
    ensures |a| <= |b|
  {
    if a != {} {
      var x :| x in a;
      SubsetSize(a - {x}, b - {x});
    }
  }
}
