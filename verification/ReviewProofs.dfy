/** Safety and progress of the durable review protocol over every history of runs. */
module ReviewProofs {
  import opened Wrappers
  import opened Marker
  import opened ReviewTracking
  import opened Labels
  import opened ReviewLoop
  import opened ReviewRecord

  // ---------- What is assumed of a run's inputs ----------

  /** Identities and heads fit on a line; ids are fresh. */
  ghost predicate ValidInput(input: RunInput, ids: set<int>) {
    && SafeValue(input.head)
    && (forall x :: x in input.feedback ==> SafeIdentity(x.identity))
    && input.trackCommentId !in ids
    && input.noticeCommentId !in ids
    && input.trackCommentId != input.noticeCommentId
  }

  /** No notice of the run quotes the tracking marker. */
  ghost predicate Quiet(input: RunInput) {
    forall reason :: !HasMarker(input.notice(reason))
  }

  ghost predicate ValidUnit(unit: WorkUnit) {
    WellFormedTrack(EmptyReviewTrack(unit.identity))
  }

  // ---------- Filtering partitions the feedback ----------

  /** Every item is skipped, forbidden, a candidate, already processed, or somebody else's. */
  ghost predicate Covered(cfg: ReviewConfig, input: RunInput, track: ReviewTrack, p: Partition, item: Feedback) {
    match PrefilterReason(cfg, input, track, item)
    case None => item in p.candidates
    case Some(ForbiddenPath) => item in p.forbidden
    case Some(OutdatedHead) => item.identity in p.skipped
    case Some(MissingPath) => item.identity in p.skipped
    case Some(_) => true
  }

  lemma {:induction false} PartitionIsExact(cfg: ReviewConfig, input: RunInput, track: ReviewTrack, items: seq<Feedback>)
    ensures
      var p := PartitionItems(cfg, input, track, items);
      && (forall x :: x in items ==> Covered(cfg, input, track, p, x))
      && (forall x :: x in p.candidates ==> x in items && PrefilterReason(cfg, input, track, x).None?)
      && (forall x :: x in p.forbidden ==> x in items && PrefilterReason(cfg, input, track, x) == Some(ForbiddenPath))
      && (forall id :: id in p.skipped ==> id !in track.processed && exists x :: x in items && x.identity == id)
  {
    hide PrefilterReason;
    if items != [] {
      var n := |items| - 1;
      PartitionIsExact(cfg, input, track, items[..n]);
      var q, p := PartitionItems(cfg, input, track, items[..n]), PartitionItems(cfg, input, track, items);
      PrefilterOrder(cfg, input, track, items[n]);
      assert items == items[..n] + [items[n]];
      forall x | x in items ensures Covered(cfg, input, track, p, x) {
        if x != items[n] { assert Covered(cfg, input, track, q, x); }
      }
    }
  }

  /** Only a processed identity, or another actor's, is filtered as such before the skips. */
  lemma PrefilterOrder(cfg: ReviewConfig, input: RunInput, track: ReviewTrack, item: Feedback)
    ensures
      var reason := PrefilterReason(cfg, input, track, item);
      && (reason.None? || reason.value in {OutdatedHead, MissingPath, ForbiddenPath} ==> item.identity !in track.processed)
      && (reason == Some(Processed) ==> item.identity in track.processed)
      && (IsConfiguredActor(item.author, cfg.actor) ==> reason != Some(NonConfiguredActor))
  {
  }

  lemma {:induction false} ClassifiedBatch(cfg: ReviewConfig, input: RunInput, decided: seq<Decided>, batch: seq<Feedback>)
    ensures
      var r := ClassifyFrom(cfg, input, decided, batch);
      && (r.AllDecided? ==>
            && |r.decided| == |decided| + |batch|
            && (forall i :: 0 <= i < |decided| ==> r.decided[i] == decided[i])
            && (forall i :: 0 <= i < |batch| ==> r.decided[|decided| + i].item == batch[i]))
      && (r.FailClosed? ==> r.item in batch)
    decreases |batch|
  {
    if batch != [] && input.classifier(batch[0]).Classified? {
      var next := Decided(batch[0], DecideReviewPolicy(cfg, input.classifier(batch[0]).result));
      ClassifiedBatch(cfg, input, decided + [next], batch[1..]);
    }
  }

  /** FIX is decided only for in-scope, confident, actionable feedback with repair enabled. */
  lemma FixPolicyIsExact(cfg: ReviewConfig, r: ClassificationResult)
    ensures DecideReviewPolicy(cfg, r).action == Fix
            <==> r.classification == Actionable && cfg.autoRepairEnabled && r.confidence >= cfg.confidenceThreshold
                 && r.referencedPaths != [] && forall p :: p in r.referencedPaths ==> cfg.inScope(p)
    ensures DecideReviewPolicy(cfg, r).action == Ignore <==> r.classification == NonActionable
  {
  }

  // ---------- Every effect of a run is allowed ----------

  /** Processing safe identities yields a track that may replace the record's. */
  lemma ProcessedSucceeds(
    cfg: ReviewConfig, unit: WorkUnit, r: Record, t: ReviewTrack, ids: seq<string>, increment: bool, head: Option<string>)
    requires Successor(cfg, unit, r, t)
    requires forall x :: x in ids ==> SafeIdentity(x)
    requires head.Some? ==> SafeValue(head.value)
    requires increment ==> t.reviewAttempts < ReviewAttemptLimit(cfg, unit)
    ensures Successor(cfg, unit, r, WithProcessed(t, ids, increment, head))
    ensures forall x :: x in ids ==> x in WithProcessed(t, ids, increment, head).processed
    ensures t.processed <= WithProcessed(t, ids, increment, head).processed
  {
    hide SafeValue, SafeIdentity;
    MergeAdds(t.processed, ids);
    var merged := Merge(t.processed, ids);
    forall i | 0 <= i < |merged| ensures SafeIdentity(merged[i]) {
      assert merged[i] in merged;
    }
    if r.track.Some? {
      PrefixTransitive(r.track.value.1.processed, t.processed, merged);
    }
  }

  lemma PrefixTransitive(a: seq<string>, b: seq<string>, c: seq<string>)
    requires a <= b && b <= c
    ensures a <= c
  {
  }

  /** The record a run starts from, and the track it loaded. */
  ghost predicate Starting(cfg: ReviewConfig, unit: WorkUnit, r: Record, input: RunInput, trackId: Option<int>, track: ReviewTrack) {
    && RecordInv(cfg, unit, r)
    && ValidUnit(unit)
    && ValidInput(input, r.ids)
    && Quiet(input)
    && (trackId, track) == Loaded(r, unit.identity)
  }

  lemma LoadedSucceeds(cfg: ReviewConfig, unit: WorkUnit, r: Record, input: RunInput, trackId: Option<int>, track: ReviewTrack)
    requires Starting(cfg, unit, r, input, trackId, track)
    ensures Successor(cfg, unit, r, track)
  {
  }

  /** Between the label calls and the persistence nothing but the labels has changed. */
  ghost predicate OnlyLabels(r: Record, now: Record) {
    now == r.(labels := now.labels)
  }

  /** Persisting a successor track: what the record holds afterwards. */
  lemma PersistAllowed(
    cfg: ReviewConfig, unit: WorkUnit, r: Record, now: Record, input: RunInput, trackId: Option<int>, track: ReviewTrack,
    t: ReviewTrack)
    requires Starting(cfg, unit, r, input, trackId, track) && OnlyLabels(r, now) && Successor(cfg, unit, r, t)
    ensures Allowed(cfg, unit, now, PersistTrack(input, trackId, t))
    ensures
      var after := Step(now, PersistTrack(input, trackId, t));
      && after.track == Some((PersistedId(input, trackId).value, t))
      && after.fixes == r.fixes && after.pushed == r.pushed && after.labels == now.labels
      && after.ids == if trackId.Some? then r.ids else r.ids + {input.trackCommentId}
  {
  }

  lemma EscalateAllowed(
    cfg: ReviewConfig, unit: WorkUnit, w: World, r: Record, input: RunInput, done: seq<Effect>, trackId: Option<int>,
    track: ReviewTrack, t: ReviewTrack, reason: string)
    requires Starting(cfg, unit, r, input, trackId, track) && Successor(cfg, unit, r, t)
    requires AllAllowed(cfg, unit, r, done) && OnlyLabels(r, Steps(r, done))
    ensures AllAllowed(cfg, unit, r, EscalatePlan(cfg, w, input, done, trackId, t, reason).effects)
  {
    hide Successor, RecordInv, ValidUnit, StatusSteps, HasEscalationComment, WithProcessed;
    var bound := WithProcessed(t, [], false, Some(input.head));
    ProcessedSucceeds(cfg, unit, r, t, [], false, Some(input.head));
    var persist := PersistTrack(input, trackId, bound);
    var now := Steps(r, done);
    PersistAllowed(cfg, unit, r, now, input, trackId, track, bound);
    PersistThenStatus(cfg, unit, r, done, persist, AgentEscalated);
    var effects := done + [persist] + StatusEffects(AgentEscalated);
    var notice := PostNotice(input.noticeCommentId, input.notice(reason));
    assert AllAllowed(cfg, unit, Steps(r, effects), [notice]);
    AllowedAppend(cfg, unit, r, effects, [notice]);
  }

  lemma PersistThenStatus(cfg: ReviewConfig, unit: WorkUnit, r: Record, done: seq<Effect>, persist: Effect, target: Label)
    requires AllAllowed(cfg, unit, r, done) && Allowed(cfg, unit, Steps(r, done), persist) && Exclusive(target)
    ensures AllAllowed(cfg, unit, r, done + [persist])
    ensures AllAllowed(cfg, unit, r, done + [persist] + StatusEffects(target))
    ensures Steps(r, done + [persist]) == Step(Steps(r, done), persist)
    ensures Steps(r, done + [persist] + StatusEffects(target)) ==
            Step(Steps(r, done), persist).(labels := ApplySteps(Step(Steps(r, done), persist).labels, StatusSteps(target)))
  {
    hide Allowed, StatusSteps;
    var now := Steps(r, done);
    assert [persist][1..] == [];
    AllowedAppend(cfg, unit, r, done, [persist]);
    StatusAllowed(cfg, unit, Step(now, persist), target);
    AllowedAppend(cfg, unit, r, done + [persist], StatusEffects(target));
  }

  lemma ConvergenceAllowed(
    cfg: ReviewConfig, unit: WorkUnit, r: Record, input: RunInput, done: seq<Effect>, trackId: Option<int>,
    t: ReviewTrack, items: seq<Feedback>)
    requires SafeValue(input.head) && trackId.Some? && AllAllowed(cfg, unit, r, done)
    requires Steps(r, done).track == Some((trackId.value, t)) && Successor(cfg, unit, Steps(r, done), t)
    ensures AllAllowed(cfg, unit, r, ConvergencePlan(input, done, trackId, t, items).effects)
  {
    hide WellFormedTrack, StatusSteps, WithProcessed;
    var bound := WithProcessed(t, [], false, Some(input.head));
    ProcessedSucceeds(cfg, unit, Steps(r, done), t, [], false, Some(input.head));
    PersistThenStatus(cfg, unit, r, done, PersistTrack(input, trackId, bound), AgentReady);
  }

  lemma DecidedAllowed(
    cfg: ReviewConfig, unit: WorkUnit, w: World, r: Record, input: RunInput, done: seq<Effect>, trackId: Option<int>,
    track: ReviewTrack, items: seq<Feedback>, p: Partition, batch: seq<Feedback>, decided: seq<Decided>)
    requires Starting(cfg, unit, r, input, trackId, track)
    requires AllAllowed(cfg, unit, r, done) && OnlyLabels(r, Steps(r, done))
    requires forall x :: x in p.skipped ==> SafeIdentity(x)
    requires forall x :: x in batch ==> SafeIdentity(x.identity) && x.identity !in track.processed
    requires forall d :: d in decided ==> d.item in batch
    ensures AllAllowed(cfg, unit, r,
              DecidedPlan(cfg, unit, w, input, done, trackId, track, items, p, batch, decided).effects)
  {
    hide EscalatePlan, ConvergencePlan, StatusSteps, SafeValue, SafeIdentity, ValidUnit, FirstEscalation, ReviewAttemptLimit,
         WellFormedTrack;
    var identities := p.skipped + IdentitiesOf(batch);
    forall x | x in identities ensures SafeIdentity(x) {
      if x !in p.skipped {
        var i :| 0 <= i < |batch| && IdentitiesOf(batch)[i] == x;
        assert batch[i] in batch;
      }
    }
    LoadedSucceeds(cfg, unit, r, input, trackId, track);
    ProcessedSucceeds(cfg, unit, r, track, identities, false, None);
    var updated := WithProcessed(track, identities, false, None);
    var accepted := AcceptedItems(decided);
    if FirstEscalation(decided).Some? {
      EscalateAllowed(cfg, unit, w, r, input, done, trackId, track, updated, FirstEscalation(decided).value);
    } else if accepted == [] {
      PersistAllowed(cfg, unit, r, Steps(r, done), input, trackId, track, updated);
      PersistThenStatus(cfg, unit, r, done, PersistTrack(input, trackId, updated), AgentReady);
      ConvergenceAllowed(cfg, unit, r, input, done + [PersistTrack(input, trackId, updated)],
        PersistedId(input, trackId), updated, items);
    } else if track.reviewAttempts >= ReviewAttemptLimit(cfg, unit) {
      EscalateAllowed(cfg, unit, w, r, input, done, trackId, track, updated, "review_attempt_limit reached");
    } else {
      AcceptedFromBatch(decided, batch);
      FixAllowed(cfg, unit, r, input, done, trackId, track, identities, IdentitiesOf(accepted));
    }
  }

  /** What a fix accepts comes out of the batch. */
  lemma AcceptedFromBatch(decided: seq<Decided>, batch: seq<Feedback>)
    requires forall d :: d in decided ==> d.item in batch
    ensures forall x :: x in IdentitiesOf(AcceptedItems(decided)) ==>
              x in IdentitiesOf(batch) && exists b :: b in batch && b.identity == x
  {
    var accepted := AcceptedItems(decided);
    forall x | x in IdentitiesOf(accepted)
      ensures x in IdentitiesOf(batch) && exists b :: b in batch && b.identity == x
    {
      var i :| 0 <= i < |accepted| && IdentitiesOf(accepted)[i] == x;
      assert accepted[i] in accepted;
      var k :| 0 <= k < |batch| && batch[k] == accepted[i];
      assert IdentitiesOf(batch)[k] == x;
    }
  }

  /** The incremented track is durable before the fix starts, and covers what the fix accepted. */
  lemma FixAllowed(
    cfg: ReviewConfig, unit: WorkUnit, r: Record, input: RunInput, done: seq<Effect>, trackId: Option<int>,
    track: ReviewTrack, identities: seq<string>, accepted: seq<string>)
    requires Starting(cfg, unit, r, input, trackId, track)
    requires AllAllowed(cfg, unit, r, done) && OnlyLabels(r, Steps(r, done))
    requires forall x :: x in identities ==> SafeIdentity(x)
    requires forall x :: x in accepted ==> x in identities && x !in track.processed
    requires track.reviewAttempts < ReviewAttemptLimit(cfg, unit)
    ensures
      var started := WithProcessed(track, identities, true, Some(input.head));
      var effects := done + [PersistTrack(input, trackId, started), StartFix(accepted)];
      && AllAllowed(cfg, unit, r, effects)
      && AllAllowed(cfg, unit, r, effects + [PushFix(accepted)])
      && AllAllowed(cfg, unit, r, effects + [PushFix(accepted)] + StatusEffects(AgentReview))
  {
    hide StatusSteps, SafeValue, SafeIdentity, ReviewAttemptLimit, WellFormedTrack, WithinLimit, DisjointFixes;
    var started := WithProcessed(track, identities, true, Some(input.head));
    var persist, fix := PersistTrack(input, trackId, started), StartFix(accepted);
    LoadedSucceeds(cfg, unit, r, input, trackId, track);
    ProcessedSucceeds(cfg, unit, r, track, identities, true, Some(input.head));
    PersistAllowed(cfg, unit, r, Steps(r, done), input, trackId, track, started);
    var after := Step(Steps(r, done), persist);
    assert Allowed(cfg, unit, after, fix);
    assert [persist, fix][1..] == [fix] && [fix][1..] == [];
    assert AllAllowed(cfg, unit, after, [fix]);
    assert AllAllowed(cfg, unit, Steps(r, done), [persist, fix]);
    AllowedAppend(cfg, unit, r, done, [persist, fix]);
    assert Steps(after, [fix]) == Step(after, fix);
    assert Steps(Steps(r, done), [persist, fix]) == Step(after, fix);
    FixRecord(after, fix);
    PushAllowed(cfg, unit, r, Step(after, fix), track, accepted);
    AllowedPush(cfg, unit, r, done + [persist, fix], PushFix(accepted));
  }

  lemma FixRecord(r: Record, fix: Effect)
    requires fix.StartFix?
    ensures Step(r, fix) == r.(fixes := r.fixes + [fix.accepted])
  {
  }

  /** What was just started may be pushed: none of it was before. */
  lemma PushAllowed(cfg: ReviewConfig, unit: WorkUnit, r: Record, fixed: Record, track: ReviewTrack, accepted: seq<string>)
    requires RecordInv(cfg, unit, r) && track == Loaded(r, unit.identity).1
    requires fixed.fixes == r.fixes + [accepted] && fixed.pushed == r.pushed
    requires forall x :: x in accepted ==> x !in track.processed
    ensures Allowed(cfg, unit, fixed, PushFix(accepted))
  {
    hide WellFormedTrack, ReviewAttemptLimit;
    forall i, x | 0 <= i < |r.pushed| && x in r.pushed[i] ensures x !in accepted {
      var j :| 0 <= j < |r.fixes| && r.fixes[j] == r.pushed[i];
    }
    assert fixed.fixes[|r.fixes|] == accepted;
  }

  lemma AllowedPush(cfg: ReviewConfig, unit: WorkUnit, r: Record, effects: seq<Effect>, push: Effect)
    requires AllAllowed(cfg, unit, r, effects) && Allowed(cfg, unit, Steps(r, effects), push)
    ensures AllAllowed(cfg, unit, r, effects + [push])
    ensures AllAllowed(cfg, unit, r, effects + [push] + StatusEffects(AgentReview))
  {
    hide Allowed, StatusSteps;
    assert [push][1..] == [];
    AllowedAppend(cfg, unit, r, effects, [push]);
    StatusAllowed(cfg, unit, Steps(r, effects + [push]), AgentReview);
    AllowedAppend(cfg, unit, r, effects + [push], StatusEffects(AgentReview));
  }

  lemma BatchIsPrefix(cap: Option<int>, candidates: seq<Feedback>)
    ensures Batch(cap, candidates) <= candidates
    ensures forall x :: x in Batch(cap, candidates) ==> x in candidates
  {
  }

  /** Escalating after setting feedback aside as processed. */
  lemma SetAsideAllowed(
    cfg: ReviewConfig, unit: WorkUnit, w: World, r: Record, input: RunInput, trackId: Option<int>, track: ReviewTrack,
    ids: seq<string>, reason: string)
    requires Starting(cfg, unit, r, input, trackId, track) && forall x :: x in ids ==> SafeIdentity(x)
    ensures
      var t := WithProcessed(track, ids, false, None);
      AllAllowed(cfg, unit, r, EscalatePlan(cfg, w, input, StatusEffects(AgentReview), trackId, t, reason).effects)
  {
    hide SafeIdentity, WithProcessed, StatusEffects, EscalatePlan, Successor;
    StatusAllowed(cfg, unit, r, AgentReview);
    LoadedSucceeds(cfg, unit, r, input, trackId, track);
    ProcessedSucceeds(cfg, unit, r, track, ids, false, None);
    EscalateAllowed(cfg, unit, w, r, input, StatusEffects(AgentReview), trackId, track, WithProcessed(track, ids, false, None), reason);
  }

  /** Converging after recording the skipped feedback. */
  lemma SkippedAllowed(
    cfg: ReviewConfig, unit: WorkUnit, r: Record, input: RunInput, trackId: Option<int>, track: ReviewTrack,
    ids: seq<string>, items: seq<Feedback>)
    requires Starting(cfg, unit, r, input, trackId, track) && forall x :: x in ids ==> SafeIdentity(x)
    ensures
      var t := WithProcessed(track, ids, false, None);
      var done := StatusEffects(AgentReview) + [PersistTrack(input, trackId, t)];
      AllAllowed(cfg, unit, r, ConvergencePlan(input, done, PersistedId(input, trackId), t, items).effects)
  {
    hide SafeIdentity, WithProcessed, StatusEffects, ConvergencePlan, WellFormedTrack, StatusSteps;
    var done := StatusEffects(AgentReview);
    StatusAllowed(cfg, unit, r, AgentReview);
    LoadedSucceeds(cfg, unit, r, input, trackId, track);
    ProcessedSucceeds(cfg, unit, r, track, ids, false, None);
    var t := WithProcessed(track, ids, false, None);
    PersistAllowed(cfg, unit, r, Steps(r, done), input, trackId, track, t);
    PersistThenStatus(cfg, unit, r, done, PersistTrack(input, trackId, t), AgentReady);
    ConvergenceAllowed(cfg, unit, r, input, done + [PersistTrack(input, trackId, t)], PersistedId(input, trackId), t, items);
  }

  lemma CompletedAllowed(
    cfg: ReviewConfig, unit: WorkUnit, w: World, r: Record, input: RunInput, trackId: Option<int>, track: ReviewTrack)
    requires Starting(cfg, unit, r, input, trackId, track)
    ensures AllAllowed(cfg, unit, r, CompletedPlan(cfg, unit, w, input, trackId, track).effects)
  {
    hide EscalatePlan, ConvergencePlan, DecidedPlan, StatusEffects, SafeIdentity, Starting, PrefilterReason, ClassifyFrom,
         WithProcessed, PartitionItems, Batch;
    StatusAllowed(cfg, unit, r, AgentReview);
    var items := Collect(input.feedback, cfg.actor);
    var p := PartitionItems(cfg, input, track, items);
    CollectedIsSafe(cfg, unit, r, input, trackId, track);
    if p.forbidden != [] {
      SetAsideAllowed(cfg, unit, w, r, input, trackId, track, p.skipped + IdentitiesOf(p.forbidden),
        "review references a forbidden path");
    } else {
      var batch := Batch(cfg.maxCommentsPerRun, p.candidates);
      BatchIsPrefix(cfg.maxCommentsPerRun, p.candidates);
      ClassifiedBatch(cfg, input, [], batch);
      var classified := ClassifyFrom(cfg, input, [], batch);
      if batch == [] {
        SkippedAllowed(cfg, unit, r, input, trackId, track, p.skipped, items);
      } else if classified.FailClosed? {
        SetAsideAllowed(cfg, unit, w, r, input, trackId, track, p.skipped + [classified.item.identity], classified.message);
      } else if classified.AllDecided? {
        forall d | d in classified.decided ensures d.item in batch {
          var i :| 0 <= i < |classified.decided| && classified.decided[i] == d;
          assert classified.decided[0 + i].item == batch[i];
        }
        DecidedAllowed(cfg, unit, w, r, input, StatusEffects(AgentReview), trackId, track, items, p, batch, classified.decided);
      }
    }
  }

  /** What the filter sorts is safe to record, and its candidates are not processed yet. */
  lemma CollectedIsSafe(
    cfg: ReviewConfig, unit: WorkUnit, r: Record, input: RunInput, trackId: Option<int>, track: ReviewTrack)
    requires Starting(cfg, unit, r, input, trackId, track)
    ensures
      var p := PartitionItems(cfg, input, track, Collect(input.feedback, cfg.actor));
      && (forall x :: x in p.skipped ==> SafeIdentity(x))
      && (forall x :: x in IdentitiesOf(p.forbidden) ==> SafeIdentity(x))
      && forall x :: x in p.candidates ==> SafeIdentity(x.identity) && x.identity !in track.processed
  {
    hide SafeIdentity, PrefilterReason, RecordInv, Loaded, ValidUnit, SafeValue;
    var items := Collect(input.feedback, cfg.actor);
    var p := PartitionItems(cfg, input, track, items);
    PartitionIsExact(cfg, input, track, items);
    forall x | x in IdentitiesOf(p.forbidden) ensures SafeIdentity(x) {
      var i :| 0 <= i < |p.forbidden| && IdentitiesOf(p.forbidden)[i] == x;
      assert p.forbidden[i] in p.forbidden;
    }
    forall x | x in p.candidates ensures SafeIdentity(x.identity) && x.identity !in track.processed {
      PrefilterOrder(cfg, input, track, x);
    }
  }

  /** Every effect of a run's plan is allowed from the record that the pull request spells out. */
  lemma PlanAllowed(cfg: ReviewConfig, unit: WorkUnit, w: World, r: Record, input: RunInput)
    requires Represents(cfg, w, r) && RecordInv(cfg, unit, r) && ValidUnit(unit) && ValidInput(input, r.ids) && Quiet(input)
    ensures AllAllowed(cfg, unit, r, ReviewPlan(cfg, unit, w, input).effects)
  {
    hide EscalatePlan, CompletedPlan, StatusSteps, Represents, RecordInv, ValidUnit, ValidInput, SafeValue;
    LoadReadsRecord(cfg, unit, w, r);
    var (trackId, track) := Loaded(r, unit.identity);
    LoadedSucceeds(cfg, unit, r, input, trackId, track);
    StatusAllowed(cfg, unit, r, AgentReview);
    CompletedAllowed(cfg, unit, w, r, input, trackId, track);
    EscalateAllowed(cfg, unit, w, r, input, [], trackId, track, track,
      "CodeRabbit terminal is " + TerminalName(input.terminal));
  }

  // ---------- Histories of runs, crashes and exceptions ----------

  function IdsOf(w: World): set<int> {
    set i | 0 <= i < |w.own| :: w.own[i].id
  }

  /** The pull request after the effects of the plan that got through. */
  function AfterPlan(cfg: ReviewConfig, unit: WorkUnit, w: World, run: ReviewRun): World {
    ApplyEffects(cfg, w, Prefix(ReviewPlan(cfg, unit, w, run.input).effects, run.cut))
  }

  /** GitHub hands out fresh ids, and others stay themselves. */
  ghost predicate ValidRun(cfg: ReviewConfig, unit: WorkUnit, w: World, run: ReviewRun, foreign: seq<Comment>) {
    && ValidInput(run.input, IdsOf(w))
    && (run.controlPlane.Some? ==> run.controlPlane.value.noticeCommentId !in IdsOf(AfterPlan(cfg, unit, w, run)))
    && forall i :: 0 <= i < |foreign| ==> foreign[i].author != cfg.trackAuthor
  }

  ghost predicate QuietRun(run: ReviewRun) {
    && Quiet(run.input)
    && (run.controlPlane.Some? && run.controlPlane.value.notice.Some? ==> !HasMarker(run.controlPlane.value.notice.value))
  }

  /** `r` describes the pull request, and nothing else is known of its ids. */
  ghost predicate Describes(cfg: ReviewConfig, unit: WorkUnit, w: World, r: Record) {
    Represents(cfg, w, r) && RecordInv(cfg, unit, r) && r.ids == IdsOf(w)
  }

  ghost predicate Durable(cfg: ReviewConfig, unit: WorkUnit, w: World) {
    exists r :: Describes(cfg, unit, w, r)
  }

  lemma Redescribe(cfg: ReviewConfig, unit: WorkUnit, w: World, r: Record)
    requires Represents(cfg, w, r) && RecordInv(cfg, unit, r)
    ensures Describes(cfg, unit, w, r.(ids := IdsOf(w)))
  {
    hide HasMarker, WellFormedTrack;
  }

  /** The record after a run, cut anywhere, and its failure handling, cut anywhere. */
  function RecordAfter(cfg: ReviewConfig, unit: WorkUnit, w: World, r: Record, run: ReviewRun, foreign: seq<Comment>): Record {
    var effects := Prefix(ReviewPlan(cfg, unit, w, run.input).effects, run.cut);
    var planned := Steps(r, effects).(ids := IdsOf(AfterPlan(cfg, unit, w, run)));
    var handling := if run.controlPlane.Some? then ControlPlaneEffects(run.controlPlane.value) else [];
    Steps(planned, handling).(ids := IdsOf(AfterRun(cfg, unit, w, run, foreign)))
  }

  /** Without a quoted marker, a run cut anywhere and its failure handling cut anywhere keep the protocol's record. */
  lemma QuietRunKeeps(cfg: ReviewConfig, unit: WorkUnit, w: World, r: Record, run: ReviewRun, foreign: seq<Comment>)
    requires Describes(cfg, unit, w, r) && ValidUnit(unit) && ValidRun(cfg, unit, w, run, foreign) && QuietRun(run)
    ensures Describes(cfg, unit, AfterRun(cfg, unit, w, run, foreign), RecordAfter(cfg, unit, w, r, run, foreign))
    ensures HasStatus(w.labels) ==> HasStatus(AfterRun(cfg, unit, w, run, foreign).labels)
  {
    hide Represents, RecordInv, ReviewPlan, ValidInput, HasStatus, HasMarker, RecordAfter, AfterRun, AfterPlan;
    PlanAllowed(cfg, unit, w, r, run.input);
    AllowedRunKeeps(cfg, unit, w, r, run, foreign);
  }

  /** The same for any run whose plan is allowed and whose failure handling quotes no marker. */
  lemma AllowedRunKeeps(cfg: ReviewConfig, unit: WorkUnit, w: World, r: Record, run: ReviewRun, foreign: seq<Comment>)
    requires Describes(cfg, unit, w, r) && ValidRun(cfg, unit, w, run, foreign)
    requires AllAllowed(cfg, unit, r, ReviewPlan(cfg, unit, w, run.input).effects)
    requires run.controlPlane.Some? && run.controlPlane.value.notice.Some? ==> !HasMarker(run.controlPlane.value.notice.value)
    ensures Describes(cfg, unit, AfterRun(cfg, unit, w, run, foreign), RecordAfter(cfg, unit, w, r, run, foreign))
    ensures HasStatus(w.labels) ==> HasStatus(AfterRun(cfg, unit, w, run, foreign).labels)
  {
    hide Represents, RecordInv, ReviewPlan, ValidInput, HasStatus, HasMarker, StatusSteps;
    var effects := Prefix(ReviewPlan(cfg, unit, w, run.input).effects, run.cut);
    AllowedPrefix(cfg, unit, r, ReviewPlan(cfg, unit, w, run.input).effects, run.cut);
    EffectsKeep(cfg, unit, w, r, effects);
    var mid := ApplyEffects(cfg, w, effects);
    Redescribe(cfg, unit, mid, Steps(r, effects));
    var r1 := Steps(r, effects).(ids := IdsOf(mid));
    var after := if run.controlPlane.Some? then ControlPlaneEffects(run.controlPlane.value) else [];
    if run.controlPlane.Some? {
      ControlPlaneAllowed(cfg, unit, r1, run.controlPlane.value);
    }
    EffectsKeep(cfg, unit, mid, r1, after);
    ApplyAppend(cfg, w, effects, after);
    var end := ApplyEffects(cfg, mid, after);
    NewForeign(cfg, end, Steps(r1, after), foreign);
    Redescribe(cfg, unit, end.(foreign := foreign), Steps(r1, after));
  }

  lemma {:induction false} ApplyAppend(cfg: ReviewConfig, w: World, a: seq<Effect>, b: seq<Effect>)
    ensures ApplyEffects(cfg, w, a + b) == ApplyEffects(cfg, ApplyEffects(cfg, w, a), b)
    decreases |a|
  {
    if a == [] {
      assert a + b == b;
    } else {
      assert (a + b)[1..] == a[1..] + b;
      ApplyAppend(cfg, ApplyEffect(cfg, w, a[0]), a[1..], b);
    }
  }

  lemma NewForeign(cfg: ReviewConfig, w: World, r: Record, foreign: seq<Comment>)
    requires Represents(cfg, w, r) && forall i :: 0 <= i < |foreign| ==> foreign[i].author != cfg.trackAuthor
    ensures Represents(cfg, w.(foreign := foreign), r)
  {
    hide HasMarker;
  }

  lemma ControlPlaneAllowed(cfg: ReviewConfig, unit: WorkUnit, r: Record, c: ControlPlane)
    requires c.notice.Some? ==> !HasMarker(c.notice.value)
    requires c.noticeCommentId !in r.ids
    ensures AllAllowed(cfg, unit, r, ControlPlaneEffects(c))
  {
    hide StatusSteps, HasMarker;
    var target := if c.failed then AgentFailed else AgentEscalated;
    var calls := Prefix(StatusEffects(target), c.labelCalls);
    StatusAllowed(cfg, unit, r, target);
    AllowedPrefix(cfg, unit, r, StatusEffects(target), c.labelCalls);
    LabelCallsKeepIds(r, calls);
    if c.notice.Some? {
      var notice := PostNotice(c.noticeCommentId, c.notice.value);
      assert [notice][1..] == [];
      assert AllAllowed(cfg, unit, Steps(r, calls), [notice]);
      AllowedAppend(cfg, unit, r, calls, [notice]);
    } else {
      assert calls + [] == calls;
    }
  }

  lemma {:induction false} LabelCallsKeepIds(r: Record, effects: seq<Effect>)
    requires forall i :: 0 <= i < |effects| ==> effects[i].LabelCall?
    ensures Steps(r, effects).ids == r.ids
    decreases |effects|
  {
    if effects != [] { LabelCallsKeepIds(Step(r, effects[0]), effects[1..]); }
  }

  ghost predicate ValidRuns(cfg: ReviewConfig, unit: WorkUnit, w: World, runs: seq<(ReviewRun, seq<Comment>)>)
    decreases |runs|
  {
    runs == []
    || (ValidRun(cfg, unit, w, runs[0].0, runs[0].1)
        && ValidRuns(cfg, unit, AfterRun(cfg, unit, w, runs[0].0, runs[0].1), runs[1..]))
  }

  lemma {:induction false} QuietRunsKeep(cfg: ReviewConfig, unit: WorkUnit, w: World, runs: seq<(ReviewRun, seq<Comment>)>)
    requires Durable(cfg, unit, w) && ValidUnit(unit) && ValidRuns(cfg, unit, w, runs)
    requires forall i :: 0 <= i < |runs| ==> QuietRun(runs[i].0)
    ensures Durable(cfg, unit, AfterRuns(cfg, unit, w, runs))
    decreases |runs|
  {
    hide Describes, ValidRun, ValidUnit, AfterRun, RecordAfter, HasStatus, QuietRun;
    if runs != [] {
      var r :| Describes(cfg, unit, w, r);
      QuietRunKeeps(cfg, unit, w, r, runs[0].0, runs[0].1);
      QuietRunsKeep(cfg, unit, AfterRun(cfg, unit, w, runs[0].0, runs[0].1), runs[1..]);
    }
  }

  /** A pull request before its first review run: no tracking comment, no fix. */
  ghost predicate Unreviewed(cfg: ReviewConfig, w: World) {
    && (forall i :: 0 <= i < |w.own| ==> w.own[i].author == cfg.trackAuthor && !HasMarker(w.own[i].body))
    && (forall i :: 0 <= i < |w.foreign| ==> w.foreign[i].author != cfg.trackAuthor)
    && w.fixes == [] && w.pushed == []
  }
}
