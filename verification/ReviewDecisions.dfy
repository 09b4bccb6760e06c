/**
 * What a review run decides, over the feedback's own fields, the classifier's answers and the
 * configuration: what it looks at, when it must escalate and for which reason, when it fixes.
 */
module ReviewDecisions {
  import opened Wrappers
  import opened PyText
  import opened ReviewTracking
  import opened Labels
  import opened ReviewLoop
  import opened ReviewRecord
  import opened ReviewNotices
  import opened ReviewProgress

  // ---------- What a run looks at ----------

  /** Its commit is the head, or it names none and the track is bound to no other head. */
  predicate IsAbout(head: string, track: ReviewTrack, item: Feedback) {
    if item.commitSha in {None, Some("")} then track.headSha in {"", head} else item.commitSha == Some(head)
  }

  /** By the configured actor, not processed, and about this head. */
  predicate IsNew(cfg: ReviewConfig, head: string, track: ReviewTrack, item: Feedback) {
    && Strip(cfg.actor) != "" && item.author == cfg.actor
    && item.identity !in track.processed
    && IsAbout(head, track, item)
  }

  predicate HasPath(item: Feedback) {
    item.path.Some? && item.path.value != ""
  }

  predicate PathIsMissing(input: RunInput, item: Feedback) {
    HasPath(item) && item.path.value in input.missingPaths
  }

  predicate PathIsForbidden(cfg: ReviewConfig, item: Feedback) {
    HasPath(item) && !cfg.inScope(item.path.value)
  }

  predicate IsForbidden(cfg: ReviewConfig, input: RunInput, track: ReviewTrack, item: Feedback) {
    IsNew(cfg, input.head, track, item) && !PathIsMissing(input, item) && PathIsForbidden(cfg, item)
  }

  predicate IsCandidate(cfg: ReviewConfig, input: RunInput, track: ReviewTrack, item: Feedback) {
    IsNew(cfg, input.head, track, item) && !PathIsMissing(input, item) && !PathIsForbidden(cfg, item)
  }

  /** Set aside: unprocessed feedback of the actor that is about another head or a missing path. */
  predicate IsSetAside(cfg: ReviewConfig, input: RunInput, track: ReviewTrack, item: Feedback) {
    && Strip(cfg.actor) != "" && item.author == cfg.actor && item.identity !in track.processed
    && (IsNew(cfg, input.head, track, item) ==> PathIsMissing(input, item))
  }

  /** The items a predicate holds of, in order. */
  function Those(items: seq<Feedback>, p: Feedback -> bool): seq<Feedback> {
    if items == [] then []
    else
      var front, last := Those(items[..|items| - 1], p), items[|items| - 1];
      if p(last) then front + [last] else front
  }

  function By(actor: string): Feedback -> bool {
    (x: Feedback) => x.author == actor
  }

  lemma PrefilterIff(cfg: ReviewConfig, input: RunInput, track: ReviewTrack, item: Feedback)
    ensures
      var reason := PrefilterReason(cfg, input, track, item);
      && (reason.None? <==> IsCandidate(cfg, input, track, item))
      && (reason == Some(ForbiddenPath) <==> IsForbidden(cfg, input, track, item))
      && (reason in {Some(OutdatedHead), Some(MissingPath)} <==> IsSetAside(cfg, input, track, item))
  {
  }

  /** The three parts of the feedback, each in order. */
  lemma {:induction false} PartsAre(cfg: ReviewConfig, input: RunInput, track: ReviewTrack, items: seq<Feedback>)
    ensures
      var p := PartitionItems(cfg, input, track, items);
      && p.candidates == Those(items, x => IsCandidate(cfg, input, track, x))
      && p.forbidden == Those(items, x => IsForbidden(cfg, input, track, x))
      && p.skipped == IdentitiesOf(Those(items, x => IsSetAside(cfg, input, track, x)))
  {
    hide PrefilterReason, IsCandidate, IsForbidden, IsSetAside;
    if items != [] {
      var n := |items| - 1;
      PartsAre(cfg, input, track, items[..n]);
      PrefilterIff(cfg, input, track, items[n]);
    }
  }

  /** Collecting keeps the actor's items, in order. */
  lemma {:induction false} CollectedAre(feedback: seq<Feedback>, actor: string)
    ensures Collect(feedback, actor) == Those(feedback, By(actor))
  {
    if feedback != [] {
      CollectedAre(feedback[1..], actor);
      ThoseAppend([feedback[0]], feedback[1..], By(actor));
      assert [feedback[0]] + feedback[1..] == feedback;
      assert [feedback[0]][..0] == [];
    }
  }

  lemma {:induction false} ThoseAppend(a: seq<Feedback>, b: seq<Feedback>, p: Feedback -> bool)
    ensures Those(a + b, p) == Those(a, p) + Those(b, p)
  {
    if b == [] {
      assert a + b == a;
    } else {
      assert (a + b)[..|a + b| - 1] == a + b[..|b| - 1];
      ThoseAppend(a, b[..|b| - 1], p);
    }
  }

  // ---------- What the classifier's answers ask for ----------

  predicate Answered(input: RunInput, item: Feedback) {
    input.classifier(item).Classified?
  }

  /** Repair is on, the classifier is confident, and every path it names, at least one, is in scope. */
  predicate MayBeFixed(cfg: ReviewConfig, r: ClassificationResult) {
    && cfg.autoRepairEnabled && r.confidence >= cfg.confidenceThreshold
    && |r.referencedPaths| > 0 && forall p :: p in r.referencedPaths ==> cfg.inScope(p)
  }

  /** Classified as something only people can decide, or actionable and not to be fixed. */
  predicate NeedsPeople(cfg: ReviewConfig, input: RunInput, item: Feedback) {
    Answered(input, item)
    && var r := input.classifier(item).result;
       r.classification in {OutOfScope, ConflictsWithSpec, Uncertain} || (r.classification == Actionable && !MayBeFixed(cfg, r))
  }

  predicate ToBeFixed(cfg: ReviewConfig, input: RunInput, item: Feedback) {
    Answered(input, item)
    && var r := input.classifier(item).result;
       r.classification == Actionable && MayBeFixed(cfg, r)
  }

  /** The reason given for an item that needs people. */
  function Why(cfg: ReviewConfig, r: ClassificationResult): string {
    match r.classification
    case OutOfScope => "review is out of scope"
    case ConflictsWithSpec => "review conflicts with the Task Spec"
    case Uncertain => "review classification is uncertain"
    case _ =>
      if !cfg.autoRepairEnabled then "automatic review repair is deferred"
      else if r.confidence < cfg.confidenceThreshold then "actionable review is below confidence threshold"
      else if |r.referencedPaths| == 0 then "actionable review has no referenced paths"
      else "actionable referenced paths are not a subset of allowed_paths"
  }

  lemma PolicyIff(cfg: ReviewConfig, input: RunInput, item: Feedback)
    requires Answered(input, item)
    ensures
      var r := input.classifier(item).result;
      var d := DecideReviewPolicy(cfg, r);
      && (d.action == Escalate <==> NeedsPeople(cfg, input, item))
      && (d.action == Fix <==> ToBeFixed(cfg, input, item))
      && (d.action == Escalate ==> d.reason == Why(cfg, r))
  {
  }

  /** `item` is the first of the batch that the classifier has no answer for. */
  predicate FirstUnanswered(input: RunInput, batch: seq<Feedback>, k: nat) {
    k < |batch| && !Answered(input, batch[k]) && forall i :: 0 <= i < k ==> Answered(input, batch[i])
  }

  predicate FirstForPeople(cfg: ReviewConfig, input: RunInput, batch: seq<Feedback>, k: nat) {
    k < |batch| && NeedsPeople(cfg, input, batch[k]) && forall i :: 0 <= i < k ==> !NeedsPeople(cfg, input, batch[i])
  }

  /** A missing answer with one of these codes escalates; any other raises. */
  predicate FailsClosed(code: string) {
    code in {"INVALID_CLASSIFIER_JSON", "CLASSIFIER_REFUSAL", "CLASSIFIER_INCOMPLETE"}
  }

  /** Classification stops at the first missing answer, or decides every item by its own answer. */
  lemma {:induction false} ClassifiedIs(cfg: ReviewConfig, input: RunInput, decided: seq<Decided>, batch: seq<Feedback>)
    ensures
      var r := ClassifyFrom(cfg, input, decided, batch);
      && (forall k: nat :: FirstUnanswered(input, batch, k) ==>
            var e := input.classifier(batch[k]);
            r == if FailsClosed(e.code) then FailClosed(batch[k], e.message) else ClassifierRaised(e.code))
      && ((forall x :: x in batch ==> Answered(input, x)) ==> r.AllDecided? && r.decided == decided + Decisions(cfg, input, batch))
    decreases |batch|
  {
    hide DecideReviewPolicy;
    if batch == [] {
      assert decided + [] == decided;
    } else {
      var x, rest := batch[0], batch[1..];
      assert x in batch;
      if Answered(input, x) {
        var d := Decided(x, DecideReviewPolicy(cfg, input.classifier(x).result));
        ClassifiedIs(cfg, input, decided + [d], rest);
        forall k: nat | FirstUnanswered(input, batch, k) ensures k > 0 && FirstUnanswered(input, rest, k - 1) {
        }
        if forall y :: y in batch ==> Answered(input, y) {
          assert Decisions(cfg, input, batch) == [d] + Decisions(cfg, input, rest);
          assert (decided + [d]) + Decisions(cfg, input, rest) == decided + ([d] + Decisions(cfg, input, rest));
        }
      } else {
        assert forall k: nat :: FirstUnanswered(input, batch, k) && k > 0 ==> Answered(input, batch[0]);
      }
    }
  }

  function Decisions(cfg: ReviewConfig, input: RunInput, batch: seq<Feedback>): seq<Decided>
    requires forall x :: x in batch ==> Answered(input, x)
  {
    if batch == [] then []
    else
      assert batch[0] in batch && Answered(input, batch[0]);
      [Decided(batch[0], DecideReviewPolicy(cfg, input.classifier(batch[0]).result))] + Decisions(cfg, input, batch[1..])
  }

  /** The reason reported is that of the first item that needs people. */
  lemma {:induction false} EscalationIs(cfg: ReviewConfig, input: RunInput, batch: seq<Feedback>)
    requires forall x :: x in batch ==> Answered(input, x)
    ensures
      var e := FirstEscalation(Decisions(cfg, input, batch));
      && (e.Some? <==> exists x :: x in batch && NeedsPeople(cfg, input, x))
      && (forall k: nat :: FirstForPeople(cfg, input, batch, k) ==> e == Some(Why(cfg, input.classifier(batch[k]).result)))
  {
    hide DecideReviewPolicy, NeedsPeople, ToBeFixed, Why;
    if batch != [] {
      var rest := batch[1..];
      var decisions := Decisions(cfg, input, batch);
      assert batch[0] in batch;
      PolicyIff(cfg, input, batch[0]);
      EscalationIs(cfg, input, rest);
      assert decisions[1..] == Decisions(cfg, input, rest);
      assert forall x :: x in batch <==> x == batch[0] || x in rest;
      forall k: nat | FirstForPeople(cfg, input, batch, k)
        ensures if k == 0 then NeedsPeople(cfg, input, batch[0]) else !NeedsPeople(cfg, input, batch[0]) && FirstForPeople(cfg, input, rest, k - 1)
      {
        if k > 0 {
          assert rest[k - 1] == batch[k];
          assert forall i :: 0 <= i < k - 1 ==> rest[i] == batch[i + 1];
        }
      }
    }
  }

  /** What is accepted are the items to be fixed, in order. */
  lemma {:induction false} AcceptedAre(cfg: ReviewConfig, input: RunInput, batch: seq<Feedback>)
    requires forall x :: x in batch ==> Answered(input, x)
    ensures AcceptedItems(Decisions(cfg, input, batch)) == Those(batch, x => ToBeFixed(cfg, input, x))
  {
    hide DecideReviewPolicy, ToBeFixed, NeedsPeople, Why;
    if batch != [] {
      var rest := batch[1..];
      var decisions := Decisions(cfg, input, batch);
      assert batch[0] in batch;
      PolicyIff(cfg, input, batch[0]);
      AcceptedAre(cfg, input, rest);
      assert decisions[1..] == Decisions(cfg, input, rest);
      var p := x => ToBeFixed(cfg, input, x);
      ThoseAppend([batch[0]], rest, p);
      assert [batch[0]] + rest == batch && [batch[0]][..0] == [];
    }
  }

  // ---------- The run ----------

  /** The run gets to the feedback: set up, with a track, on a completed review that no sticky label settles. */
  predicate LooksAtFeedback(
    cfg: ReviewConfig, unit: WorkUnit, w: World, input: RunInput, trackId: Option<int>, track: ReviewTrack)
  {
    && input.setupError.None? && input.terminal == CompletedTerminal
    && LoadReviewTrack(w.own + w.foreign, cfg.trackAuthor, unit.identity) == Ok((trackId, track))
    && !(track.headSha == input.head && (AgentFailed in w.labels || AgentEscalated in w.labels || AgentReady in w.labels))
  }

  function ForbiddenItems(cfg: ReviewConfig, input: RunInput, track: ReviewTrack): seq<Feedback> {
    Those(input.feedback, x => IsForbidden(cfg, input, track, x))
  }

  function CandidateItems(cfg: ReviewConfig, input: RunInput, track: ReviewTrack): seq<Feedback> {
    Those(input.feedback, x => IsCandidate(cfg, input, track, x))
  }

  function SetAsideItems(cfg: ReviewConfig, input: RunInput, track: ReviewTrack): seq<Feedback> {
    Those(input.feedback, x => IsSetAside(cfg, input, track, x))
  }

  /** The candidates of one run: the first so many, if a cap of at least zero is set. */
  function BatchItems(cfg: ReviewConfig, input: RunInput, track: ReviewTrack): seq<Feedback> {
    var candidates := CandidateItems(cfg, input, track);
    match cfg.maxCommentsPerRun
    case None => candidates
    case Some(cap) => if cap < 0 || cap > |candidates| then candidates else candidates[..cap]
  }

  lemma {:induction false} ThoseWithin(items: seq<Feedback>, outer: Feedback -> bool, p: Feedback -> bool)
    requires forall x :: p(x) ==> outer(x)
    ensures Those(Those(items, outer), p) == Those(items, p)
  {
    if items != [] {
      var n := |items| - 1;
      ThoseWithin(items[..n], outer, p);
      var kept := Those(items[..n], outer);
      if outer(items[n]) { assert (kept + [items[n]])[..|kept|] == kept; }
    }
  }

  /** The parts of what a run collects are those of the whole feedback. */
  lemma LookedAt(cfg: ReviewConfig, input: RunInput, track: ReviewTrack)
    ensures
      var p := PartitionItems(cfg, input, track, Collect(input.feedback, cfg.actor));
      && p.candidates == CandidateItems(cfg, input, track)
      && p.forbidden == ForbiddenItems(cfg, input, track)
      && p.skipped == IdentitiesOf(SetAsideItems(cfg, input, track))
      && Batch(cfg.maxCommentsPerRun, p.candidates) == BatchItems(cfg, input, track)
  {
    PartsAre(cfg, input, track, Collect(input.feedback, cfg.actor));
    CollectedAre(input.feedback, cfg.actor);
    ThoseWithin(input.feedback, By(cfg.actor), x => IsCandidate(cfg, input, track, x));
    ThoseWithin(input.feedback, By(cfg.actor), x => IsForbidden(cfg, input, track, x));
    ThoseWithin(input.feedback, By(cfg.actor), x => IsSetAside(cfg, input, track, x));
  }

  predicate FixesNothing(plan: Plan) {
    forall i :: 0 <= i < |plan.effects| ==> !plan.effects[i].StartFix? && !plan.effects[i].PushFix?
  }

  /** The run ends ESCALATED without a fix, and posts this reason unless a comment already gives it. */
  ghost predicate EscalatesFor(cfg: ReviewConfig, w: World, input: RunInput, plan: Plan, reason: string) {
    && plan.exit.Returned? && plan.exit.outcome == ReviewEscalated && !plan.exit.sticky && FixesNothing(plan)
    && var front := BeforeNotice(plan.effects);
       var now := ApplyEffects(cfg, w, front);
       var given := exists c :: c in now.own + now.foreign && Contains(c.body, "- Reason: " + reason);
       plan.effects == if given then front else front + [PostNotice(input.noticeCommentId, input.notice(reason))]
  }

  lemma EscalatedFor(
    cfg: ReviewConfig, w: World, input: RunInput, trackId: Option<int>, t: ReviewTrack, reason: string)
    ensures EscalatesFor(cfg, w, input, EscalatePlan(cfg, w, input, StatusEffects(AgentReview), trackId, t, reason), reason)
  {
    hide StatusEffects, ApplyEffects, Merge, HasEscalationComment;
    var done := StatusEffects(AgentReview);
    StatusIsCalls(AgentReview);
    StatusIsCalls(AgentEscalated);
    var plan := EscalatePlan(cfg, w, input, done, trackId, t, reason);
    var bound := WithProcessed(t, [], false, Some(input.head));
    var effects := done + [PersistTrack(input, trackId, bound)] + StatusEffects(AgentEscalated);
    var now := ApplyEffects(cfg, w, effects);
    GivenIff(now.own + now.foreign, reason);
    assert effects[|effects| - 1].LabelCall?;
    assert (effects + [PostNotice(input.noticeCommentId, input.notice(reason))])[..|effects|] == effects;
    assert BeforeNotice(plan.effects) == effects;
  }

  lemma FoundIff(s: string, needle: string)
    ensures Find(s, needle, 0).Some? <==> Contains(s, needle)
  {
    if Contains(s, needle) {
      var k :| OccursAt(s, needle, k);
      assert 0 <= k;
    }
  }

  lemma GivenIff(comments: seq<Comment>, reason: string)
    ensures HasEscalationComment(comments, reason) <==> exists c :: c in comments && Contains(c.body, "- Reason: " + reason)
  {
    var needle := "- Reason: " + reason;
    forall i | 0 <= i < |comments| ensures Find(comments[i].body, needle, 0).Some? <==> Contains(comments[i].body, needle) {
      FoundIff(comments[i].body, needle);
    }
    if HasEscalationComment(comments, reason) {
      var i :| 0 <= i < |comments| && Find(comments[i].body, "- Reason: " + reason, 0).Some?;
      assert comments[i] in comments;
    }
  }

  /** A fix of exactly these identities, started once. */
  predicate FixesExactly(plan: Plan, input: RunInput, accepted: seq<string>) {
    && (exists k :: 0 <= k < |plan.effects| && plan.effects[k] == StartFix(accepted))
    && (forall i :: 0 <= i < |plan.effects| && plan.effects[i].StartFix? ==> plan.effects[i] == StartFix(accepted))
    && match input.fix
       case FixPushed => plan.exit.Returned? && plan.exit.outcome == ReviewFixPushed
       case FixRaised(code) => plan.exit == Raised(code)
       case FixPushRaised(code) => plan.exit == Raised(code)
  }

  /** What the answers to a batch decide. */
  ghost predicate DecidesBatch(
    cfg: ReviewConfig, unit: WorkUnit, w: World, input: RunInput, track: ReviewTrack, batch: seq<Feedback>, plan: Plan)
    requires forall x :: x in batch ==> Answered(input, x)
  {
    var fixes := Those(batch, x => ToBeFixed(cfg, input, x));
    var usedUp := track.reviewAttempts >= unit.reviewAttemptLimit || track.reviewAttempts >= cfg.reviewAttemptLimit;
    && (forall k: nat :: FirstForPeople(cfg, input, batch, k) ==>
          EscalatesFor(cfg, w, input, plan, Why(cfg, input.classifier(batch[k]).result)))
    && ((forall x :: x in batch ==> !NeedsPeople(cfg, input, x)) ==>
          && (fixes != [] && usedUp ==> EscalatesFor(cfg, w, input, plan, "review_attempt_limit reached"))
          && (fixes != [] && !usedUp ==> FixesExactly(plan, input, IdentitiesOf(fixes)))
          && (fixes == [] ==>
                plan.exit.Returned? && plan.exit.outcome in {ReadyForHuman, InReviewOutcome} && !plan.exit.sticky && FixesNothing(plan)))
  }

  lemma BatchDecides(
    cfg: ReviewConfig, unit: WorkUnit, w: World, input: RunInput, trackId: Option<int>, track: ReviewTrack,
    items: seq<Feedback>, p: Partition, batch: seq<Feedback>)
    requires forall x :: x in batch ==> Answered(input, x)
    ensures
      DecidesBatch(cfg, unit, w, input, track, batch,
        DecidedPlan(cfg, unit, w, input, StatusEffects(AgentReview), trackId, track, items, p, batch, Decisions(cfg, input, batch)))
  {
    hide StatusEffects, EscalatePlan, ConvergencePlan, FirstEscalation, AcceptedItems, Merge, EscalatesFor, NeedsPeople, ToBeFixed, Why,
         FixesExactly, FixesNothing, FirstForPeople;
    var done := StatusEffects(AgentReview);
    var ids := p.skipped + IdentitiesOf(batch);
    var updated := WithProcessed(track, ids, false, None);
    EscalationIs(cfg, input, batch);
    AcceptedAre(cfg, input, batch);
    var e := FirstEscalation(Decisions(cfg, input, batch));
    FirstIsSome(cfg, input, batch);
    if e.Some? {
      EscalatedFor(cfg, w, input, trackId, updated, e.value);
    } else {
      var fixes := Those(batch, x => ToBeFixed(cfg, input, x));
      EscalatedFor(cfg, w, input, trackId, updated, "review_attempt_limit reached");
      QuietlyEnds(input, trackId, updated, items);
      FixPlanIs(input, PersistTrack(input, trackId, WithProcessed(track, ids, true, Some(input.head))), IdentitiesOf(fixes),
        WithProcessed(track, ids, true, Some(input.head)));
    }
  }

  lemma FirstIsSome(cfg: ReviewConfig, input: RunInput, batch: seq<Feedback>)
    ensures forall k: nat :: FirstForPeople(cfg, input, batch, k) ==> exists x :: x in batch && NeedsPeople(cfg, input, x)
  {
  }

  /** Converging, or leaving the rest for later. */
  lemma QuietlyEnds(input: RunInput, trackId: Option<int>, t: ReviewTrack, items: seq<Feedback>)
    ensures
      var persisted := StatusEffects(AgentReview) + [PersistTrack(input, trackId, t)];
      var plan := ConvergencePlan(input, persisted, PersistedId(input, trackId), t, items);
      && plan.exit.Returned? && plan.exit.outcome in {ReadyForHuman, InReviewOutcome} && !plan.exit.sticky && FixesNothing(plan)
      && FixesNothing(Plan(persisted, Ends(InReviewOutcome, t)))
  {
    hide StatusEffects, Merge, AppliesToCurrentHead;
    StatusIsCalls(AgentReview);
    StatusIsCalls(AgentReady);
  }

  lemma FixPlanIs(input: RunInput, persist: Effect, accepted: seq<string>, started: ReviewTrack)
    requires !persist.StartFix?
    ensures
      var effects := StatusEffects(AgentReview) + [persist, StartFix(accepted)];
      var plan :=
        match input.fix
        case FixRaised(code) => Plan(effects, Raised(code))
        case FixPushRaised(code) => Plan(effects + [PushFix(accepted)], Raised(code))
        case FixPushed => Plan(effects + [PushFix(accepted)] + StatusEffects(AgentReview), Ends(ReviewFixPushed, started));
      FixesExactly(plan, input, accepted)
  {
    hide StatusEffects;
    StatusIsCalls(AgentReview);
    var done := StatusEffects(AgentReview);
    var effects := done + [persist, StartFix(accepted)];
    assert effects[|done| + 1] == StartFix(accepted);
    assert (effects + [PushFix(accepted)])[|done| + 1] == StartFix(accepted);
    assert (effects + [PushFix(accepted)] + done)[|done| + 1] == StartFix(accepted);
  }

  /**
   * Main theorem: what a run on completed feedback does. Forbidden paths escalate first; then the
   * first item of the batch that the classifier has no answer for escalates or raises; then the
   * first item that needs people escalates for its own reason; then the items to be fixed are
   * fixed, or escalate when the attempts are used up; otherwise nothing is fixed and nobody asked.
   */
  lemma ReviewDecides(
    cfg: ReviewConfig, unit: WorkUnit, w: World, input: RunInput, trackId: Option<int>, track: ReviewTrack)
    requires LooksAtFeedback(cfg, unit, w, input, trackId, track)
    ensures
      var plan := ReviewPlan(cfg, unit, w, input);
      var batch := BatchItems(cfg, input, track);
      && (ForbiddenItems(cfg, input, track) != [] ==> EscalatesFor(cfg, w, input, plan, "review references a forbidden path"))
      && (ForbiddenItems(cfg, input, track) == [] ==>
            && (forall k: nat :: FirstUnanswered(input, batch, k) ==>
                  var e := input.classifier(batch[k]);
                  if FailsClosed(e.code) then EscalatesFor(cfg, w, input, plan, e.message)
                  else plan == Plan(StatusEffects(AgentReview), Raised(e.code)))
            && ((forall x :: x in batch ==> Answered(input, x)) ==> DecidesBatch(cfg, unit, w, input, track, batch, plan)))
  {
    hide StatusEffects, PartitionItems, PrefilterReason, EscalatePlan, ConvergencePlan, DecidedPlan, ClassifyFrom, Merge, EscalatesFor,
         DecidesBatch, LoadReviewTrack, ForbiddenItems, CandidateItems, SetAsideItems, BatchItems, Batch, Answered, FirstUnanswered;
    assert ReviewPlan(cfg, unit, w, input) == CompletedPlan(cfg, unit, w, input, trackId, track);
    var items := Collect(input.feedback, cfg.actor);
    var p := PartitionItems(cfg, input, track, items);
    var batch := BatchItems(cfg, input, track);
    LookedAt(cfg, input, track);
    if p.forbidden != [] {
      EscalatedFor(cfg, w, input, trackId, WithProcessed(track, p.skipped + IdentitiesOf(p.forbidden), false, None),
        "review references a forbidden path");
    } else if batch == [] {
      var updated := WithProcessed(track, p.skipped, false, None);
      QuietlyEnds(input, trackId, updated, items);
      EmptyDecides(cfg, unit, w, input, track, ReviewPlan(cfg, unit, w, input));
    } else {
      ClassifiedIs(cfg, input, [], batch);
      if forall x :: x in batch ==> Answered(input, x) {
        assert [] + Decisions(cfg, input, batch) == Decisions(cfg, input, batch);
        BatchDecides(cfg, unit, w, input, trackId, track, items, p, batch);
        NoneUnanswered(input, batch);
      } else {
        var k := FindUnanswered(input, batch);
        forall j: nat | FirstUnanswered(input, batch, j) ensures j == k { SameFirst(input, batch, j, k); }
        var e := input.classifier(batch[k]);
        UnansweredIs(input, batch, k);
        if FailsClosed(e.code) {
          EscalatedFor(cfg, w, input, trackId, WithProcessed(track, p.skipped + [batch[k].identity], false, None), e.message);
        }
      }
    }
  }

  lemma EmptyDecides(cfg: ReviewConfig, unit: WorkUnit, w: World, input: RunInput, track: ReviewTrack, plan: Plan)
    requires plan.exit.Returned? && plan.exit.outcome in {ReadyForHuman, InReviewOutcome} && !plan.exit.sticky && FixesNothing(plan)
    ensures DecidesBatch(cfg, unit, w, input, track, [], plan) && forall k: nat :: !FirstUnanswered(input, [], k)
  {
  }

  lemma NoneUnanswered(input: RunInput, batch: seq<Feedback>)
    requires forall x :: x in batch ==> Answered(input, x)
    ensures forall k: nat :: !FirstUnanswered(input, batch, k)
  {
  }

  lemma {:induction false} FindUnanswered(input: RunInput, batch: seq<Feedback>) returns (k: nat)
    requires exists x :: x in batch && !Answered(input, x)
    ensures FirstUnanswered(input, batch, k)
  {
    if !Answered(input, batch[0]) {
      k := 0;
    } else {
      var x :| x in batch && !Answered(input, x);
      assert x in batch[1..];
      var j := FindUnanswered(input, batch[1..]);
      k := j + 1;
    }
  }

  lemma SameFirst(input: RunInput, batch: seq<Feedback>, j: nat, k: nat)
    requires FirstUnanswered(input, batch, j) && FirstUnanswered(input, batch, k)
    ensures j == k
  {
  }

  lemma UnansweredIs(input: RunInput, batch: seq<Feedback>, k: nat)
    requires FirstUnanswered(input, batch, k)
    ensures k < |batch| && input.classifier(batch[k]).ClassifierError?
  {
  }

  /** Over a batch without forbidden items that is answered in full: when the run ends ESCALATED. */
  lemma EscalatesIff(cfg: ReviewConfig, unit: WorkUnit, w: World, input: RunInput, trackId: Option<int>, track: ReviewTrack)
    requires LooksAtFeedback(cfg, unit, w, input, trackId, track) && ForbiddenItems(cfg, input, track) == []
    requires forall x :: x in BatchItems(cfg, input, track) ==> Answered(input, x)
    ensures
      var plan := ReviewPlan(cfg, unit, w, input);
      var batch := BatchItems(cfg, input, track);
      plan.exit.Returned? && plan.exit.outcome == ReviewEscalated <==>
        || (exists x :: x in batch && NeedsPeople(cfg, input, x))
        || ((exists x :: x in batch && ToBeFixed(cfg, input, x))
            && (track.reviewAttempts >= unit.reviewAttemptLimit || track.reviewAttempts >= cfg.reviewAttemptLimit))
  {
    hide ReviewPlan, BatchItems, ForbiddenItems, NeedsPeople, ToBeFixed, LooksAtFeedback, Why;
    ReviewDecides(cfg, unit, w, input, trackId, track);
    var batch := BatchItems(cfg, input, track);
    ThoseMembers(batch, x => ToBeFixed(cfg, input, x));
    if exists x :: x in batch && NeedsPeople(cfg, input, x) {
      var k := FindForPeople(cfg, input, batch);
    }
  }

  /**
   * When such a run asks nobody and fixes nothing: it is READY if and only if it left no candidate for
   * a later batch, and everything of the actor about this head is processed by now.
   */
  lemma ReadyIff(cfg: ReviewConfig, unit: WorkUnit, w: World, input: RunInput, trackId: Option<int>, track: ReviewTrack)
    requires LooksAtFeedback(cfg, unit, w, input, trackId, track) && ForbiddenItems(cfg, input, track) == []
    requires forall x :: x in BatchItems(cfg, input, track) ==>
               Answered(input, x) && !NeedsPeople(cfg, input, x) && !ToBeFixed(cfg, input, x)
    ensures
      var plan := ReviewPlan(cfg, unit, w, input);
      var batch := BatchItems(cfg, input, track);
      var now := track.processed + IdentitiesOf(SetAsideItems(cfg, input, track)) + IdentitiesOf(batch);
      plan.exit.Returned? &&
      (plan.exit.outcome == ReadyForHuman <==>
        && (batch == [] || |batch| == |CandidateItems(cfg, input, track)|)
        && forall x :: x in input.feedback && x.author == cfg.actor && IsAbout(input.head, track, x) ==> x.identity in now)
  {
    hide StatusEffects, PartitionItems, PrefilterReason, EscalatePlan, ConvergencePlan, DecidedPlan, ClassifyFrom, Merge, CompletedPlan,
         DecidesBatch, LoadReviewTrack, ForbiddenItems, CandidateItems, SetAsideItems, BatchItems, Batch, Answered, NeedsPeople, ToBeFixed,
         FixesNothing, FixesExactly, EscalatesFor, ReviewPlan, Why;
    ReviewDecides(cfg, unit, w, input, trackId, track);
    var batch := BatchItems(cfg, input, track);
    ThoseMembers(batch, x => ToBeFixed(cfg, input, x));
    NobodyAsked(cfg, unit, w, input, track, batch, ReviewPlan(cfg, unit, w, input));
    IsCompleted(cfg, unit, w, input, trackId, track);
    CompletedShape(cfg, unit, w, input, trackId, track);
    LookedAt(cfg, input, track);
    BatchIsShort(cfg, input, track);
    var items := Collect(input.feedback, cfg.actor);
    var p := PartitionItems(cfg, input, track, items);
    ConvergedIff(cfg, input, trackId, track, p.skipped);
    ConvergedIff(cfg, input, trackId, track, Merged(p, batch));
    assert IdentitiesOf([]) == [];
  }

  lemma NobodyAsked(
    cfg: ReviewConfig, unit: WorkUnit, w: World, input: RunInput, track: ReviewTrack, batch: seq<Feedback>, plan: Plan)
    requires forall x :: x in batch ==> Answered(input, x) && !NeedsPeople(cfg, input, x)
    requires DecidesBatch(cfg, unit, w, input, track, batch, plan) && Those(batch, x => ToBeFixed(cfg, input, x)) == []
    ensures plan.exit.Returned? && plan.exit.outcome in {ReadyForHuman, InReviewOutcome}
  {
  }

  lemma IsCompleted(cfg: ReviewConfig, unit: WorkUnit, w: World, input: RunInput, trackId: Option<int>, track: ReviewTrack)
    requires LooksAtFeedback(cfg, unit, w, input, trackId, track)
    ensures ReviewPlan(cfg, unit, w, input) == CompletedPlan(cfg, unit, w, input, trackId, track)
  {
    hide CompletedPlan, EscalatePlan, LoadReviewTrack;
  }

  lemma BatchIsShort(cfg: ReviewConfig, input: RunInput, track: ReviewTrack)
    ensures
      var batch, candidates := BatchItems(cfg, input, track), CandidateItems(cfg, input, track);
      |batch| <= |candidates| && (|batch| == |candidates| <==> batch == candidates)
  {
    hide CandidateItems;
  }

  lemma ConvergedIff(cfg: ReviewConfig, input: RunInput, trackId: Option<int>, track: ReviewTrack, ids: seq<string>)
    ensures
      var plan := Converge(cfg, input, trackId, track, ids);
      plan.exit.Returned? &&
      (plan.exit.outcome == ReadyForHuman <==>
        forall x :: x in input.feedback && x.author == cfg.actor && IsAbout(input.head, track, x) ==> x.identity in track.processed + ids)
  {
    hide StatusEffects, Merge;
    var updated := WithProcessed(track, ids, false, None);
    var items := Collect(input.feedback, cfg.actor);
    MergeAdds(track.processed, ids);
    ConvergenceIsExact(input, PersistMerged(input, trackId, track, ids), PersistedId(input, trackId), updated, items,
      Record(None, {}, [], [], {}));
  }

  lemma {:induction false} ThoseMembers(items: seq<Feedback>, p: Feedback -> bool)
    ensures forall x :: x in Those(items, p) <==> x in items && p(x)
    ensures Those(items, p) == [] <==> forall x :: x in items ==> !p(x)
  {
    if items != [] {
      var n := |items| - 1;
      ThoseMembers(items[..n], p);
      assert items == items[..n] + [items[n]];
      assert items[n] in items;
    }
  }

  lemma {:induction false} FindForPeople(cfg: ReviewConfig, input: RunInput, batch: seq<Feedback>) returns (k: nat)
    requires exists x :: x in batch && NeedsPeople(cfg, input, x)
    ensures FirstForPeople(cfg, input, batch, k)
  {
    hide NeedsPeople;
    if NeedsPeople(cfg, input, batch[0]) {
      k := 0;
    } else {
      var x :| x in batch && NeedsPeople(cfg, input, x);
      assert x in batch[1..];
      var j := FindForPeople(cfg, input, batch[1..]);
      k := j + 1;
    }
  }
}
