/**
 * One run of the review loop, `agent/review_loop.py`, as the list of GitHub effects it makes
 * and the result it returns. The policy and the filter are those of
 * `agent/review_policy.py` and `agent/review_filter.py`.
 */
module ReviewLoop {
  import opened Wrappers
  import opened PyText
  import opened TaskGraph
  import opened ReviewTracking
  import opened Labels

  // ---------- What a run is configured with and what it observes ----------

  datatype ReviewConfig = ReviewConfig(
    trackAuthor: string,
    actor: string,
    maxCommentsPerRun: Option<int>,
    reviewAttemptLimit: nat,
    autoRepairEnabled: bool,
    confidenceThreshold: real,
    inScope: string -> bool)

  datatype WorkUnit = WorkUnit(identity: WorkUnitIdentity, reviewAttemptLimit: nat)

  datatype Feedback = Feedback(identity: string, author: string, path: Option<string>, commitSha: Option<string>)

  datatype TerminalKind = NoTerminal | InProgress | CompletedTerminal | Skipped | FailedTerminal | Ambiguous

  datatype Classification = Actionable | NonActionable | OutOfScope | ConflictsWithSpec | Uncertain

  datatype ClassificationResult = ClassificationResult(
    classification: Classification, confidence: real, referencedPaths: seq<string>)

  datatype ClassifierAnswer = Classified(result: ClassificationResult) | ClassifierError(code: string, message: string)

  /** The fix is pushed; or it raises before the push, or once the remote has it. */
  datatype FixAnswer = FixPushed | FixRaised(code: string) | FixPushRaised(code: string)

  /** Everything a run asks of the outside world, answered adversarially. */
  datatype RunInput = RunInput(
    setupError: Option<string>,
    head: string,
    terminal: TerminalKind,
    feedback: seq<Feedback>,
    missingPaths: set<string>,
    classifier: Feedback -> ClassifierAnswer,
    fix: FixAnswer,
    trackCommentId: int,
    noticeCommentId: int,
    notice: string -> string)

  // ---------- Durable state and effects ----------

  datatype Comment = Comment(id: int, author: string, body: string)

  /**
   * The pull request: the orchestrator's own comments, everybody else's, the labels, and two logs,
   * of the identities accepted by each review fix that was started and by each one that was pushed.
   */
  datatype World = World(
    own: seq<Comment>, foreign: seq<Comment>, labels: set<Label>, fixes: seq<seq<string>>, pushed: seq<seq<string>>)

  datatype Effect =
    | CreateTrack(id: int, track: ReviewTrack)
    | UpdateTrack(id: int, track: ReviewTrack)
    | LabelCall(step: LabelStep)
    | StartFix(accepted: seq<string>)
    | PushFix(accepted: seq<string>)
    | PostNotice(id: int, body: string)

  function UpdateBody(comments: seq<Comment>, id: int, body: string): seq<Comment> {
    seq(|comments|, i requires 0 <= i < |comments| =>
      if comments[i].id == id then comments[i].(body := body) else comments[i])
  }

  function ApplyEffect(cfg: ReviewConfig, w: World, e: Effect): World {
    match e
    case CreateTrack(id, t) => w.(own := w.own + [Comment(id, cfg.trackAuthor, RenderReviewTrack(t))])
    case UpdateTrack(id, t) => w.(own := UpdateBody(w.own, id, RenderReviewTrack(t)))
    case LabelCall(step) => w.(labels := ApplyStep(w.labels, step))
    case StartFix(accepted) => w.(fixes := w.fixes + [accepted])
    case PushFix(accepted) => w.(pushed := w.pushed + [accepted])
    case PostNotice(id, body) => w.(own := w.own + [Comment(id, cfg.trackAuthor, body)])
  }

  function ApplyEffects(cfg: ReviewConfig, w: World, effects: seq<Effect>): World
    decreases |effects|
  {
    if effects == [] then w else ApplyEffects(cfg, ApplyEffect(cfg, w, effects[0]), effects[1..])
  }

  // ---------- Loading the track ----------

  const UNSAFE_REVIEW_TRACK := "UNSAFE_REVIEW_TRACK"

  predicate HasMarker(body: string) {
    Find(body, REVIEW_STATE_START, 0).Some?
  }

  /** The tracking comments found so far, or the refusal of the first unsafe one. */
  function FindTracks(comments: seq<Comment>, author: string, identity: WorkUnitIdentity): Result<seq<(int, ReviewTrack)>, string> {
    if comments == [] then Ok([])
    else
      var last := comments[|comments| - 1];
      match FindTracks(comments[..|comments| - 1], author, identity)
      case Err(e) => Err(e)
      case Ok(found) =>
        if !HasMarker(last.body) then Ok(found)
        else if last.author != author then Err(UNSAFE_REVIEW_TRACK)
        else
          match ParseReviewTrack(last.body)
          case None => Err(UNSAFE_REVIEW_TRACK)
          case Some(t) => if t.identity == identity then Ok(found + [(last.id, t)]) else Err(UNSAFE_REVIEW_TRACK)
  }

  function LoadReviewTrack(comments: seq<Comment>, author: string, identity: WorkUnitIdentity)
    : Result<(Option<int>, ReviewTrack), string>
  {
    match FindTracks(comments, author, identity)
    case Err(e) => Err(e)
    case Ok(found) =>
      if |found| > 1 then Err(UNSAFE_REVIEW_TRACK)
      else if found == [] then Ok((None, EmptyReviewTrack(identity)))
      else Ok((Some(found[0].0), found[0].1))
  }

  /** `load_review_track` as written: a loop over the comments. */
  method LoadTrackComment(comments: seq<Comment>, author: string, identity: WorkUnitIdentity)
    returns (r: Result<(Option<int>, ReviewTrack), string>)
    ensures r == LoadReviewTrack(comments, author, identity)
  {
    hide ParseReviewTrack, HasMarker;
    var found: seq<(int, ReviewTrack)> := [];
    for i := 0 to |comments|
      invariant FindTracks(comments[..i], author, identity) == Ok(found)
    {
      var comment := comments[i];
      assert comments[..i + 1][..i] == comments[..i];
      FindTracksFails(comments, author, identity, i + 1);
      if !HasMarker(comment.body) {
        continue;
      }
      if comment.author != author {
        return Err(UNSAFE_REVIEW_TRACK);
      }
      var parsed := ParseTrackComment(comment.body);
      if parsed.None? || parsed.value.identity != identity {
        return Err(UNSAFE_REVIEW_TRACK);
      }
      found := found + [(comment.id, parsed.value)];
    }
    assert comments[..|comments|] == comments;
    if |found| > 1 {
      return Err(UNSAFE_REVIEW_TRACK);
    }
    if found == [] {
      return Ok((None, EmptyReviewTrack(identity)));
    }
    return Ok((Some(found[0].0), found[0].1));
  }

  lemma {:induction false} FindTracksFails(comments: seq<Comment>, author: string, identity: WorkUnitIdentity, k: nat)
    requires k <= |comments|
    ensures FindTracks(comments[..k], author, identity).Err? ==>
              FindTracks(comments, author, identity) == FindTracks(comments[..k], author, identity)
    decreases |comments|
  {
    if k < |comments| {
      var front := comments[..|comments| - 1];
      FindTracksFails(front, author, identity, k);
      assert front[..k] == comments[..k];
    } else {
      assert comments[..k] == comments;
    }
  }

  // ---------- Filtering, `agent/review_filter.py` ----------

  predicate AppliesToCurrentHead(item: Feedback, head: string, trackHead: string) {
    if item.commitSha.Some? && item.commitSha.value != "" then item.commitSha.value == head
    else trackHead == "" || trackHead == head
  }

  predicate IsConfiguredActor(login: string, expected: string) {
    Strip(expected) != "" && login == expected
  }

  datatype SkipReason = NonConfiguredActor | Processed | OutdatedHead | MissingPath | ForbiddenPath

  function PrefilterReason(cfg: ReviewConfig, input: RunInput, track: ReviewTrack, item: Feedback): Option<SkipReason> {
    var hasPath := item.path.Some? && item.path.value != "";
    if !IsConfiguredActor(item.author, cfg.actor) then Some(NonConfiguredActor)
    else if item.identity in track.processed then Some(Processed)
    else if !AppliesToCurrentHead(item, input.head, track.headSha) then Some(OutdatedHead)
    else if hasPath && item.path.value in input.missingPaths then Some(MissingPath)
    else if hasPath && !cfg.inScope(item.path.value) then Some(ForbiddenPath)
    else None
  }

  /** `collect_review_feedback` keeps the configured actor's items. */
  function Collect(feedback: seq<Feedback>, actor: string): (items: seq<Feedback>)
    ensures forall x :: x in items ==> x in feedback && x.author == actor
    ensures forall x :: x in feedback && x.author == actor ==> x in items
  {
    if feedback == [] then []
    else (if feedback[0].author == actor then [feedback[0]] else []) + Collect(feedback[1..], actor)
  }

  datatype Partition = Partition(skipped: seq<string>, forbidden: seq<Feedback>, candidates: seq<Feedback>)

  function PartitionItem(cfg: ReviewConfig, input: RunInput, track: ReviewTrack, p: Partition, item: Feedback): Partition {
    match PrefilterReason(cfg, input, track, item)
    case None => p.(candidates := p.candidates + [item])
    case Some(Processed) => p
    case Some(NonConfiguredActor) => p
    case Some(ForbiddenPath) => p.(forbidden := p.forbidden + [item])
    case Some(_) => p.(skipped := p.skipped + [item.identity])
  }

  function PartitionItems(cfg: ReviewConfig, input: RunInput, track: ReviewTrack, items: seq<Feedback>): Partition {
    if items == [] then Partition([], [], [])
    else
      PartitionItem(cfg, input, track, PartitionItems(cfg, input, track, items[..|items| - 1]), items[|items| - 1])
  }

  /** The filtering loop of `_run_review`. */
  method FilterFeedback(cfg: ReviewConfig, input: RunInput, track: ReviewTrack, items: seq<Feedback>) returns (p: Partition)
    ensures p == PartitionItems(cfg, input, track, items)
  {
    var skipped: seq<string>, forbidden: seq<Feedback>, candidates: seq<Feedback> := [], [], [];
    for i := 0 to |items|
      invariant Partition(skipped, forbidden, candidates) == PartitionItems(cfg, input, track, items[..i])
    {
      assert items[..i + 1][..i] == items[..i];
      var reason := PrefilterReason(cfg, input, track, items[i]);
      if reason == Some(Processed) || reason == Some(NonConfiguredActor) {
        continue;
      }
      if reason == Some(OutdatedHead) || reason == Some(MissingPath) {
        skipped := skipped + [items[i].identity];
        continue;
      }
      if reason == Some(ForbiddenPath) {
        forbidden := forbidden + [items[i]];
        continue;
      }
      candidates := candidates + [items[i]];
    }
    assert items[..|items|] == items;
    p := Partition(skipped, forbidden, candidates);
  }

  // ---------- Policy, `agent/review_policy.py` ----------

  datatype PolicyAction = Fix | Ignore | Escalate

  datatype PolicyDecision = PolicyDecision(action: PolicyAction, reason: string)

  function DecideReviewPolicy(cfg: ReviewConfig, r: ClassificationResult): PolicyDecision {
    match r.classification
    case NonActionable => PolicyDecision(Ignore, "non-actionable review")
    case OutOfScope => PolicyDecision(Escalate, "review is out of scope")
    case ConflictsWithSpec => PolicyDecision(Escalate, "review conflicts with the Task Spec")
    case Uncertain => PolicyDecision(Escalate, "review classification is uncertain")
    case Actionable =>
      if !cfg.autoRepairEnabled then PolicyDecision(Escalate, "automatic review repair is deferred")
      else if r.confidence < cfg.confidenceThreshold then
        PolicyDecision(Escalate, "actionable review is below confidence threshold")
      else if r.referencedPaths == [] then PolicyDecision(Escalate, "actionable review has no referenced paths")
      else if exists p :: p in r.referencedPaths && !cfg.inScope(p) then
        PolicyDecision(Escalate, "actionable referenced paths are not a subset of allowed_paths")
      else PolicyDecision(Fix, "actionable review is in scope")
  }

  datatype Decided = Decided(item: Feedback, decision: PolicyDecision)

  datatype BatchResult =
    | AllDecided(decided: seq<Decided>)
    | FailClosed(item: Feedback, message: string)
    | ClassifierRaised(code: string)

  const CLASSIFIER_FAIL_CLOSED := {"INVALID_CLASSIFIER_JSON", "CLASSIFIER_REFUSAL", "CLASSIFIER_INCOMPLETE"}

  function ClassifyFrom(cfg: ReviewConfig, input: RunInput, decided: seq<Decided>, batch: seq<Feedback>): BatchResult
    decreases |batch|
  {
    if batch == [] then AllDecided(decided)
    else
      match input.classifier(batch[0])
      case ClassifierError(code, message) =>
        if code in CLASSIFIER_FAIL_CLOSED then FailClosed(batch[0], message) else ClassifierRaised(code)
      case Classified(r) =>
        ClassifyFrom(cfg, input, decided + [Decided(batch[0], DecideReviewPolicy(cfg, r))], batch[1..])
  }

  /** The classification loop of `_run_review`. */
  method ClassifyBatch(cfg: ReviewConfig, input: RunInput, batch: seq<Feedback>) returns (r: BatchResult)
    ensures r == ClassifyFrom(cfg, input, [], batch)
  {
    var decided: seq<Decided> := [];
    for i := 0 to |batch|
      invariant ClassifyFrom(cfg, input, decided, batch[i..]) == ClassifyFrom(cfg, input, [], batch)
    {
      assert batch[i..][0] == batch[i] && batch[i..][1..] == batch[i + 1..];
      var answer := input.classifier(batch[i]);
      if answer.ClassifierError? {
        if answer.code in CLASSIFIER_FAIL_CLOSED {
          return FailClosed(batch[i], answer.message);
        }
        return ClassifierRaised(answer.code);
      }
      decided := decided + [Decided(batch[i], DecideReviewPolicy(cfg, answer.result))];
    }
    return AllDecided(decided);
  }

  function IdentitiesOf(items: seq<Feedback>): seq<string> {
    seq(|items|, i requires 0 <= i < |items| => items[i].identity)
  }

  /** The items whose decision is to fix. */
  function AcceptedItems(decided: seq<Decided>): (items: seq<Feedback>)
    ensures forall x :: x in items ==> exists d :: d in decided && d.item == x && d.decision.action == Fix
  {
    if decided == [] then []
    else (if decided[0].decision.action == Fix then [decided[0].item] else []) + AcceptedItems(decided[1..])
  }

  /** The first reason to escalate, if any decision is one. */
  function FirstEscalation(decided: seq<Decided>): Option<string> {
    if decided == [] then None
    else if decided[0].decision.action == Escalate then Some(decided[0].decision.reason)
    else FirstEscalation(decided[1..])
  }

  // ---------- The run ----------

  datatype ReviewOutcome = InReviewOutcome | ReviewFixPushed | ReadyForHuman | ReviewFailed | ReviewEscalated

  datatype ReviewExit =
    | Returned(outcome: ReviewOutcome, processed: seq<string>, attempts: nat, sticky: bool)
    | Raised(code: string)

  datatype Plan = Plan(effects: seq<Effect>, exit: ReviewExit)

  function LabelEffects(steps: seq<LabelStep>): seq<Effect> {
    seq(|steps|, i requires 0 <= i < |steps| => LabelCall(steps[i]))
  }

  function StatusEffects(target: Label): seq<Effect> {
    LabelEffects(StatusSteps(target))
  }

  /** `persist_review_track`: create the comment once, later update it by its id. */
  function PersistTrack(input: RunInput, trackId: Option<int>, t: ReviewTrack): Effect {
    if trackId.Some? then UpdateTrack(trackId.value, t) else CreateTrack(input.trackCommentId, t)
  }

  function PersistedId(input: RunInput, trackId: Option<int>): Option<int> {
    Some(if trackId.Some? then trackId.value else input.trackCommentId)
  }

  function Ends(outcome: ReviewOutcome, t: ReviewTrack): ReviewExit {
    Returned(outcome, t.processed, t.reviewAttempts, false)
  }

  predicate HasEscalationComment(comments: seq<Comment>, reason: string) {
    exists i :: 0 <= i < |comments| && Find(comments[i].body, "- Reason: " + reason, 0).Some?
  }

  /** `_escalate`, after the effects `done` */
  function EscalatePlan(
    cfg: ReviewConfig, w: World, input: RunInput, done: seq<Effect>, trackId: Option<int>, t: ReviewTrack, reason: string): Plan
  {
    var bound := WithProcessed(t, [], false, Some(input.head));
    var effects := done + [PersistTrack(input, trackId, bound)] + StatusEffects(AgentEscalated);
    var now := ApplyEffects(cfg, w, effects);
    Plan(
      if HasEscalationComment(now.own + now.foreign, reason) then effects
      else effects + [PostNotice(input.noticeCommentId, input.notice(reason))],
      Ends(ReviewEscalated, bound))
  }

  /** `_convergence_result`, after the effects `done` */
  function ConvergencePlan(
    input: RunInput, done: seq<Effect>, trackId: Option<int>, t: ReviewTrack, items: seq<Feedback>): Plan
  {
    if exists i :: 0 <= i < |items| && AppliesToCurrentHead(items[i], input.head, t.headSha)
                   && items[i].identity !in t.processed then
      Plan(done, Ends(InReviewOutcome, t))
    else
      var bound := WithProcessed(t, [], false, Some(input.head));
      Plan(done + [PersistTrack(input, trackId, bound)] + StatusEffects(AgentReady), Ends(ReadyForHuman, bound))
  }

  function TerminalName(k: TerminalKind): string {
    match k
    case NoTerminal => "NONE"
    case InProgress => "IN_PROGRESS"
    case CompletedTerminal => "CODERABBIT_COMPLETED"
    case Skipped => "CODERABBIT_SKIPPED"
    case FailedTerminal => "CODERABBIT_FAILED"
    case Ambiguous => "CODERABBIT_AMBIGUOUS"
  }

  function StickyOutcome(l: Label): ReviewOutcome {
    match l
    case AgentFailed => ReviewFailed
    case AgentEscalated => ReviewEscalated
    case _ => ReadyForHuman
  }

  function Batch(cap: Option<int>, candidates: seq<Feedback>): seq<Feedback> {
    if cap.Some? && 0 <= cap.value <= |candidates| then candidates[..cap.value] else candidates
  }

  function ReviewAttemptLimit(cfg: ReviewConfig, unit: WorkUnit): nat {
    if unit.reviewAttemptLimit <= cfg.reviewAttemptLimit then unit.reviewAttemptLimit else cfg.reviewAttemptLimit
  }

  /** After every item of the batch was decided. */
  function DecidedPlan(
    cfg: ReviewConfig, unit: WorkUnit, w: World, input: RunInput, done: seq<Effect>, trackId: Option<int>, track: ReviewTrack,
    items: seq<Feedback>, p: Partition, batch: seq<Feedback>, decided: seq<Decided>): Plan
  {
    var identities := p.skipped + IdentitiesOf(batch);
    var updated := WithProcessed(track, identities, false, None);
    match FirstEscalation(decided)
    case Some(reason) => EscalatePlan(cfg, w, input, done, trackId, updated, reason)
    case None =>
      var accepted := AcceptedItems(decided);
      if accepted == [] then
        var persisted := done + [PersistTrack(input, trackId, updated)];
        if |batch| < |p.candidates| then Plan(persisted, Ends(InReviewOutcome, updated))
        else ConvergencePlan(input, persisted, PersistedId(input, trackId), updated, items)
      else if track.reviewAttempts >= ReviewAttemptLimit(cfg, unit) then
        EscalatePlan(cfg, w, input, done, trackId, updated, "review_attempt_limit reached")
      else
        var started := WithProcessed(track, identities, true, Some(input.head));
        var effects := done + [PersistTrack(input, trackId, started), StartFix(IdentitiesOf(accepted))];
        match input.fix
        case FixRaised(code) => Plan(effects, Raised(code))
        case FixPushRaised(code) => Plan(effects + [PushFix(IdentitiesOf(accepted))], Raised(code))
        case FixPushed =>
          Plan(effects + [PushFix(IdentitiesOf(accepted))] + StatusEffects(AgentReview), Ends(ReviewFixPushed, started))
  }

  /** Once CodeRabbit has completed on this head. */
  function CompletedPlan(
    cfg: ReviewConfig, unit: WorkUnit, w: World, input: RunInput, trackId: Option<int>, track: ReviewTrack): Plan
  {
    var done := StatusEffects(AgentReview);
    var items := Collect(input.feedback, cfg.actor);
    var p := PartitionItems(cfg, input, track, items);
    if p.forbidden != [] then
      EscalatePlan(cfg, w, input, done, trackId,
        WithProcessed(track, p.skipped + IdentitiesOf(p.forbidden), false, None),
        "review references a forbidden path")
    else
      var batch := Batch(cfg.maxCommentsPerRun, p.candidates);
      if batch == [] then
        var updated := WithProcessed(track, p.skipped, false, None);
        ConvergencePlan(input, done + [PersistTrack(input, trackId, updated)], PersistedId(input, trackId), updated, items)
      else
        match ClassifyFrom(cfg, input, [], batch)
        case ClassifierRaised(code) => Plan(done, Raised(code))
        case FailClosed(item, message) =>
          EscalatePlan(cfg, w, input, done, trackId,
            WithProcessed(track, p.skipped + [item.identity], false, None), message)
        case AllDecided(decided) =>
          DecidedPlan(cfg, unit, w, input, done, trackId, track, items, p, batch, decided)
  }

  /** `_run_review`: the effects it makes, in order, and how it ends. */
  function ReviewPlan(cfg: ReviewConfig, unit: WorkUnit, w: World, input: RunInput): Plan {
    if input.setupError.Some? then Plan([], Raised(input.setupError.value))
    else
      match LoadReviewTrack(w.own + w.foreign, cfg.trackAuthor, unit.identity)
      case Err(code) => Plan([], Raised(code))
      case Ok((trackId, track)) =>
        if track.headSha == input.head && CurrentTerminal(w.labels).Some? then
          Plan([], Returned(StickyOutcome(CurrentTerminal(w.labels).value), track.processed, track.reviewAttempts, true))
        else
          match input.terminal
          case NoTerminal => Plan(StatusEffects(AgentReview), Ends(InReviewOutcome, track))
          case InProgress => Plan(StatusEffects(AgentReview), Ends(InReviewOutcome, track))
          case CompletedTerminal => CompletedPlan(cfg, unit, w, input, trackId, track)
          case _ => EscalatePlan(cfg, w, input, [], trackId, track, "CodeRabbit terminal is " + TerminalName(input.terminal))
  }

  // ---------- Crashes, exceptions and histories ----------

  /**
   * `_control_plane_failure` after an exception: the failed or escalated label, then a
   * notice; each call may fail, and the process may die on the way.
   */
  datatype ControlPlane = ControlPlane(failed: bool, labelCalls: nat, notice: Option<string>, noticeCommentId: int)

  /** A run that stopped after `cut` effects, by a crash, an exception, or its own return. */
  datatype ReviewRun = ReviewRun(input: RunInput, cut: nat, controlPlane: Option<ControlPlane>)

  function Prefix<T>(s: seq<T>, k: nat): seq<T> {
    if k <= |s| then s[..k] else s
  }

  function ControlPlaneEffects(c: ControlPlane): seq<Effect> {
    Prefix(StatusEffects(if c.failed then AgentFailed else AgentEscalated), c.labelCalls)
    + (if c.notice.Some? then [PostNotice(c.noticeCommentId, c.notice.value)] else [])
  }

  /** All the effects that reached GitHub in a run. */
  function RunEffects(cfg: ReviewConfig, unit: WorkUnit, w: World, run: ReviewRun): seq<Effect> {
    Prefix(ReviewPlan(cfg, unit, w, run.input).effects, run.cut)
    + (if run.controlPlane.Some? then ControlPlaneEffects(run.controlPlane.value) else [])
  }

  /** The pull request after a run; before the next one, others may rewrite their own comments. */
  function AfterRun(cfg: ReviewConfig, unit: WorkUnit, w: World, run: ReviewRun, foreign: seq<Comment>): World {
    ApplyEffects(cfg, w, RunEffects(cfg, unit, w, run)).(foreign := foreign)
  }

  function AfterRuns(cfg: ReviewConfig, unit: WorkUnit, w: World, runs: seq<(ReviewRun, seq<Comment>)>): World
    decreases |runs|
  {
    if runs == [] then w
    else AfterRuns(cfg, unit, AfterRun(cfg, unit, w, runs[0].0, runs[0].1), runs[1..])
  }
}
