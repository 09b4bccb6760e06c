/**
 * What a review run answers before it looks at any feedback: the load of its track, the sticky
 * labels, and the state CodeRabbit is in.
 */
module ReviewGate {
  import opened Wrappers
  import opened TaskGraph
  import opened ReviewTracking
  import opened Labels
  import opened ReviewLoop
  import opened ReviewNotices
  import opened ReviewDecisions

  // ---------- Loading the track ----------

  /** The comment is a track that `author` wrote for this unit. */
  predicate IsTrackOf(c: Comment, author: string, identity: WorkUnitIdentity) {
    c.author == author && ParseReviewTrack(c.body).Some? && ParseReviewTrack(c.body).value.identity == identity
  }

  ghost predicate MarkedAreTracks(comments: seq<Comment>, author: string, identity: WorkUnitIdentity) {
    forall c :: c in comments && HasMarker(c.body) ==> IsTrackOf(c, author, identity)
  }

  ghost predicate OneMarked(comments: seq<Comment>) {
    forall i, j :: 0 <= i < j < |comments| ==> !(HasMarker(comments[i].body) && HasMarker(comments[j].body))
  }

  lemma OneMarkedSnoc(comments: seq<Comment>)
    requires comments != []
    ensures
      var front, last := comments[..|comments| - 1], comments[|comments| - 1];
      OneMarked(comments) <==> OneMarked(front) && (HasMarker(last.body) ==> forall c :: c in front ==> !HasMarker(c.body))
  {
    hide HasMarker;
    var n := |comments| - 1;
    var front := comments[..n];
    assert forall i :: 0 <= i < n ==> front[i] == comments[i];
    if OneMarked(comments) && HasMarker(comments[n].body) {
      forall c | c in front ensures !HasMarker(c.body) {
        var i :| 0 <= i < n && front[i] == c;
      }
    }
  }

  /** The track is read from a marked comment. */
  ghost predicate ReadFrom(comments: seq<Comment>, found: (int, ReviewTrack)) {
    exists c :: c in comments && HasMarker(c.body) && c.id == found.0 && ParseReviewTrack(c.body) == Some(found.1)
  }

  lemma {:induction false} FoundAreRead(comments: seq<Comment>, author: string, identity: WorkUnitIdentity)
    requires FindTracks(comments, author, identity).Ok?
    ensures forall found :: found in FindTracks(comments, author, identity).value ==> ReadFrom(comments, found)
  {
    hide HasMarker, ParseReviewTrack;
    if comments != [] {
      var n := |comments| - 1;
      var front, last := comments[..n], comments[n];
      FoundAreRead(front, author, identity);
      assert comments == front + [last];
      var before := FindTracks(front, author, identity).value;
      forall found | found in FindTracks(comments, author, identity).value ensures ReadFrom(comments, found) {
        if found in before {
          var c :| c in front && HasMarker(c.body) && c.id == found.0 && ParseReviewTrack(c.body) == Some(found.1);
          assert c in comments;
        } else {
          assert last in comments;
        }
      }
    }
  }

  lemma {:induction false} FoundAre(comments: seq<Comment>, author: string, identity: WorkUnitIdentity)
    ensures
      var found := FindTracks(comments, author, identity);
      && (found.Ok? <==> MarkedAreTracks(comments, author, identity))
      && (found.Err? ==> found.error == UNSAFE_REVIEW_TRACK)
      && (found.Ok? ==>
            && (found.value == [] <==> forall c :: c in comments ==> !HasMarker(c.body))
            && (|found.value| <= 1 <==> OneMarked(comments)))
  {
    hide HasMarker, ParseReviewTrack;
    if comments != [] {
      hide OneMarked;
      var n := |comments| - 1;
      FoundAre(comments[..n], author, identity);
      OneMarkedSnoc(comments);
      assert comments == comments[..n] + [comments[n]];
    }
  }

  /**
   * Loading succeeds if and only if every comment with the marker is a track of this unit by the
   * author, and there are not two; it returns that one with its comment, or a new track.
   */
  lemma LoadIff(comments: seq<Comment>, author: string, identity: WorkUnitIdentity)
    ensures
      var r := LoadReviewTrack(comments, author, identity);
      && (r.Ok? <==> MarkedAreTracks(comments, author, identity) && OneMarked(comments))
      && (r.Err? ==> r.error == UNSAFE_REVIEW_TRACK)
      && (r.Ok? && r.value.0.None? <==> forall c :: c in comments ==> !HasMarker(c.body))
      && (r.Ok? && r.value.0.None? ==> r.value.1 == EmptyReviewTrack(identity))
      && (r.Ok? && r.value.0.Some? ==>
            exists c :: c in comments && HasMarker(c.body) && c.id == r.value.0.value && ParseReviewTrack(c.body) == Some(r.value.1))
  {
    hide HasMarker, ParseReviewTrack, FindTracks, IsTrackOf, OneMarked;
    FoundAre(comments, author, identity);
    var found := FindTracks(comments, author, identity);
    if found.Ok? {
      FoundAreRead(comments, author, identity);
      if found.value != [] { assert found.value[0] in found.value && ReadFrom(comments, found.value[0]); }
    }
  }

  // ---------- The gate ----------

  /** The track the run works with, if it gets that far. */
  predicate Loads(cfg: ReviewConfig, unit: WorkUnit, w: World, input: RunInput, track: ReviewTrack) {
    && input.setupError.None?
    && LoadReviewTrack(w.own + w.foreign, cfg.trackAuthor, unit.identity).Ok?
    && LoadReviewTrack(w.own + w.foreign, cfg.trackAuthor, unit.identity).value.1 == track
  }

  predicate Ending(plan: Plan, outcome: ReviewOutcome) {
    plan.exit.Returned? && plan.exit.outcome == outcome
  }

  /** The name the notice gives a state of CodeRabbit in which nothing can be reviewed. */
  function UnreviewableName(k: TerminalKind): Option<string> {
    match k
    case Skipped => Some("CODERABBIT_SKIPPED")
    case FailedTerminal => Some("CODERABBIT_FAILED")
    case Ambiguous => Some("CODERABBIT_AMBIGUOUS")
    case _ => None
  }

  /**
   * Main theorem: what a run answers without looking at feedback. A setup error or a refused load
   * raises without an effect. On the head its track is bound to, a terminal label answers, FAILED
   * before ESCALATED before READY, without an effect and with the track's own counts. Otherwise a
   * review that has not finished leaves IN_REVIEW and changes labels only, and one that cannot be
   * read escalates with its name. FAILED is answered in no other way.
   */
  lemma GateIs(cfg: ReviewConfig, unit: WorkUnit, w: World, input: RunInput, track: ReviewTrack)
    ensures
      var plan := ReviewPlan(cfg, unit, w, input);
      var loads := LoadReviewTrack(w.own + w.foreign, cfg.trackAuthor, unit.identity);
      && (input.setupError.Some? ==> plan == Plan([], Raised(input.setupError.value)))
      && (input.setupError.None? && loads.Err? ==> plan == Plan([], Raised(UNSAFE_REVIEW_TRACK)))
      && (Ending(plan, ReviewFailed) ==> loads.Ok? && Loads(cfg, unit, w, input, loads.value.1))
      && (Loads(cfg, unit, w, input, track) ==>
            var bound := track.headSha == input.head;
            && (Ending(plan, ReviewFailed) <==> bound && AgentFailed in w.labels)
            && (Ending(plan, ReviewEscalated) && plan.exit.sticky <==>
                  bound && AgentEscalated in w.labels && AgentFailed !in w.labels)
            && (Ending(plan, ReadyForHuman) && plan.exit.sticky <==>
                  bound && AgentReady in w.labels && AgentEscalated !in w.labels && AgentFailed !in w.labels)
            && (plan.exit.Returned? && plan.exit.sticky ==>
                  && bound && plan.effects == []
                  && plan.exit.processed == track.processed && plan.exit.attempts == track.reviewAttempts)
            && (bound && (AgentFailed in w.labels || AgentEscalated in w.labels || AgentReady in w.labels) ==>
                  plan.exit.Returned? && plan.exit.sticky)
            && (!(plan.exit.Returned? && plan.exit.sticky) ==>
                  && (input.terminal in {NoTerminal, InProgress} ==>
                        plan.effects == StatusEffects(AgentReview) && Ending(plan, InReviewOutcome)
                        && plan.exit.processed == track.processed && plan.exit.attempts == track.reviewAttempts)
                  && (UnreviewableName(input.terminal).Some? ==>
                        EscalatesFor(cfg, w, input, plan, "CodeRabbit terminal is " + UnreviewableName(input.terminal).value))))
  {
    hide StatusEffects, CompletedPlan, FindTracks, EscalatePlan, EscalatesFor, ParseReviewTrack;
    LoadIff(w.own + w.foreign, cfg.trackAuthor, unit.identity);
    var loads := LoadReviewTrack(w.own + w.foreign, cfg.trackAuthor, unit.identity);
    if input.setupError.None? && loads.Ok? {
      var (trackId, own) := loads.value;
      if UnreviewableName(input.terminal).Some? {
        EscalatedAtOnce(cfg, w, input, trackId, own, "CodeRabbit terminal is " + UnreviewableName(input.terminal).value);
      }
      CompletedIsNeverSticky(cfg, unit, w, input, trackId, own);
    }
  }

  lemma CompletedIsNeverSticky(
    cfg: ReviewConfig, unit: WorkUnit, w: World, input: RunInput, trackId: Option<int>, track: ReviewTrack)
    ensures var exit := CompletedPlan(cfg, unit, w, input, trackId, track).exit;
            exit.Returned? ==> !exit.sticky && exit.outcome != ReviewFailed
  {
    hide StatusSteps, PrefilterReason, PartitionItems, ClassifyFrom, FirstEscalation, AcceptedItems, WithProcessed, PersistTrack,
         HasEscalationComment;
  }

  lemma EscalatedAtOnce(cfg: ReviewConfig, w: World, input: RunInput, trackId: Option<int>, t: ReviewTrack, reason: string)
    ensures EscalatesFor(cfg, w, input, EscalatePlan(cfg, w, input, [], trackId, t, reason), reason)
    ensures var exit := EscalatePlan(cfg, w, input, [], trackId, t, reason).exit;
            exit.Returned? && !exit.sticky && exit.outcome == ReviewEscalated
  {
    hide StatusEffects, ApplyEffects, Merge, HasEscalationComment;
    StatusIsCalls(AgentEscalated);
    var plan := EscalatePlan(cfg, w, input, [], trackId, t, reason);
    var bound := WithProcessed(t, [], false, Some(input.head));
    var effects := [] + [PersistTrack(input, trackId, bound)] + StatusEffects(AgentEscalated);
    var now := ApplyEffects(cfg, w, effects);
    GivenIff(now.own + now.foreign, reason);
    assert effects[|effects| - 1].LabelCall?;
    assert (effects + [PostNotice(input.noticeCommentId, input.notice(reason))])[..|effects|] == effects;
    assert BeforeNotice(plan.effects) == effects;
  }
}
