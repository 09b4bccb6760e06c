/**
 * Notices carry foreign text, and that text may quote the tracking marker. What every history
 * keeps whatever the notices say, and what a quoted marker does to the runs after it.
 */
module ReviewNotices {
  import opened Wrappers
  import opened PyText
  import opened Marker
  import opened TaskGraph
  import opened ReviewTracking
  import opened Labels
  import opened ReviewLoop
  import opened ReviewRecord
  import opened ReviewProofs
  import SpecPath
  import PullBody

  // ---------- The notice is the last effect, and nothing else depends on it ----------

  function Silenced(input: RunInput): RunInput {
    input.(notice := _ => "")
  }

  lemma SilencedIsQuiet(input: RunInput)
    ensures Quiet(Silenced(input))
  {
  }

  lemma {:induction false} SilencedItems(cfg: ReviewConfig, input: RunInput, track: ReviewTrack, items: seq<Feedback>)
    ensures PartitionItems(cfg, Silenced(input), track, items) == PartitionItems(cfg, input, track, items)
  {
    if items != [] { SilencedItems(cfg, input, track, items[..|items| - 1]); }
  }

  lemma {:induction false} SilencedClassifier(cfg: ReviewConfig, input: RunInput, decided: seq<Decided>, batch: seq<Feedback>)
    ensures ClassifyFrom(cfg, Silenced(input), decided, batch) == ClassifyFrom(cfg, input, decided, batch)
    decreases |batch|
  {
    if batch != [] && input.classifier(batch[0]).Classified? {
      SilencedClassifier(cfg, input,
        decided + [Decided(batch[0], DecideReviewPolicy(cfg, input.classifier(batch[0]).result))], batch[1..]);
    }
  }

  /** The effects before the notice, if the plan ends with one. */
  function BeforeNotice(effects: seq<Effect>): seq<Effect> {
    if effects != [] && effects[|effects| - 1].PostNotice? then effects[..|effects| - 1] else effects
  }

  /** Two plans that differ at most in the text of a closing notice. */
  predicate SameButNotice(a: Plan, b: Plan) {
    && a.exit == b.exit
    && (a == b
        || (|a.effects| == |b.effects| > 0
            && a.effects[..|a.effects| - 1] == b.effects[..|b.effects| - 1]
            && a.effects[|a.effects| - 1].PostNotice? && b.effects[|b.effects| - 1].PostNotice?
            && a.effects[|a.effects| - 1].id == b.effects[|b.effects| - 1].id
            && a.exit.Returned? && a.exit.outcome == ReviewEscalated))
  }

  lemma SilencedEscalation(
    cfg: ReviewConfig, w: World, input: RunInput, done: seq<Effect>, trackId: Option<int>, t: ReviewTrack, reason: string)
    ensures SameButNotice(EscalatePlan(cfg, w, input, done, trackId, t, reason),
                          EscalatePlan(cfg, w, Silenced(input), done, trackId, t, reason))
  {
    hide StatusEffects, HasEscalationComment, ApplyEffects;
  }

  lemma SilencedCompleted(
    cfg: ReviewConfig, unit: WorkUnit, w: World, input: RunInput, trackId: Option<int>, track: ReviewTrack)
    ensures SameButNotice(CompletedPlan(cfg, unit, w, input, trackId, track),
                          CompletedPlan(cfg, unit, w, Silenced(input), trackId, track))
  {
    hide EscalatePlan, StatusEffects, PartitionItems, ClassifyFrom, WithProcessed, SameButNotice, DecidedPlan;
    var done := StatusEffects(AgentReview);
    var items := Collect(input.feedback, cfg.actor);
    SilencedItems(cfg, input, track, items);
    var p := PartitionItems(cfg, input, track, items);
    if p.forbidden != [] {
      SilencedEscalation(cfg, w, input, done, trackId,
        WithProcessed(track, p.skipped + IdentitiesOf(p.forbidden), false, None), "review references a forbidden path");
    } else {
      var batch := Batch(cfg.maxCommentsPerRun, p.candidates);
      SilencedClassifier(cfg, input, [], batch);
      var classified := ClassifyFrom(cfg, input, [], batch);
      if batch == [] {
        SamePlans(CompletedPlan(cfg, unit, w, input, trackId, track));
      } else if classified.FailClosed? {
        SilencedEscalation(cfg, w, input, done, trackId,
          WithProcessed(track, p.skipped + [classified.item.identity], false, None), classified.message);
      } else if classified.AllDecided? {
        SilencedDecided(cfg, unit, w, input, done, trackId, track, items, p, batch, classified.decided);
      } else {
        SamePlans(Plan(done, Raised(classified.code)));
      }
    }
  }

  lemma SamePlans(plan: Plan)
    ensures SameButNotice(plan, plan)
  {
  }

  lemma SilencedDecided(
    cfg: ReviewConfig, unit: WorkUnit, w: World, input: RunInput, done: seq<Effect>, trackId: Option<int>, track: ReviewTrack,
    items: seq<Feedback>, p: Partition, batch: seq<Feedback>, decided: seq<Decided>)
    ensures SameButNotice(DecidedPlan(cfg, unit, w, input, done, trackId, track, items, p, batch, decided),
                          DecidedPlan(cfg, unit, w, Silenced(input), done, trackId, track, items, p, batch, decided))
  {
    hide EscalatePlan, StatusEffects, WithProcessed, SameButNotice, FirstEscalation, AcceptedItems;
    var updated := WithProcessed(track, p.skipped + IdentitiesOf(batch), false, None);
    if FirstEscalation(decided).Some? {
      SilencedEscalation(cfg, w, input, done, trackId, updated, FirstEscalation(decided).value);
    } else if AcceptedItems(decided) != [] && track.reviewAttempts >= ReviewAttemptLimit(cfg, unit) {
      SilencedEscalation(cfg, w, input, done, trackId, updated, "review_attempt_limit reached");
    } else {
      SamePlans(DecidedPlan(cfg, unit, w, input, done, trackId, track, items, p, batch, decided));
    }
  }

  /** A run's plan does not depend on what its notice would say, but for the closing notice itself. */
  lemma SilencedPlan(cfg: ReviewConfig, unit: WorkUnit, w: World, input: RunInput)
    ensures SameButNotice(ReviewPlan(cfg, unit, w, input), ReviewPlan(cfg, unit, w, Silenced(input)))
  {
    hide EscalatePlan, CompletedPlan, StatusEffects, LoadReviewTrack, SameButNotice;
    SamePlans(ReviewPlan(cfg, unit, w, input));
    var loaded := LoadReviewTrack(w.own + w.foreign, cfg.trackAuthor, unit.identity);
    if loaded.Ok? {
      var (trackId, track) := loaded.value;
      SilencedCompleted(cfg, unit, w, input, trackId, track);
      SilencedEscalation(cfg, w, input, [], trackId, track, "CodeRabbit terminal is " + TerminalName(input.terminal));
    }
  }

  /** The effects before the notice are allowed, whatever the notice says; the notice's comment is new. */
  lemma FrontAllowed(cfg: ReviewConfig, unit: WorkUnit, w: World, r: Record, input: RunInput)
    requires Represents(cfg, w, r) && RecordInv(cfg, unit, r) && ValidUnit(unit) && ValidInput(input, r.ids)
    ensures
      var effects := ReviewPlan(cfg, unit, w, input).effects;
      && AllAllowed(cfg, unit, r, BeforeNotice(effects))
      && (effects != BeforeNotice(effects) ==>
            effects == BeforeNotice(effects) + [effects[|effects| - 1]]
            && effects[|effects| - 1].id !in Steps(r, BeforeNotice(effects)).ids)
  {
    hide ReviewPlan, Represents, RecordInv, ValidUnit, HasMarker;
    SilencedIsQuiet(input);
    PlanAllowed(cfg, unit, w, r, Silenced(input));
    SilencedPlan(cfg, unit, w, input);
    var a, b := ReviewPlan(cfg, unit, w, input).effects, ReviewPlan(cfg, unit, w, Silenced(input)).effects;
    assert BeforeNotice(a) == BeforeNotice(b);
    if b != BeforeNotice(b) {
      assert b == BeforeNotice(b) + [b[|b| - 1]];
      AllowedAppend(cfg, unit, r, BeforeNotice(b), [b[|b| - 1]]);
      assert a == BeforeNotice(a) + [a[|a| - 1]];
    }
  }

  /** A closing notice comes after a track was written. */
  ghost predicate TrackFirst(effects: seq<Effect>) {
    effects != [] && effects[|effects| - 1].PostNotice? ==> exists i :: 0 <= i < |effects| - 1 && TrackOf(effects[i]).Some?
  }

  lemma EscalationTracksFirst(
    cfg: ReviewConfig, w: World, input: RunInput, done: seq<Effect>, trackId: Option<int>, t: ReviewTrack, reason: string)
    ensures TrackFirst(EscalatePlan(cfg, w, input, done, trackId, t, reason).effects)
  {
    hide StatusEffects, HasEscalationComment, ApplyEffects, WithProcessed;
    var effects := EscalatePlan(cfg, w, input, done, trackId, t, reason).effects;
    if effects[|effects| - 1].PostNotice? {
      StatusIsCalls(AgentEscalated);
      assert TrackOf(effects[|done|]).Some?;
    }
  }

  lemma StatusIsCalls(target: Label)
    ensures StatusEffects(target) != []
    ensures forall i :: 0 <= i < |StatusEffects(target)| ==> StatusEffects(target)[i].LabelCall?
  {
  }

  lemma ConvergenceTracksFirst(input: RunInput, done: seq<Effect>, trackId: Option<int>, t: ReviewTrack, items: seq<Feedback>)
    requires TrackFirst(done)
    ensures TrackFirst(ConvergencePlan(input, done, trackId, t, items).effects)
  {
    hide StatusEffects, WithProcessed, AppliesToCurrentHead;
    StatusIsCalls(AgentReady);
  }

  lemma CompletedTracksFirst(cfg: ReviewConfig, unit: WorkUnit, w: World, input: RunInput, trackId: Option<int>, track: ReviewTrack)
    ensures TrackFirst(CompletedPlan(cfg, unit, w, input, trackId, track).effects)
  {
    hide EscalatePlan, ConvergencePlan, StatusEffects, PartitionItems, ClassifyFrom, WithProcessed, DecidedPlan, TrackFirst;
    var done := StatusEffects(AgentReview);
    LabelsTrackFirst();
    var items := Collect(input.feedback, cfg.actor);
    var p := PartitionItems(cfg, input, track, items);
    var batch := Batch(cfg.maxCommentsPerRun, p.candidates);
    var classified := ClassifyFrom(cfg, input, [], batch);
    if p.forbidden != [] {
      EscalationTracksFirst(cfg, w, input, done, trackId,
        WithProcessed(track, p.skipped + IdentitiesOf(p.forbidden), false, None), "review references a forbidden path");
    } else if batch == [] {
      var updated := WithProcessed(track, p.skipped, false, None);
      PersistTracksFirst(input, done, trackId, updated);
      ConvergenceTracksFirst(input, done + [PersistTrack(input, trackId, updated)], PersistedId(input, trackId), updated, items);
    } else if classified.FailClosed? {
      EscalationTracksFirst(cfg, w, input, done, trackId,
        WithProcessed(track, p.skipped + [classified.item.identity], false, None), classified.message);
    } else if classified.AllDecided? {
      DecidedTracksFirst(cfg, unit, w, input, trackId, track, items, p, batch, classified.decided);
    }
  }

  lemma LabelsTrackFirst()
    ensures TrackFirst(StatusEffects(AgentReview))
  {
    hide StatusEffects;
    StatusIsCalls(AgentReview);
  }

  lemma PersistTracksFirst(input: RunInput, done: seq<Effect>, trackId: Option<int>, t: ReviewTrack)
    ensures TrackFirst(done + [PersistTrack(input, trackId, t)])
  {
  }

  lemma DecidedTracksFirst(
    cfg: ReviewConfig, unit: WorkUnit, w: World, input: RunInput, trackId: Option<int>, track: ReviewTrack,
    items: seq<Feedback>, p: Partition, batch: seq<Feedback>, decided: seq<Decided>)
    ensures
      var done := StatusEffects(AgentReview);
      TrackFirst(DecidedPlan(cfg, unit, w, input, done, trackId, track, items, p, batch, decided).effects)
  {
    hide EscalatePlan, ConvergencePlan, StatusEffects, WithProcessed, FirstEscalation, AcceptedItems, TrackFirst;
    var done := StatusEffects(AgentReview);
    var updated := WithProcessed(track, p.skipped + IdentitiesOf(batch), false, None);
    var accepted := AcceptedItems(decided);
    if FirstEscalation(decided).Some? {
      EscalationTracksFirst(cfg, w, input, done, trackId, updated, FirstEscalation(decided).value);
    } else if accepted == [] {
      PersistTracksFirst(input, done, trackId, updated);
      ConvergenceTracksFirst(input, done + [PersistTrack(input, trackId, updated)], PersistedId(input, trackId), updated, items);
    } else if track.reviewAttempts >= ReviewAttemptLimit(cfg, unit) {
      EscalationTracksFirst(cfg, w, input, done, trackId, updated, "review_attempt_limit reached");
    } else {
      var persist := PersistTrack(input, trackId, WithProcessed(track, p.skipped + IdentitiesOf(batch), true, Some(input.head)));
      FixPostsNothing(done, persist, IdentitiesOf(accepted));
    }
  }

  lemma FixPostsNothing(done: seq<Effect>, persist: Effect, accepted: seq<string>)
    ensures TrackFirst(done + [persist, StartFix(accepted)])
    ensures TrackFirst(done + [persist, StartFix(accepted)] + [PushFix(accepted)])
    ensures TrackFirst(done + [persist, StartFix(accepted)] + [PushFix(accepted)] + StatusEffects(AgentReview))
  {
    hide StatusEffects;
    StatusIsCalls(AgentReview);
  }

  lemma PlanTracksFirst(cfg: ReviewConfig, unit: WorkUnit, w: World, input: RunInput)
    ensures TrackFirst(ReviewPlan(cfg, unit, w, input).effects)
  {
    hide EscalatePlan, CompletedPlan, StatusEffects, LoadReviewTrack, TrackFirst;
    LabelsTrackFirst();
    NothingTracksFirst();
    var loaded := LoadReviewTrack(w.own + w.foreign, cfg.trackAuthor, unit.identity);
    if loaded.Ok? {
      var (trackId, track) := loaded.value;
      CompletedTracksFirst(cfg, unit, w, input, trackId, track);
      EscalationTracksFirst(cfg, w, input, [], trackId, track, "CodeRabbit terminal is " + TerminalName(input.terminal));
    }
  }

  lemma NothingTracksFirst()
    ensures TrackFirst([])
  {
  }

  lemma {:induction false} TrackIsKept(r: Record, effects: seq<Effect>)
    requires r.track.Some? || exists i :: 0 <= i < |effects| && TrackOf(effects[i]).Some?
    ensures Steps(r, effects).track.Some?
    decreases |effects|
  {
    if effects != [] {
      if r.track.None? && TrackOf(effects[0]).None? {
        var i :| 0 <= i < |effects| && TrackOf(effects[i]).Some?;
        assert TrackOf(effects[1..][i - 1]).Some?;
      }
      TrackIsKept(Step(r, effects[0]), effects[1..]);
    }
  }

  /** A plan is allowed unless it escalates and its notice may quote the marker. */
  lemma UnquotedPlanAllowed(cfg: ReviewConfig, unit: WorkUnit, w: World, r: Record, input: RunInput)
    requires Represents(cfg, w, r) && RecordInv(cfg, unit, r) && ValidUnit(unit) && ValidInput(input, r.ids)
    ensures
      var plan := ReviewPlan(cfg, unit, w, input);
      plan.exit.Returned? && (plan.exit.outcome == ReviewEscalated ==> Quiet(input)) ==> AllAllowed(cfg, unit, r, plan.effects)
  {
    hide ReviewPlan, Represents, RecordInv, ValidUnit, HasMarker, ValidInput;
    SilencedPlan(cfg, unit, w, input);
    SilencedIsQuiet(input);
    SilencedIsValid(input, r.ids);
    PlanAllowed(cfg, unit, w, r, Silenced(input));
    if Quiet(input) { PlanAllowed(cfg, unit, w, r, input); }
  }

  lemma SilencedIsValid(input: RunInput, ids: set<int>)
    ensures ValidInput(Silenced(input), ids) <==> ValidInput(input, ids)
  {
  }

  // ---------- A marker that is not our track ----------

  /** Loading refuses these comments of ours, whatever others add. */
  ghost predicate Unsafe(own: seq<Comment>, author: string, identity: WorkUnitIdentity) {
    var found := FindTracks(own, author, identity);
    found.Err? || |found.value| > 1
  }

  lemma {:induction false} UnsafeStays(own: seq<Comment>, more: seq<Comment>, author: string, identity: WorkUnitIdentity)
    requires Unsafe(own, author, identity)
    ensures Unsafe(own + more, author, identity)
  {
    hide HasMarker, ParseReviewTrack;
    if more == [] {
      assert own + more == own;
    } else {
      var n := |more| - 1;
      UnsafeStays(own, more[..n], author, identity);
      assert (own + more)[..|own| + n] == own + more[..n] && (own + more)[|own| + n] == more[n];
    }
  }

  lemma UnsafeRefuses(own: seq<Comment>, more: seq<Comment>, author: string, identity: WorkUnitIdentity)
    requires Unsafe(own, author, identity)
    ensures LoadReviewTrack(own + more, author, identity) == Err(UNSAFE_REVIEW_TRACK)
  {
    hide HasMarker, ParseReviewTrack;
    UnsafeStays(own, more, author, identity);
    RefusalIsUnsafe(own + more, author, identity);
  }

  lemma {:induction false} RefusalIsUnsafe(comments: seq<Comment>, author: string, identity: WorkUnitIdentity)
    ensures FindTracks(comments, author, identity).Err? ==> FindTracks(comments, author, identity) == Err(UNSAFE_REVIEW_TRACK)
  {
    hide HasMarker, ParseReviewTrack;
    if comments != [] { RefusalIsUnsafe(comments[..|comments| - 1], author, identity); }
  }

  /** Every later load refuses; the fixes started so far were within bounds. */
  ghost predicate Poisoned(cfg: ReviewConfig, unit: WorkUnit, w: World) {
    && Unsafe(w.own, cfg.trackAuthor, unit.identity)
    && WithinLimit(cfg, unit, w.fixes, w.pushed)
  }

  /** The comments spell out a record, or every load refuses them. */
  ghost predicate Protected(cfg: ReviewConfig, unit: WorkUnit, w: World) {
    Durable(cfg, unit, w) || Poisoned(cfg, unit, w)
  }

  lemma RefusingRun(cfg: ReviewConfig, unit: WorkUnit, w: World, input: RunInput)
    requires Poisoned(cfg, unit, w)
    ensures ReviewPlan(cfg, unit, w, input).effects == [] && ReviewPlan(cfg, unit, w, input).exit.Raised?
  {
    hide LoadReviewTrack, CompletedPlan, EscalatePlan;
    UnsafeRefuses(w.own, w.foreign, cfg.trackAuthor, unit.identity);
  }

  /** The body reads as a track of this unit. */
  predicate ReadsAsTrack(unit: WorkUnit, body: string) {
    ParseReviewTrack(body).Some? && ParseReviewTrack(body).value.identity == unit.identity
  }

  /** One more comment of ours, whatever it says. */
  lemma NoticePosted(cfg: ReviewConfig, unit: WorkUnit, w: World, r: Record, id: int, body: string)
    requires Represents(cfg, w, r) && RecordInv(cfg, unit, r) && id !in r.ids
    ensures
      var e := PostNotice(id, body);
      var w' := ApplyEffect(cfg, w, e);
      || Poisoned(cfg, unit, w')
      || (exists r' :: Represents(cfg, w', r') && RecordInv(cfg, unit, r') && r'.ids == r.ids + {id})
    ensures
      var e := PostNotice(id, body);
      r.track.Some? || !ReadsAsTrack(unit, body) ==> Recorded(cfg, unit, ApplyEffect(cfg, w, e), Step(r, e))
  {
    hide WellFormedTrack, HasMarker, ParseReviewTrack, RecordInv, Represents, Poisoned;
    if !HasMarker(body) {
      QuietNotice(cfg, unit, w, r, id, body);
    } else if r.track.None? && ReadsAsTrack(unit, body) {
      ForgedTrack(cfg, unit, w, r, id, body);
    } else {
      PoisonousNotice(cfg, unit, w, r, id, body);
    }
  }

  /** The comments spell out this record, or every load refuses them. */
  ghost predicate Recorded(cfg: ReviewConfig, unit: WorkUnit, w: World, r: Record) {
    Poisoned(cfg, unit, w) || (Represents(cfg, w, r) && RecordInv(cfg, unit, r))
  }

  /**
   * The fate of a notice: every later load refuses, whatever is added, if and only if the notice
   * holds the marker and is not read as the first track of this unit. Otherwise loading finds the
   * track there was, or the forged one.
   */
  lemma NoticeFate(cfg: ReviewConfig, unit: WorkUnit, w: World, r: Record, id: int, body: string)
    requires Represents(cfg, w, r) && RecordInv(cfg, unit, r) && id !in r.ids
    ensures
      var own := ApplyEffect(cfg, w, PostNotice(id, body)).own;
      && ((forall more :: LoadReviewTrack(own + more, cfg.trackAuthor, unit.identity) == Err(UNSAFE_REVIEW_TRACK)) <==>
            HasMarker(body) && !(r.track.None? && ReadsAsTrack(unit, body)))
      && (!HasMarker(body) ==> LoadReviewTrack(own, cfg.trackAuthor, unit.identity) == Ok(Loaded(r, unit.identity)))
      && (r.track.None? && ReadsAsTrack(unit, body) ==>
            LoadReviewTrack(own, cfg.trackAuthor, unit.identity) == Ok((Some(id), ParseReviewTrack(body).value)))
  {
    hide HasMarker, ParseReviewTrack, RecordInv, Represents, LoadReviewTrack, FindTracks;
    var w' := ApplyEffect(cfg, w, PostNotice(id, body));
    if r.track.None? && ReadsAsTrack(unit, body) {
      ParsedHasMarker(body);
      ForgedTrack(cfg, unit, w, r, id, body);
      LoadsAlone(cfg, unit, w', r.(track := Some((id, ParseReviewTrack(body).value)), ids := r.ids + {id}));
    } else if HasMarker(body) {
      PoisonousNotice(cfg, unit, w, r, id, body);
      forall more ensures LoadReviewTrack(w'.own + more, cfg.trackAuthor, unit.identity) == Err(UNSAFE_REVIEW_TRACK) {
        UnsafeRefuses(w'.own, more, cfg.trackAuthor, unit.identity);
      }
    } else {
      QuietNotice(cfg, unit, w, r, id, body);
      LoadsAlone(cfg, unit, w', Step(r, PostNotice(id, body)));
    }
  }

  /** Our own comments load as the record. */
  lemma LoadsAlone(cfg: ReviewConfig, unit: WorkUnit, w: World, r: Record)
    requires Represents(cfg, w, r) && RecordInv(cfg, unit, r)
    ensures LoadReviewTrack(w.own + [], cfg.trackAuthor, unit.identity) == Ok(Loaded(r, unit.identity))
    ensures LoadReviewTrack(w.own, cfg.trackAuthor, unit.identity) == Ok(Loaded(r, unit.identity))
  {
    hide RecordInv, LoadReviewTrack, HasMarker;
    NewForeign(cfg, w, r, []);
    LoadReadsRecord(cfg, unit, w.(foreign := []), r);
    assert w.own + [] == w.own;
  }

  lemma QuietNotice(cfg: ReviewConfig, unit: WorkUnit, w: World, r: Record, id: int, body: string)
    requires Represents(cfg, w, r) && RecordInv(cfg, unit, r) && id !in r.ids && !HasMarker(body)
    ensures
      var e := PostNotice(id, body);
      && Represents(cfg, ApplyEffect(cfg, w, e), Step(r, e)) && RecordInv(cfg, unit, Step(r, e))
      && Step(r, e).ids == r.ids + {id}
  {
    hide RecordInv, Represents, HasMarker;
    StepKeeps(cfg, unit, w, r, PostNotice(id, body));
  }

  /** A notice that reads as our track, when there is none yet, becomes it. */
  lemma ForgedTrack(cfg: ReviewConfig, unit: WorkUnit, w: World, r: Record, id: int, body: string)
    requires Represents(cfg, w, r) && RecordInv(cfg, unit, r) && id !in r.ids && r.track.None?
    requires ReadsAsTrack(unit, body)
    ensures
      var r' := r.(track := Some((id, ParseReviewTrack(body).value)), ids := r.ids + {id});
      Represents(cfg, ApplyEffect(cfg, w, PostNotice(id, body)), r') && RecordInv(cfg, unit, r')
  {
    hide WellFormedTrack, HasMarker, ParseReviewTrack, ReviewAttemptLimit, RecordInv;
    var w' := ApplyEffect(cfg, w, PostNotice(id, body));
    assert TrackAt(w'.own, |w.own|, id, ParseReviewTrack(body).value);
    ParsedIsWellFormed(body);
    ForgedRecord(cfg, unit, r, id, ParseReviewTrack(body).value);
  }

  /** Any other notice with the marker makes every later load refuse. */
  lemma PoisonousNotice(cfg: ReviewConfig, unit: WorkUnit, w: World, r: Record, id: int, body: string)
    requires Represents(cfg, w, r) && RecordInv(cfg, unit, r) && HasMarker(body)
    requires !(r.track.None? && ReadsAsTrack(unit, body))
    ensures Poisoned(cfg, unit, ApplyEffect(cfg, w, PostNotice(id, body)))
  {
    OwnTracks(cfg, unit, w, r);
    RecordFixes(cfg, unit, r);
    WorldFixes(cfg, w, r);
    hide RecordInv, Represents, HasMarker, ParseReviewTrack;
    var w' := ApplyEffect(cfg, w, PostNotice(id, body));
    assert w'.own[..|w.own|] == w.own && w'.own[|w.own|] == Comment(id, cfg.trackAuthor, body);
  }

  lemma WorldFixes(cfg: ReviewConfig, w: World, r: Record)
    requires Represents(cfg, w, r)
    ensures w.fixes == r.fixes && w.pushed == r.pushed
  {
  }

  lemma RecordFixes(cfg: ReviewConfig, unit: WorkUnit, r: Record)
    requires RecordInv(cfg, unit, r)
    ensures WithinLimit(cfg, unit, r.fixes, r.pushed)
  {
  }

  lemma ForgedRecord(cfg: ReviewConfig, unit: WorkUnit, r: Record, id: int, t: ReviewTrack)
    requires RecordInv(cfg, unit, r) && r.track.None? && WellFormedTrack(t) && t.identity == unit.identity
    ensures RecordInv(cfg, unit, r.(track := Some((id, t)), ids := r.ids + {id}))
  {
  }

  /** What loading finds among our own comments. */
  lemma OwnTracks(cfg: ReviewConfig, unit: WorkUnit, w: World, r: Record)
    requires Represents(cfg, w, r) && RecordInv(cfg, unit, r)
    ensures FindTracks(w.own, cfg.trackAuthor, unit.identity) == Ok(if r.track.Some? then [r.track.value] else [])
  {
    hide HasMarker, WellFormedTrack, ParseReviewTrack, ReviewAttemptLimit;
    if r.track.None? {
      FindOwn(w.own, cfg.trackAuthor, unit.identity);
    } else {
      var k :| TrackAt(w.own, k, r.track.value.0, r.track.value.1);
      FindOwnTrack(w.own, cfg.trackAuthor, unit.identity, k, r.track.value.0, r.track.value.1);
    }
  }

  /** Label calls and notices keep a refused pull request refused. */
  lemma {:induction false} PoisonStays(cfg: ReviewConfig, unit: WorkUnit, w: World, effects: seq<Effect>)
    requires Poisoned(cfg, unit, w)
    requires forall i :: 0 <= i < |effects| ==> effects[i].LabelCall? || effects[i].PostNotice?
    ensures Poisoned(cfg, unit, ApplyEffects(cfg, w, effects))
    decreases |effects|
  {
    hide FindTracks;
    if effects != [] {
      var w' := ApplyEffect(cfg, w, effects[0]);
      if effects[0].PostNotice? {
        UnsafeStays(w.own, [Comment(effects[0].id, cfg.trackAuthor, effects[0].body)], cfg.trackAuthor, unit.identity);
      }
      PoisonStays(cfg, unit, w', effects[1..]);
    }
  }

  // ---------- Status labels, whatever is refused ----------

  /** Status changes and notices keep a status label set, wherever they stop. */
  lemma ControlPlaneKeepsStatus(cfg: ReviewConfig, w: World, c: ControlPlane)
    requires HasStatus(w.labels)
    ensures HasStatus(ApplyEffects(cfg, w, ControlPlaneEffects(c)).labels)
  {
    hide StatusSteps, HasStatus;
    var target := if c.failed then AgentFailed else AgentEscalated;
    var calls := Prefix(StatusEffects(target), c.labelCalls);
    var notice := if c.notice.Some? then [PostNotice(c.noticeCommentId, c.notice.value)] else [];
    ApplyAppend(cfg, w, calls, notice);
    NoticeLabels(cfg, ApplyEffects(cfg, w, calls), notice);
    var k := if c.labelCalls <= |StatusSteps(target)| then c.labelCalls else |StatusSteps(target)|;
    assert calls == LabelEffects(StatusSteps(target)[..k]);
    LabelCallsApply(cfg, w, StatusSteps(target)[..k]);
    StatusStepsShape(target);
    StatusRemains(w.labels, target, k);
  }

  lemma NoticeLabels(cfg: ReviewConfig, w: World, notice: seq<Effect>)
    requires notice == [] || (|notice| == 1 && notice[0].PostNotice?)
    ensures ApplyEffects(cfg, w, notice).labels == w.labels
  {
    if notice != [] { assert notice[1..] == []; }
  }

  lemma {:induction false} LabelCallsApply(cfg: ReviewConfig, w: World, steps: seq<LabelStep>)
    ensures ApplyEffects(cfg, w, LabelEffects(steps)) == w.(labels := ApplySteps(w.labels, steps))
    decreases |steps|
  {
    if steps != [] {
      assert LabelEffects(steps)[1..] == LabelEffects(steps[1..]);
      LabelCallsApply(cfg, ApplyEffect(cfg, w, LabelCall(steps[0])), steps[1..]);
    }
  }

  lemma StatusRemains(labels: set<Label>, target: Label, k: nat)
    requires HasStatus(labels) && Exclusive(target) && k <= |StatusSteps(target)|
    ensures HasStatus(ApplySteps(labels, StatusSteps(target)[..k]))
  {
    hide StatusSteps, ApplySteps;
    LabelChangeIsSafe(labels, target, k);
    if k == 0 { NoSteps(labels, target); } else { assert target in AfterCalls(labels, target, k); }
  }

  lemma NoSteps(labels: set<Label>, target: Label)
    ensures ApplySteps(labels, StatusSteps(target)[..0]) == labels
  {
  }

  // ---------- Histories ----------

  /** The failure handling of a run, from a protected pull request. */
  lemma ControlPlaneKeeps(cfg: ReviewConfig, unit: WorkUnit, w: World, c: ControlPlane)
    requires Protected(cfg, unit, w) && c.noticeCommentId !in IdsOf(w)
    ensures Protected(cfg, unit, ApplyEffects(cfg, w, ControlPlaneEffects(c)))
  {
    hide StatusSteps, Represents, RecordInv, Unsafe, HasMarker;
    var effects := ControlPlaneEffects(c);
    if Poisoned(cfg, unit, w) {
      PoisonStays(cfg, unit, w, effects);
    } else {
      var r :| Describes(cfg, unit, w, r);
      var silent := c.(notice := None);
      var calls := ControlPlaneEffects(silent);
      ControlPlaneAllowed(cfg, unit, r, silent);
      EffectsKeep(cfg, unit, w, r, calls);
      LabelCallsKeepIds(r, calls);
      var mid, r1 := ApplyEffects(cfg, w, calls), Steps(r, calls);
      ApplyAppend(cfg, w, calls, effects[|calls|..]);
      assert effects == calls + effects[|calls|..];
      if c.notice.Some? {
        NoticeKeeps(cfg, unit, mid, r1, c.noticeCommentId, c.notice.value);
        assert effects[|calls|..] == [PostNotice(c.noticeCommentId, c.notice.value)] && effects[|calls|..][1..] == [];
      } else {
        assert effects[|calls|..] == [];
        Redescribe(cfg, unit, mid, r1);
      }
    }
  }

  lemma NoticeKeeps(cfg: ReviewConfig, unit: WorkUnit, w: World, r: Record, id: int, body: string)
    requires Represents(cfg, w, r) && RecordInv(cfg, unit, r) && id !in r.ids
    ensures Protected(cfg, unit, ApplyEffect(cfg, w, PostNotice(id, body)))
  {
    hide Represents, RecordInv, Poisoned;
    NoticePosted(cfg, unit, w, r, id, body);
    var w' := ApplyEffect(cfg, w, PostNotice(id, body));
    if !Poisoned(cfg, unit, w') {
      var r' :| Represents(cfg, w', r') && RecordInv(cfg, unit, r');
      Redescribe(cfg, unit, w', r');
    }
  }

  /** The effects of a plan, cut anywhere: what they do to the record, whatever the notice says. */
  lemma PlanRecorded(cfg: ReviewConfig, unit: WorkUnit, w: World, r: Record, input: RunInput, cut: nat)
    requires Describes(cfg, unit, w, r) && ValidUnit(unit) && ValidInput(input, IdsOf(w))
    ensures
      var done := Prefix(ReviewPlan(cfg, unit, w, input).effects, cut);
      var after := ApplyEffects(cfg, w, done);
      && Recorded(cfg, unit, after, Steps(r, done))
      && (HasStatus(w.labels) ==> HasStatus(after.labels))
  {
    hide ReviewPlan, Represents, RecordInv, Unsafe, HasMarker, HasStatus, Poisoned, ValidUnit, Recorded;
    var effects := ReviewPlan(cfg, unit, w, input).effects;
    var done := Prefix(effects, cut);
    FrontAllowed(cfg, unit, w, r, input);
    var front := BeforeNotice(effects);
    if done == effects && effects != front {
      EffectsKeep(cfg, unit, w, r, front);
      var notice := effects[|effects| - 1];
      PlanTracksFirst(cfg, unit, w, input);
      TrackIsKept(r, front);
      NoticeRecorded(cfg, unit, w, r, front, notice);
    } else {
      assert done == Prefix(front, cut);
      AllowedPrefix(cfg, unit, r, front, cut);
      EffectsKeep(cfg, unit, w, r, done);
      IsRecorded(cfg, unit, ApplyEffects(cfg, w, done), Steps(r, done));
    }
  }

  lemma IsRecorded(cfg: ReviewConfig, unit: WorkUnit, w: World, r: Record)
    requires Represents(cfg, w, r) && RecordInv(cfg, unit, r)
    ensures Recorded(cfg, unit, w, r)
  {
  }

  /** A notice after other effects, where it cannot be read as the first track. */
  lemma NoticeRecorded(cfg: ReviewConfig, unit: WorkUnit, w: World, r: Record, front: seq<Effect>, notice: Effect)
    requires Represents(cfg, ApplyEffects(cfg, w, front), Steps(r, front)) && RecordInv(cfg, unit, Steps(r, front))
    requires notice.PostNotice? && notice.id !in Steps(r, front).ids
    requires Steps(r, front).track.Some? || !ReadsAsTrack(unit, notice.body)
    ensures
      var after := ApplyEffects(cfg, w, front + [notice]);
      && Recorded(cfg, unit, after, Steps(r, front + [notice]))
      && after.labels == ApplyEffects(cfg, w, front).labels
  {
    hide Represents, RecordInv, Recorded, ReadsAsTrack;
    ApplyAppend(cfg, w, front, [notice]);
    AllowedAppend(cfg, unit, r, front, [notice]);
    assert [notice][1..] == [];
    NoticePosted(cfg, unit, ApplyEffects(cfg, w, front), Steps(r, front), notice.id, notice.body);
  }

  /** The effects of a plan, cut anywhere, from a protected pull request. */
  lemma PlanKeeps(cfg: ReviewConfig, unit: WorkUnit, w: World, input: RunInput, cut: nat)
    requires Protected(cfg, unit, w) && ValidUnit(unit) && ValidInput(input, IdsOf(w))
    ensures
      var after := ApplyEffects(cfg, w, Prefix(ReviewPlan(cfg, unit, w, input).effects, cut));
      Protected(cfg, unit, after) && (HasStatus(w.labels) ==> HasStatus(after.labels))
  {
    hide ReviewPlan, Represents, RecordInv, Unsafe, HasMarker, HasStatus, Poisoned, ValidUnit;
    var done := Prefix(ReviewPlan(cfg, unit, w, input).effects, cut);
    if Poisoned(cfg, unit, w) {
      RefusingRun(cfg, unit, w, input);
    } else {
      var r :| Describes(cfg, unit, w, r);
      PlanRecorded(cfg, unit, w, r, input, cut);
      var after := ApplyEffects(cfg, w, done);
      if !Poisoned(cfg, unit, after) { Redescribe(cfg, unit, after, Steps(r, done)); }
    }
  }

  /** The failure handling, where its notice cannot be read as the first track. */
  lemma HandlingRecorded(cfg: ReviewConfig, unit: WorkUnit, w: World, r: Record, c: ControlPlane)
    requires Describes(cfg, unit, w, r) && c.noticeCommentId !in IdsOf(w)
    requires c.notice.None? || r.track.Some? || !ReadsAsTrack(unit, c.notice.value)
    ensures Recorded(cfg, unit, ApplyEffects(cfg, w, ControlPlaneEffects(c)), Steps(r, ControlPlaneEffects(c)))
  {
    hide StatusSteps, Represents, RecordInv, HasMarker, Recorded, ReadsAsTrack;
    var silent := c.(notice := None);
    var calls := ControlPlaneEffects(silent);
    ControlPlaneAllowed(cfg, unit, r, silent);
    EffectsKeep(cfg, unit, w, r, calls);
    LabelCallsKeepIds(r, calls);
    if c.notice.Some? {
      assert ControlPlaneEffects(c) == calls + [PostNotice(c.noticeCommentId, c.notice.value)];
      if r.track.Some? { TrackIsKept(r, calls); }
      NoticeRecorded(cfg, unit, w, r, calls, PostNotice(c.noticeCommentId, c.notice.value));
    } else {
      assert ControlPlaneEffects(c) == calls;
      IsRecorded(cfg, unit, ApplyEffects(cfg, w, calls), Steps(r, calls));
    }
  }

  /** The notice of the failure handling does not become the first track. */
  ghost predicate Unforged(cfg: ReviewConfig, unit: WorkUnit, w: World, r: Record, run: ReviewRun) {
    var planned := Steps(r, Prefix(ReviewPlan(cfg, unit, w, run.input).effects, run.cut));
    run.controlPlane.Some? && run.controlPlane.value.notice.Some? ==>
      planned.track.Some? || !ReadsAsTrack(unit, run.controlPlane.value.notice.value)
  }

  /** A run cut anywhere, its failure handling cut anywhere: the record it leaves, or a pull request that refuses. */
  lemma RunRecorded(cfg: ReviewConfig, unit: WorkUnit, w: World, r: Record, run: ReviewRun, foreign: seq<Comment>)
    requires Describes(cfg, unit, w, r) && ValidUnit(unit) && ValidRun(cfg, unit, w, run, foreign)
    requires Unforged(cfg, unit, w, r, run)
    ensures
      var after := AfterRun(cfg, unit, w, run, foreign);
      Poisoned(cfg, unit, after) || Describes(cfg, unit, after, RecordAfter(cfg, unit, w, r, run, foreign))
  {
    hide ReviewPlan, ControlPlaneEffects, Represents, RecordInv, Unsafe, ValidUnit, ValidInput, HasMarker, ReadsAsTrack, WithinLimit;
    var effects := Prefix(ReviewPlan(cfg, unit, w, run.input).effects, run.cut);
    PlanRecorded(cfg, unit, w, r, run.input, run.cut);
    var mid := ApplyEffects(cfg, w, effects);
    var planned := Steps(r, effects).(ids := IdsOf(mid));
    var handling := if run.controlPlane.Some? then ControlPlaneEffects(run.controlPlane.value) else [];
    ApplyAppend(cfg, w, effects, handling);
    var end := ApplyEffects(cfg, mid, handling);
    if Poisoned(cfg, unit, mid) {
      HandlingIsNotices(run.controlPlane);
      PoisonStays(cfg, unit, mid, handling);
    } else {
      Redescribe(cfg, unit, mid, Steps(r, effects));
      if run.controlPlane.Some? {
        HandlingRecorded(cfg, unit, mid, planned, run.controlPlane.value);
      }
      if !Poisoned(cfg, unit, end) {
        NewForeign(cfg, end, Steps(planned, handling), foreign);
        Redescribe(cfg, unit, end.(foreign := foreign), Steps(planned, handling));
      }
    }
  }

  lemma HandlingIsNotices(c: Option<ControlPlane>)
    ensures c.Some? ==> forall i :: 0 <= i < |ControlPlaneEffects(c.value)| ==>
              ControlPlaneEffects(c.value)[i].LabelCall? || ControlPlaneEffects(c.value)[i].PostNotice?
  {
    hide StatusSteps;
  }

  lemma ForeignKeeps(cfg: ReviewConfig, unit: WorkUnit, w: World, foreign: seq<Comment>)
    requires Protected(cfg, unit, w) && forall i :: 0 <= i < |foreign| ==> foreign[i].author != cfg.trackAuthor
    ensures Protected(cfg, unit, w.(foreign := foreign))
  {
    hide Represents, RecordInv, Unsafe;
    if !Poisoned(cfg, unit, w) {
      var r :| Describes(cfg, unit, w, r);
      NewForeign(cfg, w, r, foreign);
      Redescribe(cfg, unit, w.(foreign := foreign), r);
    }
  }

  /** A run cut anywhere, its failure handling cut anywhere, and any notices, keep the pull request protected. */
  lemma RunKeeps(cfg: ReviewConfig, unit: WorkUnit, w: World, run: ReviewRun, foreign: seq<Comment>)
    requires Protected(cfg, unit, w) && ValidUnit(unit) && ValidRun(cfg, unit, w, run, foreign)
    ensures Protected(cfg, unit, AfterRun(cfg, unit, w, run, foreign))
    ensures HasStatus(w.labels) ==> HasStatus(AfterRun(cfg, unit, w, run, foreign).labels)
  {
    hide Protected, ReviewPlan, ControlPlaneEffects, HasStatus, ValidUnit, ValidInput;
    var effects := Prefix(ReviewPlan(cfg, unit, w, run.input).effects, run.cut);
    PlanKeeps(cfg, unit, w, run.input, run.cut);
    var mid := ApplyEffects(cfg, w, effects);
    var after := if run.controlPlane.Some? then ControlPlaneEffects(run.controlPlane.value) else [];
    ApplyAppend(cfg, w, effects, after);
    if run.controlPlane.Some? {
      ControlPlaneKeeps(cfg, unit, mid, run.controlPlane.value);
      if HasStatus(mid.labels) { ControlPlaneKeepsStatus(cfg, mid, run.controlPlane.value); }
    }
    ForeignKeeps(cfg, unit, ApplyEffects(cfg, mid, after), foreign);
  }

  lemma {:induction false} RunsKeep(cfg: ReviewConfig, unit: WorkUnit, w: World, runs: seq<(ReviewRun, seq<Comment>)>)
    requires Protected(cfg, unit, w) && ValidUnit(unit) && ValidRuns(cfg, unit, w, runs)
    ensures Protected(cfg, unit, AfterRuns(cfg, unit, w, runs))
    ensures HasStatus(w.labels) ==> HasStatus(AfterRuns(cfg, unit, w, runs).labels)
    decreases |runs|
  {
    hide Protected, ValidRun, ValidUnit, AfterRun, HasStatus;
    if runs != [] {
      RunKeeps(cfg, unit, w, runs[0].0, runs[0].1);
      RunsKeep(cfg, unit, AfterRun(cfg, unit, w, runs[0].0, runs[0].1), runs[1..]);
    }
  }

  /** At most one comment of ours carries the tracking marker. */
  ghost predicate OneMarker(w: World) {
    forall i, j :: 0 <= i < j < |w.own| ==> !HasMarker(w.own[i].body) || !HasMarker(w.own[j].body)
  }

  lemma DurableHasOneMarker(cfg: ReviewConfig, unit: WorkUnit, w: World)
    requires Durable(cfg, unit, w)
    ensures OneMarker(w)
  {
    hide HasMarker, ParseReviewTrack, RecordInv;
    var r :| Describes(cfg, unit, w, r);
    if r.track.Some? {
      var k :| TrackAt(w.own, k, r.track.value.0, r.track.value.1);
    }
  }

  /**
   * Main theorem. After any sequence of review runs on any heads, each crashed or failed after
   * any GitHub effect, and whatever text the notices carry: at most min(spec limit, config limit)
   * fixes were started, no feedback identity was accepted twice, and once an exclusive status
   * label was set one still is. At most one comment of ours carries the tracking marker, or every
   * later run refuses to load; while no notice quotes the marker it is the former.
   */
  lemma HistoriesAreSafe(cfg: ReviewConfig, unit: WorkUnit, w: World, runs: seq<(ReviewRun, seq<Comment>)>)
    requires Unreviewed(cfg, w) && ValidUnit(unit) && ValidRuns(cfg, unit, w, runs)
    ensures
      var end := AfterRuns(cfg, unit, w, runs);
      && |end.fixes| <= ReviewAttemptLimit(cfg, unit)
      && DisjointFixes(end.fixes)
      && |end.pushed| <= |end.fixes| && DisjointFixes(end.pushed) && (forall i :: 0 <= i < |end.pushed| ==> end.pushed[i] in end.fixes)
      && (HasStatus(w.labels) ==> HasStatus(end.labels))
      && (OneMarker(end) || forall more :: LoadReviewTrack(end.own + more, cfg.trackAuthor, unit.identity) == Err(UNSAFE_REVIEW_TRACK))
      && ((forall i :: 0 <= i < |runs| ==> QuietRun(runs[i].0)) ==> OneMarker(end))
  {
    hide HasMarker, HasStatus, ReviewAttemptLimit, ValidRuns, AfterRuns, WellFormedTrack, ParseReviewTrack, OneMarker, QuietRun,
         LoadReviewTrack, Unsafe;
    assert Describes(cfg, unit, w, Record(None, w.labels, [], [], IdsOf(w)));
    RunsKeep(cfg, unit, w, runs);
    var end := AfterRuns(cfg, unit, w, runs);
    if Poisoned(cfg, unit, end) {
      forall more ensures LoadReviewTrack(end.own + more, cfg.trackAuthor, unit.identity) == Err(UNSAFE_REVIEW_TRACK) {
        UnsafeRefuses(end.own, more, cfg.trackAuthor, unit.identity);
      }
    } else {
      DurableHasOneMarker(cfg, unit, end);
    }
    if forall i :: 0 <= i < |runs| ==> QuietRun(runs[i].0) {
      QuietRunsKeep(cfg, unit, w, runs);
      DurableHasOneMarker(cfg, unit, end);
    }
  }

  // ---------- A quoted marker ----------

  lemma NoEndNoTrack(body: string)
    requires !Contains(body, MARKER_END)
    ensures ParseReviewTrack(body).None?
  {
  }

  /** One comment of ours with the marker and no end marker makes every later load refuse. */
  lemma QuotedMarkerRefuses(own: seq<Comment>, rest: seq<Comment>, c: Comment, more: seq<Comment>, identity: WorkUnitIdentity)
    requires HasMarker(c.body) && !Contains(c.body, MARKER_END)
    ensures LoadReviewTrack(own + [c] + rest + more, c.author, identity) == Err(UNSAFE_REVIEW_TRACK)
  {
    hide HasMarker, ParseReviewTrack, LoadReviewTrack;
    NoEndNoTrack(c.body);
    assert (own + [c])[..|own|] == own && (own + [c])[|own|] == c;
    assert Unsafe(own + [c], c.author, identity);
    UnsafeStays(own + [c], rest, c.author, identity);
    UnsafeRefuses(own + [c] + rest, more, c.author, identity);
  }

  /** The notice of `_control_plane_failure`, `EscalationNotice.to_markdown`, for an error before a spec is known. */
  function FailureNotice(pullNumber: nat, reason: string, action: string, mentionLine: string): string {
    Join(NoticeHead(pullNumber) + ["- Reason: " + reason] + NoticeTail(action, mentionLine), "\n")
  }

  function NoticeHead(pullNumber: nat): seq<string> {
    ["## Agent escalation", "", "- Task ID: `pull-" + Decimal(pullNumber) + "`", "- Current Task: `none`"]
  }

  function NoticeTail(action: string, mentionLine: string): seq<string> {
    ["- Last Validation: `none`", "- Repair Attempts: 0", "- Required Human Action: " + action, "- Mention: " + mentionLine, ""]
  }

  lemma {:induction false} NoSuchChar(lines: seq<string>, c: char)
    requires c != '\n' && forall i :: 0 <= i < |lines| ==> c !in lines[i]
    ensures c !in Join(lines, "\n")
  {
    if |lines| > 1 { NoSuchChar(lines[1..], c); }
  }

  lemma NoAngleNoEnd(s: string)
    requires '>' !in s
    ensures !Contains(s, MARKER_END)
  {
    forall i ensures !OccursAt(s, MARKER_END, i) {
      if 0 <= i && i + 3 <= |s| { assert s[i..i + 3][2] == s[i + 2]; }
    }
  }

  /** A line of joined lines is found in the whole. */
  lemma LineInside(before: seq<string>, line: string, after: seq<string>, needle: string, at: nat)
    requires before != [] && after != [] && OccursAt(line, needle, at)
    ensures Find(Join(before + [line] + after, "\n"), needle, 0).Some?
  {
    JoinAppend(before + [line], after, "\n");
    JoinAppend(before, [line], "\n");
    var head := Join(before, "\n") + "\n";
    var tail := "\n" + Join(after, "\n");
    var whole := Join(before + [line] + after, "\n");
    assert whole == head + line + tail;
    assert whole[|head| + at..|head| + at + |needle|] == line[at..at + |needle|];
    assert OccursAt(whole, needle, |head| + at);
  }

  /** A failure notice quotes its reason: with a marker in it and no end marker, every later load refuses. */
  lemma NoticeQuotes(pullNumber: nat, before: string, after: string, action: string, mentionLine: string)
    requires '>' !in before && '>' !in after && '>' !in action && '>' !in mentionLine
    ensures
      var notice := FailureNotice(pullNumber, before + REVIEW_STATE_START + after, action, mentionLine);
      HasMarker(notice) && !Contains(notice, MARKER_END)
  {
    hide Join, HasMarker, NoticeHead, NoticeTail, Contains, Find;
    var reason := before + REVIEW_STATE_START + after;
    var line := "- Reason: " + reason;
    ReasonQuotes(before, after);
    HeadAndTail(pullNumber, action, mentionLine);
    var at := |"- Reason: "| + |before|;
    LineInside(NoticeHead(pullNumber), line, NoticeTail(action, mentionLine), REVIEW_STATE_START, at);
    var lines := NoticeHead(pullNumber) + [line] + NoticeTail(action, mentionLine);
    NoSuchChar(lines, '>');
    NoAngleNoEnd(Join(lines, "\n"));
    MarkerFound(FailureNotice(pullNumber, reason, action, mentionLine));
  }

  lemma MarkerFound(body: string)
    ensures HasMarker(body) <==> Find(body, REVIEW_STATE_START, 0).Some?
  {
  }

  lemma ReasonQuotes(before: string, after: string)
    requires '>' !in before && '>' !in after
    ensures
      var line := "- Reason: " + (before + REVIEW_STATE_START + after);
      '>' !in line && OccursAt(line, REVIEW_STATE_START, |"- Reason: "| + |before|)
  {
    var prefix, line := "- Reason: ", "- Reason: " + (before + REVIEW_STATE_START + after);
    var at := |prefix| + |before|;
    assert '>' !in prefix && '>' !in REVIEW_STATE_START;
    assert line[at..at + |REVIEW_STATE_START|] == REVIEW_STATE_START;
  }

  lemma NoAngleAppend(a: string, b: string)
    requires '>' !in a && '>' !in b
    ensures '>' !in a + b
  {
  }

  lemma HeadAndTail(pullNumber: nat, action: string, mentionLine: string)
    requires '>' !in action && '>' !in mentionLine
    ensures NoticeHead(pullNumber) != [] && forall i :: 0 <= i < |NoticeHead(pullNumber)| ==> '>' !in NoticeHead(pullNumber)[i]
    ensures NoticeTail(action, mentionLine) != [] && forall i :: 0 <= i < |NoticeTail(action, mentionLine)| ==> '>' !in NoticeTail(action, mentionLine)[i]
  {
    HeadLines(pullNumber);
    TailLines(action, mentionLine);
  }

  lemma HeadLines(pullNumber: nat)
    ensures NoticeHead(pullNumber) != [] && forall i :: 0 <= i < |NoticeHead(pullNumber)| ==> '>' !in NoticeHead(pullNumber)[i]
  {
    hide Decimal;
    var d := Decimal(pullNumber);
    forall i | 0 <= i < |d| ensures d[i] != '>' { assert IsDigit(d[i]); }
    NoAngleAppend("- Task ID: `pull-", d);
    NoAngleAppend("- Task ID: `pull-" + d, "`");
    var lines := NoticeHead(pullNumber);
    assert '>' !in lines[0] && '>' !in lines[1] && '>' !in lines[2] && '>' !in lines[3];
  }

  lemma TailLines(action: string, mentionLine: string)
    requires '>' !in action && '>' !in mentionLine
    ensures NoticeTail(action, mentionLine) != [] && forall i :: 0 <= i < |NoticeTail(action, mentionLine)| ==> '>' !in NoticeTail(action, mentionLine)[i]
  {
    NoAngleAppend("- Required Human Action: ", action);
    NoAngleAppend("- Mention: ", mentionLine);
    var lines := NoticeTail(action, mentionLine);
    assert '>' !in lines[0] && '>' !in lines[1];
    assert '>' !in lines[2];
    assert '>' !in lines[3] && '>' !in lines[4];
  }

  /** The spec path of the input: the tracking marker itself. */
  const MARKER_PATH := REVIEW_STATE_START

  lemma MarkerPathIsSafe()
    ensures PullBody.SafeFieldValue(MARKER_PATH) && Strip(MARKER_PATH) == MARKER_PATH
  {
    hide Contains;
    var p := MARKER_PATH;
    assert p[0] == '<' && p[|p| - 1] == 'e';
    StripOfTrimmed(p);
    assert '>' !in p;
    NoAngleNoEnd(p);
    forall i | 0 <= i < |p| ensures !LineBreak()(p[i]) {}
  }

  lemma MarkerPathIsName()
    ensures SpecPath.Collapse(MARKER_PATH) == Some(MARKER_PATH)
    ensures SpecPath.Posix(MARKER_PATH) == MARKER_PATH
  {
    hide SpecPath.Collapse, SpecPath.Segments;
    var p := MARKER_PATH;
    assert '/' !in p && '\\' !in p;
    SpecPath.PlainPath([p]);
    assert Join([p], "/") == p;
  }

  lemma MarkerPathEscapes()
    ensures SpecPath.CanonicalizeSpecPath(MARKER_PATH, "specs/tasks", _ => None) == Err("SPEC_PATH_OUT_OF_DIR")
  {
    MarkerPathIsSafe();
    MarkerPathIsName();
    hide SpecPath.Collapse, SpecPath.StripSlashes, SpecPath.Posix, Strip;
    var p := MARKER_PATH;
    assert p[0] == '<' && p[1] == '!';
    SpecPath.SpecsTasksDirectory();
    assert "specs/tasks" + "/" == "specs/tasks/" && "specs/tasks/"[0] == 's';
  }

  lemma MarkerPathReadBack(spec: TaskSpec, sections: PullBody.Sections)
    requires spec.specPath == MARKER_PATH && IdentityOf(spec).Some? && PullBody.SafeIdentityFields(IdentityOf(spec).value)
    ensures
      var marker := PullBody.ParseWorkUnitMarker(PullBody.BuildPrBody(spec, sections).value);
      marker.Some? && "spec_path" in marker.value && marker.value["spec_path"] == MARKER_PATH
  {
    hide PullBody.ParseWorkUnitMarker, PullBody.BuildPrBody, PullBody.SafeIdentityFields;
    PullBody.MarkerRoundTripIff(spec, sections);
  }

  /**
   * The counterexample for quoted markers. A pull-request body whose marker names this spec path
   * is read back with it; the path is refused; the run that fails on it posts a notice that
   * quotes it; and from then on every run refuses to load and has no effect of its own, for ever.
   */
  lemma MarkerPathPoisons(
    cfg: ReviewConfig, unit: WorkUnit, w: World, run: ReviewRun, foreign: seq<Comment>, later: RunInput,
    spec: TaskSpec, sections: PullBody.Sections, pullNumber: nat, action: string, mentionLine: string)
    requires '>' !in action && '>' !in mentionLine
    requires spec.specPath == MARKER_PATH && IdentityOf(spec).Some? && PullBody.SafeIdentityFields(IdentityOf(spec).value)
    requires run.input.setupError == Some("SPEC_PATH_OUT_OF_DIR") && run.controlPlane.Some?
    requires run.controlPlane.value.notice ==
             Some(FailureNotice(pullNumber, "spec path must be under specs/tasks/: " + MARKER_PATH, action, mentionLine))
    ensures
      var marker := PullBody.ParseWorkUnitMarker(PullBody.BuildPrBody(spec, sections).value);
      && marker.Some? && "spec_path" in marker.value && marker.value["spec_path"] == MARKER_PATH
      && SpecPath.CanonicalizeSpecPath(MARKER_PATH, "specs/tasks", _ => None) == Err("SPEC_PATH_OUT_OF_DIR")
    ensures
      var after := AfterRun(cfg, unit, w, run, foreign);
      && (forall more :: LoadReviewTrack(after.own + more, cfg.trackAuthor, unit.identity) == Err(UNSAFE_REVIEW_TRACK))
      && ReviewPlan(cfg, unit, after, later).effects == [] && ReviewPlan(cfg, unit, after, later).exit.Raised?
  {
    hide PullBody.ParseWorkUnitMarker, PullBody.BuildPrBody, FailureNotice, SpecPath.CanonicalizeSpecPath, AfterRun, ReviewPlan,
         LoadReviewTrack, PullBody.SafeIdentityFields;
    MarkerPathReadBack(spec, sections);
    MarkerPathEscapes();
    var reason := "spec path must be under specs/tasks/: ";
    assert reason + REVIEW_STATE_START + "" == reason + MARKER_PATH;
    NoticeQuotes(pullNumber, reason, "", action, mentionLine);
    FailedRunPoisons(cfg, unit, w, run, foreign, later);
  }

  /** A failed run whose notice has the marker and no end marker. */
  lemma FailedRunPoisons(cfg: ReviewConfig, unit: WorkUnit, w: World, run: ReviewRun, foreign: seq<Comment>, later: RunInput)
    requires run.input.setupError.Some? && run.controlPlane.Some? && run.controlPlane.value.notice.Some?
    requires var notice := run.controlPlane.value.notice.value; HasMarker(notice) && !Contains(notice, MARKER_END)
    ensures
      var after := AfterRun(cfg, unit, w, run, foreign);
      && (forall more :: LoadReviewTrack(after.own + more, cfg.trackAuthor, unit.identity) == Err(UNSAFE_REVIEW_TRACK))
      && ReviewPlan(cfg, unit, after, later).effects == [] && ReviewPlan(cfg, unit, after, later).exit.Raised?
  {
    hide HasMarker, LoadReviewTrack, CompletedPlan, EscalatePlan, AfterRun, Contains;
    var c := run.controlPlane.value;
    var notice := Comment(c.noticeCommentId, cfg.trackAuthor, c.notice.value);
    var after := AfterRun(cfg, unit, w, run, foreign);
    FailedRunPosts(cfg, unit, w, run, foreign);
    forall more ensures LoadReviewTrack(after.own + more, cfg.trackAuthor, unit.identity) == Err(UNSAFE_REVIEW_TRACK) {
      QuotedMarkerRefuses(w.own, [], notice, more, unit.identity);
      assert w.own + [notice] + [] + more == after.own + more;
    }
  }

  lemma FailedRunPosts(cfg: ReviewConfig, unit: WorkUnit, w: World, run: ReviewRun, foreign: seq<Comment>)
    requires run.input.setupError.Some? && run.controlPlane.Some? && run.controlPlane.value.notice.Some?
    ensures
      var c := run.controlPlane.value;
      AfterRun(cfg, unit, w, run, foreign).own == w.own + [Comment(c.noticeCommentId, cfg.trackAuthor, c.notice.value)]
  {
    hide LoadReviewTrack, CompletedPlan, EscalatePlan, StatusSteps;
    var c := run.controlPlane.value;
    var calls := Prefix(StatusEffects(if c.failed then AgentFailed else AgentEscalated), c.labelCalls);
    var post := PostNotice(c.noticeCommentId, c.notice.value);
    assert RunEffects(cfg, unit, w, run) == calls + [post];
    ApplyAppend(cfg, w, calls, [post]);
    LabelsOnly(cfg, w, calls);
    assert [post][1..] == [];
  }

  lemma {:induction false} LabelsOnly(cfg: ReviewConfig, w: World, effects: seq<Effect>)
    requires forall i :: 0 <= i < |effects| ==> effects[i].LabelCall?
    ensures ApplyEffects(cfg, w, effects).own == w.own
    decreases |effects|
  {
    if effects != [] { LabelsOnly(cfg, ApplyEffect(cfg, w, effects[0]), effects[1..]); }
  }
}
