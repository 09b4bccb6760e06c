/**
 * The pull request read as a record: at most one track, the labels, the fixes started.
 * Every effect a run makes is allowed from the record it acts on, and allowed effects keep
 * the record's invariant; the comments' text always parses back to the record.
 */
module ReviewRecord {
  import opened Wrappers
  import opened TaskGraph
  import opened ReviewTracking
  import opened Labels
  import opened ReviewLoop

  datatype Record = Record(
    track: Option<(int, ReviewTrack)>, labels: set<Label>, fixes: seq<seq<string>>, pushed: seq<seq<string>>, ids: set<int>)

  function Step(r: Record, e: Effect): Record {
    match e
    case CreateTrack(id, t) => r.(track := Some((id, t)), ids := r.ids + {id})
    case UpdateTrack(id, t) => r.(track := Some((id, t)))
    case LabelCall(step) => r.(labels := ApplyStep(r.labels, step))
    case StartFix(accepted) => r.(fixes := r.fixes + [accepted])
    case PushFix(accepted) => r.(pushed := r.pushed + [accepted])
    case PostNotice(id, _) => r.(ids := r.ids + {id})
  }

  /** The track that an effect writes. */
  function TrackOf(e: Effect): Option<ReviewTrack> {
    match e
    case CreateTrack(_, t) => Some(t)
    case UpdateTrack(_, t) => Some(t)
    case _ => None
  }

  function Steps(r: Record, effects: seq<Effect>): Record
    decreases |effects|
  {
    if effects == [] then r else Steps(Step(r, effects[0]), effects[1..])
  }

  /** The world's comments spell out the record. */
  ghost predicate Represents(cfg: ReviewConfig, w: World, r: Record) {
    && w.labels == r.labels
    && w.fixes == r.fixes && w.pushed == r.pushed
    && (forall i :: 0 <= i < |w.own| ==> w.own[i].id in r.ids && w.own[i].author == cfg.trackAuthor)
    && (forall i :: 0 <= i < |w.foreign| ==> w.foreign[i].author != cfg.trackAuthor)
    && (r.track.None? ==> forall i :: 0 <= i < |w.own| ==> !HasMarker(w.own[i].body))
    && (r.track.Some? ==> exists k :: TrackAt(w.own, k, r.track.value.0, r.track.value.1))
  }

  /** Comment `k` holds the track, and no other comment carries a marker or its id. */
  ghost predicate TrackAt(own: seq<Comment>, k: int, id: int, t: ReviewTrack) {
    && 0 <= k < |own|
    && own[k].id == id
    && ParseReviewTrack(own[k].body) == Some(t)
    && forall i :: 0 <= i < |own| && i != k ==> own[i].id != id && !HasMarker(own[i].body)
  }

  /** What every sequence of runs keeps of the record. */
  ghost predicate RecordInv(cfg: ReviewConfig, unit: WorkUnit, r: Record) {
    && (r.track.None? ==> r.fixes == [])
    && WithinLimit(cfg, unit, r.fixes, r.pushed)
    && (r.track.Some? ==>
          var t := r.track.value.1;
          && WellFormedTrack(t)
          && t.identity == unit.identity
          && |r.fixes| <= t.reviewAttempts
          && forall i, x :: 0 <= i < |r.fixes| && x in r.fixes[i] ==> x in t.processed)
  }

  /** At most the limit of fixes, only started ones pushed, and no identity in two of either. */
  ghost predicate WithinLimit(cfg: ReviewConfig, unit: WorkUnit, fixes: seq<seq<string>>, pushed: seq<seq<string>>) {
    && |pushed| <= |fixes| <= ReviewAttemptLimit(cfg, unit)
    && (forall i :: 0 <= i < |pushed| ==> pushed[i] in fixes)
    && DisjointFixes(fixes) && DisjointFixes(pushed)
  }

  /** No feedback identity was accepted by two fixes. */
  ghost predicate DisjointFixes(fixes: seq<seq<string>>) {
    forall i, j, x :: 0 <= i < j < |fixes| && x in fixes[i] ==> x !in fixes[j]
  }

  /** A track that may replace the record's: nothing processed is lost, no attempt given back. */
  ghost predicate Successor(cfg: ReviewConfig, unit: WorkUnit, r: Record, t: ReviewTrack) {
    && WellFormedTrack(t)
    && t.identity == unit.identity
    && (r.track.Some? ==>
          r.track.value.1.processed <= t.processed && r.track.value.1.reviewAttempts <= t.reviewAttempts)
  }

  ghost predicate Allowed(cfg: ReviewConfig, unit: WorkUnit, r: Record, e: Effect) {
    match e
    case CreateTrack(id, t) => r.track.None? && id !in r.ids && Successor(cfg, unit, r, t)
    case UpdateTrack(id, t) => r.track.Some? && id == r.track.value.0 && Successor(cfg, unit, r, t)
    case LabelCall(Add(_)) => true
    case LabelCall(Remove(l)) => exists other :: Exclusive(other) && other != l && other in r.labels
    case StartFix(accepted) =>
      && r.track.Some?
      && |r.fixes| < r.track.value.1.reviewAttempts && |r.fixes| < ReviewAttemptLimit(cfg, unit)
      && (forall x :: x in accepted ==> x in r.track.value.1.processed)
      && forall i, x :: 0 <= i < |r.fixes| && x in r.fixes[i] ==> x !in accepted
    case PushFix(accepted) =>
      && accepted in r.fixes && |r.pushed| < |r.fixes|
      && forall i, x :: 0 <= i < |r.pushed| && x in r.pushed[i] ==> x !in accepted
    case PostNotice(id, body) => id !in r.ids && !HasMarker(body)
  }

  ghost predicate AllAllowed(cfg: ReviewConfig, unit: WorkUnit, r: Record, effects: seq<Effect>)
    decreases |effects|
  {
    effects == [] || (Allowed(cfg, unit, r, effects[0]) && AllAllowed(cfg, unit, Step(r, effects[0]), effects[1..]))
  }

  /** Some exclusive status label is set. */
  ghost predicate HasStatus(labels: set<Label>) {
    exists l :: Exclusive(l) && l in labels
  }

  lemma ParsedHasMarker(body: string)
    requires ParseReviewTrack(body).Some?
    ensures HasMarker(body)
  {
  }

  /** An allowed effect keeps the invariant, the representation, and a status label. */
  lemma StepKeeps(cfg: ReviewConfig, unit: WorkUnit, w: World, r: Record, e: Effect)
    requires Represents(cfg, w, r) && RecordInv(cfg, unit, r) && Allowed(cfg, unit, r, e)
    ensures Represents(cfg, ApplyEffect(cfg, w, e), Step(r, e)) && RecordInv(cfg, unit, Step(r, e))
    ensures HasStatus(w.labels) ==> HasStatus(ApplyEffect(cfg, w, e).labels)
  {
    hide WellFormedTrack, HasMarker, RenderReviewTrack, ReviewAttemptLimit, ParseReviewTrack;
    var w' := ApplyEffect(cfg, w, e);
    match e
    case CreateTrack(id, t) =>
      TrackRoundTripIff(t);
      assert TrackAt(w'.own, |w.own|, id, t);
    case UpdateTrack(id, t) =>
      TrackRoundTripIff(t);
      var k :| TrackAt(w.own, k, r.track.value.0, r.track.value.1);
      assert TrackAt(w'.own, k, id, t);
      PrefixMembers(r.track.value.1.processed, t.processed);
    case LabelCall(step) =>
      if step.Remove? {
        var other :| Exclusive(other) && other != step.status && other in r.labels;
        assert other in w'.labels;
      } else if HasStatus(w.labels) {
        var l :| Exclusive(l) && l in w.labels;
        assert l in w'.labels;
      }
      KeepsTrack(w.own, w'.own, r);
    case StartFix(accepted) =>
      KeepsTrack(w.own, w'.own, r);
    case PushFix(accepted) =>
      KeepsTrack(w.own, w'.own, r);
    case PostNotice(id, body) =>
      if r.track.Some? {
        var k :| TrackAt(w.own, k, r.track.value.0, r.track.value.1);
        assert w.own[k].id in r.ids;
        assert TrackAt(w'.own, k, r.track.value.0, r.track.value.1);
      }
  }

  lemma PrefixMembers(a: seq<string>, b: seq<string>)
    requires a <= b
    ensures forall x :: x in a ==> x in b
  {
  }

  lemma KeepsTrack(own: seq<Comment>, own': seq<Comment>, r: Record)
    requires own == own'
    ensures r.track.Some? && (exists k :: TrackAt(own, k, r.track.value.0, r.track.value.1)) ==>
              exists k :: TrackAt(own', k, r.track.value.0, r.track.value.1)
  {
  }

  /** After any number of allowed effects. */
  lemma {:induction false} EffectsKeep(cfg: ReviewConfig, unit: WorkUnit, w: World, r: Record, effects: seq<Effect>)
    requires Represents(cfg, w, r) && RecordInv(cfg, unit, r) && AllAllowed(cfg, unit, r, effects)
    ensures Represents(cfg, ApplyEffects(cfg, w, effects), Steps(r, effects)) && RecordInv(cfg, unit, Steps(r, effects))
    ensures HasStatus(w.labels) ==> HasStatus(ApplyEffects(cfg, w, effects).labels)
    decreases |effects|
  {
    hide Represents, RecordInv, Allowed, HasStatus;
    if effects != [] {
      StepKeeps(cfg, unit, w, r, effects[0]);
      EffectsKeep(cfg, unit, ApplyEffect(cfg, w, effects[0]), Step(r, effects[0]), effects[1..]);
    }
  }

  lemma {:induction false} AllowedAppend(cfg: ReviewConfig, unit: WorkUnit, r: Record, a: seq<Effect>, b: seq<Effect>)
    ensures Steps(r, a + b) == Steps(Steps(r, a), b)
    ensures AllAllowed(cfg, unit, r, a + b) <==> AllAllowed(cfg, unit, r, a) && AllAllowed(cfg, unit, Steps(r, a), b)
    decreases |a|
  {
    if a == [] {
      assert a + b == b;
    } else {
      assert (a + b)[1..] == a[1..] + b;
      AllowedAppend(cfg, unit, Step(r, a[0]), a[1..], b);
    }
  }

  lemma AllowedPrefix(cfg: ReviewConfig, unit: WorkUnit, r: Record, effects: seq<Effect>, k: nat)
    requires AllAllowed(cfg, unit, r, effects)
    ensures AllAllowed(cfg, unit, r, Prefix(effects, k))
  {
    if k <= |effects| {
      assert effects == effects[..k] + effects[k..];
      AllowedAppend(cfg, unit, r, effects[..k], effects[k..]);
    }
  }

  /** A status change is allowed from any record, and only the labels move. */
  lemma StatusAllowed(cfg: ReviewConfig, unit: WorkUnit, r: Record, target: Label)
    requires Exclusive(target)
    ensures AllAllowed(cfg, unit, r, StatusEffects(target))
    ensures Steps(r, StatusEffects(target)) == r.(labels := ApplySteps(r.labels, StatusSteps(target)))
  {
    hide StatusSteps;
    StatusStepsShape(target);
    ChangeAllowed(cfg, unit, r, target, StatusSteps(target));
  }

  lemma ChangeAllowed(cfg: ReviewConfig, unit: WorkUnit, r: Record, target: Label, steps: seq<LabelStep>)
    requires Exclusive(target) && steps != [] && steps[0] == Add(target)
    requires forall i :: 1 <= i < |steps| ==> steps[i].Remove? && steps[i].status != target
    ensures AllAllowed(cfg, unit, r, LabelEffects(steps))
    ensures Steps(r, LabelEffects(steps)) == r.(labels := ApplySteps(r.labels, steps))
  {
    hide Exclusive;
    var r' := r.(labels := r.labels + {target});
    assert LabelEffects(steps)[0] == LabelCall(steps[0]) && LabelEffects(steps)[1..] == LabelEffects(steps[1..]);
    assert Step(r, LabelCall(steps[0])) == r';
    RemovalsAllowed(cfg, unit, r', target, steps[1..]);
  }

  lemma {:induction false} RemovalsAllowed(cfg: ReviewConfig, unit: WorkUnit, r: Record, target: Label, steps: seq<LabelStep>)
    requires Exclusive(target) && target in r.labels
    requires forall i :: 0 <= i < |steps| ==> steps[i].Remove? && steps[i].status != target
    ensures AllAllowed(cfg, unit, r, LabelEffects(steps))
    ensures Steps(r, LabelEffects(steps)) == r.(labels := ApplySteps(r.labels, steps))
    decreases |steps|
  {
    if steps != [] {
      var r' := Step(r, LabelCall(steps[0]));
      RemovalsAllowed(cfg, unit, r', target, steps[1..]);
      assert LabelEffects(steps)[1..] == LabelEffects(steps[1..]);
      assert Allowed(cfg, unit, r, LabelCall(steps[0]));
    }
  }

  // ---------- Loading reads the record ----------

  function Loaded(r: Record, identity: WorkUnitIdentity): (Option<int>, ReviewTrack) {
    if r.track.Some? then (Some(r.track.value.0), r.track.value.1) else (None, EmptyReviewTrack(identity))
  }

  lemma {:induction false} FindOwn(own: seq<Comment>, author: string, identity: WorkUnitIdentity)
    requires forall i :: 0 <= i < |own| ==> !HasMarker(own[i].body)
    ensures FindTracks(own, author, identity) == Ok([])
  {
    hide HasMarker, ParseReviewTrack;
    if own != [] { FindOwn(own[..|own| - 1], author, identity); }
  }

  lemma {:induction false} FindOwnTrack(own: seq<Comment>, author: string, identity: WorkUnitIdentity, k: int, id: int, t: ReviewTrack)
    requires TrackAt(own, k, id, t) && t.identity == identity
    requires forall i :: 0 <= i < |own| ==> own[i].author == author
    ensures FindTracks(own, author, identity) == Ok([(id, t)])
  {
    hide HasMarker, ParseReviewTrack, WellFormedTrack, RenderReviewTrack;
    var n := |own| - 1;
    var front := own[..n];
    if k == n {
      FindOwn(front, author, identity);
      ParsedHasMarker(own[n].body);
      assert [] + [(id, t)] == [(id, t)];
    } else {
      assert TrackAt(front, k, id, t);
      FindOwnTrack(front, author, identity, k, id, t);
    }
  }

  lemma {:induction false} FindForeign(own: seq<Comment>, foreign: seq<Comment>, author: string, identity: WorkUnitIdentity)
    requires forall i :: 0 <= i < |foreign| ==> foreign[i].author != author
    ensures
      var r := FindTracks(own + foreign, author, identity);
      r == Err(UNSAFE_REVIEW_TRACK) || r == FindTracks(own, author, identity)
  {
    hide HasMarker, ParseReviewTrack;
    if foreign == [] {
      assert own + foreign == own;
    } else {
      var n := |foreign| - 1;
      FindForeign(own, foreign[..n], author, identity);
      assert (own + foreign)[..|own| + n] == own + foreign[..n];
      assert (own + foreign)[|own| + n] == foreign[n];
    }
  }

  /** `load_review_track` refuses, or reads exactly the record; it never sees two tracks of ours. */
  lemma LoadReadsRecord(cfg: ReviewConfig, unit: WorkUnit, w: World, r: Record)
    requires Represents(cfg, w, r) && RecordInv(cfg, unit, r)
    ensures
      var loaded := LoadReviewTrack(w.own + w.foreign, cfg.trackAuthor, unit.identity);
      loaded == Err(UNSAFE_REVIEW_TRACK) || loaded == Ok(Loaded(r, unit.identity))
    ensures
      (forall i :: 0 <= i < |w.foreign| ==> !HasMarker(w.foreign[i].body)) ==>
        LoadReviewTrack(w.own + w.foreign, cfg.trackAuthor, unit.identity) == Ok(Loaded(r, unit.identity))
  {
    hide HasMarker, WellFormedTrack;
    FindForeign(w.own, w.foreign, cfg.trackAuthor, unit.identity);
    if r.track.None? {
      FindOwn(w.own, cfg.trackAuthor, unit.identity);
    } else {
      var k :| TrackAt(w.own, k, r.track.value.0, r.track.value.1);
      FindOwnTrack(w.own, cfg.trackAuthor, unit.identity, k, r.track.value.0, r.track.value.1);
    }
    if forall i :: 0 <= i < |w.foreign| ==> !HasMarker(w.foreign[i].body) {
      FindQuiet(w.own, w.foreign, cfg.trackAuthor, unit.identity);
    }
  }

  lemma {:induction false} FindQuiet(own: seq<Comment>, foreign: seq<Comment>, author: string, identity: WorkUnitIdentity)
    requires forall i :: 0 <= i < |foreign| ==> !HasMarker(foreign[i].body)
    ensures FindTracks(own + foreign, author, identity) == FindTracks(own, author, identity)
  {
    hide HasMarker, ParseReviewTrack;
    if foreign == [] {
      assert own + foreign == own;
    } else {
      var n := |foreign| - 1;
      FindQuiet(own, foreign[..n], author, identity);
      assert (own + foreign)[..|own| + n] == own + foreign[..n];
      assert (own + foreign)[|own| + n] == foreign[n];
    }
  }
}
