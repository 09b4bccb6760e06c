/** The durable review record kept in a pull-request comment, `agent/review_track.py`. */
module ReviewTracking {
  import opened Wrappers
  import opened PyText
  import opened Marker
  import opened TaskGraph

  const REVIEW_STATE_START := "<!-- md-agent-review-state"
  const SCHEMA_VERSION: nat := 2
  const KNOWN_KEYS := [
    "schema_version", "spec_id", "spec_path", "spec_sha256", "base_branch", "target_branch", "head_sha",
    "review_attempts"]

  datatype ReviewTrack = ReviewTrack(
    identity: WorkUnitIdentity,
    reviewAttempts: nat,
    processed: seq<string>,
    headSha: string,
    schemaVersion: nat)

  function EmptyReviewTrack(identity: WorkUnitIdentity): ReviewTrack {
    ReviewTrack(identity, 0, [], "", SCHEMA_VERSION)
  }

  /** `with_processed`: appends the new identities in order, without duplicates. */
  function WithProcessed(t: ReviewTrack, identities: seq<string>, increment: bool, headSha: Option<string>): ReviewTrack {
    t.(processed := Merge(t.processed, identities),
       reviewAttempts := if increment then t.reviewAttempts + 1 else t.reviewAttempts,
       headSha := if headSha.Some? then headSha.value else t.headSha)
  }

  function Merge(merged: seq<string>, identities: seq<string>): seq<string>
    decreases |identities|
  {
    if identities == [] then merged
    else Merge(if identities[0] in merged then merged else merged + [identities[0]], identities[1..])
  }

  method MergeProcessed(processed: seq<string>, identities: seq<string>) returns (merged: seq<string>)
    ensures merged == Merge(processed, identities)
  {
    merged := processed;
    for i := 0 to |identities|
      invariant Merge(merged, identities[i..]) == Merge(processed, identities)
    {
      assert identities[i..][1..] == identities[i + 1..];
      if identities[i] !in merged {
        merged := merged + [identities[i]];
      }
    }
  }

  /** Merging keeps what was there, adds exactly the new identities, and never duplicates. */
  lemma {:induction false} MergeAdds(merged: seq<string>, identities: seq<string>)
    ensures merged <= Merge(merged, identities)
    ensures forall x :: x in Merge(merged, identities) <==> x in merged || x in identities
    ensures (forall i, j :: 0 <= i < j < |merged| ==> merged[i] != merged[j]) ==>
              forall i, j :: 0 <= i < j < |Merge(merged, identities)| ==>
                Merge(merged, identities)[i] != Merge(merged, identities)[j]
    decreases |identities|
  {
    if identities != [] {
      MergeAdds(if identities[0] in merged then merged else merged + [identities[0]], identities[1..]);
    }
  }

  // ---------- Rendering ----------

  function TrackFields(t: ReviewTrack): seq<(string, string)> {
    [("schema_version", Decimal(t.schemaVersion)),
     ("spec_id", t.identity.specId),
     ("spec_path", t.identity.specPath),
     ("spec_sha256", t.identity.specSha256),
     ("base_branch", t.identity.baseBranch),
     ("target_branch", t.identity.targetBranch),
     ("head_sha", t.headSha),
     ("review_attempts", Decimal(t.reviewAttempts))]
  }

  function IdentityLines(ids: seq<string>): seq<string> {
    seq(|ids|, i requires 0 <= i < |ids| => "- " + ids[i])
  }

  function TrackLines(t: ReviewTrack): seq<string> {
    FieldLines(TrackFields(t)) + ["processed:"] + IdentityLines(t.processed)
  }

  const TRACK_TAIL := [MARKER_END, "", "Orchestrator review tracking. Do not edit."]

  function RenderReviewTrack(t: ReviewTrack): string {
    Join([REVIEW_STATE_START] + TrackLines(t) + TRACK_TAIL, "\n")
  }

  // ---------- Parsing ----------

  datatype ParseState = ParseState(fields: map<string, string>, processed: seq<string>, inProcessed: bool)

  const PARSE_START := ParseState(map[], [], false)

  /** One iteration of the parser's loop over lines. */
  function ParseLine(st: ParseState, raw: string): Option<ParseState> {
    var line := Strip(raw);
    if line == "" then Some(st)
    else if line == "processed:" then Some(st.(inProcessed := true))
    else if "- " <= line && st.inProcessed then
      var identity := Strip(line[2..]);
      Some(if identity != "" then st.(processed := st.processed + [identity]) else st)
    else
      match SplitField(line)
      case None => None
      case Some((key, value)) =>
        if key !in KNOWN_KEYS || key in st.fields then None
        else Some(st.(fields := st.fields[key := value], inProcessed := false))
  }

  function ParseLines(st: ParseState, lines: seq<string>): Option<ParseState>
    decreases |lines|
  {
    if lines == [] then Some(st)
    else
      match ParseLine(st, lines[0])
      case None => None
      case Some(next) => ParseLines(next, lines[1..])
  }

  function Field(fields: map<string, string>, key: string, default: string): string {
    if key in fields then fields[key] else default
  }

  /** The checks after the loop. */
  function FinishTrack(st: ParseState): Option<ReviewTrack> {
    var id := WorkUnitIdentity(
      Field(st.fields, "spec_id", ""), Field(st.fields, "spec_path", ""), Field(st.fields, "spec_sha256", ""),
      Field(st.fields, "base_branch", ""), Field(st.fields, "target_branch", ""));
    if Field(st.fields, "schema_version", "") != Decimal(SCHEMA_VERSION) then None
    else if id.specId == "" || id.specPath == "" || id.specSha256 == "" || id.baseBranch == "" || id.targetBranch == "" then
      None
    else
      match PyInt(Field(st.fields, "review_attempts", "0"))
      case None => None
      case Some(attempts) =>
        if attempts < 0 then None
        else Some(ReviewTrack(id, attempts, st.processed, Field(st.fields, "head_sha", ""), SCHEMA_VERSION))
  }

  function ParseReviewTrack(body: string): Option<ReviewTrack> {
    match ExtractBlock(body, REVIEW_STATE_START)
    case None => None
    case Some(block) =>
      match ParseLines(PARSE_START, SplitOn(block, LineBreak()))
      case None => None
      case Some(st) => FinishTrack(st)
  }

  /** The parser as written: a loop over the lines that updates three variables. */
  method ParseTrackComment(body: string) returns (track: Option<ReviewTrack>)
    ensures track == ParseReviewTrack(body)
  {
    var block := ExtractBlock(body, REVIEW_STATE_START);
    if block.None? {
      return None;
    }
    var lines := SplitOn(block.value, c => IsLineBreak(c));
    SplitSame(block.value, c => IsLineBreak(c), LineBreak());
    var fields: map<string, string> := map[];
    var processed: seq<string> := [];
    var inProcessed := false;
    for i := 0 to |lines|
      invariant ParseLines(PARSE_START, lines) == ParseLines(ParseState(fields, processed, inProcessed), lines[i..])
    {
      assert lines[i..][1..] == lines[i + 1..];
      var line := Strip(lines[i]);
      if line == "" {
        continue;
      }
      if line == "processed:" {
        inProcessed := true;
        continue;
      }
      if "- " <= line && inProcessed {
        var identity := Strip(line[2..]);
        if identity != "" {
          processed := processed + [identity];
        }
        continue;
      }
      inProcessed := false;
      var pair := SplitField(line);
      if pair.None? {
        return None;
      }
      var (key, value) := pair.value;
      if key !in KNOWN_KEYS {
        return None;
      }
      if key in fields {
        return None;
      }
      fields := fields[key := value];
    }
    return FinishTrack(ParseState(fields, processed, inProcessed));
  }

  lemma {:induction false} SplitSame(s: string, a: char -> bool, b: char -> bool)
    requires forall c :: a(c) <==> b(c)
    ensures SplitOn(s, a) == SplitOn(s, b)
  {
    if s != "" { SplitSame(s[1..], a, b); }
  }

  // ---------- Round trips ----------

  /** The tracks whose text keeps its lines. */
  ghost predicate SafeTrack(t: ReviewTrack) {
    && SafeValue(t.identity.specId) && SafeValue(t.identity.specPath) && SafeValue(t.identity.specSha256)
    && SafeValue(t.identity.baseBranch) && SafeValue(t.identity.targetBranch)
    && SafeValue(t.headSha)
    && forall i :: 0 <= i < |t.processed| ==> SafeIdentity(t.processed[i])
  }

  /** Of the version the code reads, and naming a whole work unit. */
  predicate CurrentAndComplete(t: ReviewTrack) {
    && t.schemaVersion == 2
    && t.identity.specId != "" && t.identity.specPath != "" && t.identity.specSha256 != ""
    && t.identity.baseBranch != "" && t.identity.targetBranch != ""
  }

  /** The tracks that survive being written and read. */
  ghost predicate WellFormedTrack(t: ReviewTrack) {
    SafeTrack(t) && CurrentAndComplete(t)
  }

  ghost predicate SafeIdentity(id: string) {
    id != "" && SafeValue(id)
  }

  lemma DecimalIsSafe(n: nat)
    ensures SafeValue(Decimal(n)) && Decimal(n) != ""
  {
    forall k ensures !OccursAt(Decimal(n), MARKER_END, k) {
      if OccursAt(Decimal(n), MARKER_END, k) {
        assert Decimal(n)[k..k + 3][0] == Decimal(n)[k];
      }
    }
  }

  predicate IsKnownKey(key: string) {
    key in KNOWN_KEYS
  }

  ghost predicate SafeFields(fields: seq<(string, string)>) {
    && (forall i :: 0 <= i < |fields| ==> IsKnownKey(fields[i].0) && SafeValue(fields[i].1))
    && forall i, j :: 0 <= i < j < |fields| ==> fields[i].0 != fields[j].0
  }

  lemma KnownKeysAreKeys(key: string)
    requires key in KNOWN_KEYS
    ensures IsKey(key)
  {
  }

  lemma {:induction false} ParseAppend(st: ParseState, a: seq<string>, b: seq<string>)
    ensures ParseLines(st, a + b) ==
            match ParseLines(st, a)
            case None => None
            case Some(mid) => ParseLines(mid, b)
    decreases |a|
  {
    if a == [] {
      assert a + b == b;
    } else {
      assert (a + b)[1..] == a[1..] + b;
      if ParseLine(st, a[0]).Some? { ParseAppend(ParseLine(st, a[0]).value, a[1..], b); }
    }
  }

  lemma ParseFieldLine(st: ParseState, key: string, value: string)
    requires IsKnownKey(key) && key !in st.fields && Trimmed(value)
    ensures ParseLine(st, FieldLine(key, value)) == Some(st.(fields := st.fields[key := value], inProcessed := false))
  {
    KnownKeysAreKeys(key);
    FieldRoundTrip(key, value);
    var line := Strip(FieldLine(key, value));
    assert line[0] == key[0];
    if line == "processed:" {
      assert SplitField("processed:").value.0 == key by { assert SplitField(line).value.0 == key; }
      ProcessedIsNoKey();
    }
  }

  lemma ProcessedIsNoKey()
    ensures SplitField("processed:") == Some(("processed", ""))
    ensures "processed" !in KNOWN_KEYS
  {
    hide SplitField, Strip;
    FieldRoundTrip("processed", "");
    assert "processed" + ":" == "processed:";
  }

  lemma SafeIsTrimmed(value: string)
    requires SafeValue(value)
    ensures Trimmed(value)
  {
  }

  lemma {:induction false} ParseFieldLines(fields: seq<(string, string)>)
    requires SafeFields(fields)
    ensures ParseLines(PARSE_START, FieldLines(fields)) == Some(ParseState(FieldMap(fields), [], false))
  {
    hide ParseLine, SafeValue, FieldLine, LineBreak, IsKnownKey;
    if fields == [] {
    } else {
      hide FieldLines;
      var n := |fields| - 1;
      var front := fields[..n];
      ParseFieldLines(front);
      SafeIsTrimmed(fields[n].1);
      FieldMapKeys(front);
      FieldLinesSnoc(fields);
      var last := FieldLine(fields[n].0, fields[n].1);
      ParseAppend(PARSE_START, FieldLines(front), [last]);
      ParseFieldLine(ParseState(FieldMap(front), [], false), fields[n].0, fields[n].1);
    }
  }

  lemma ParseIdentityLine(st: ParseState, id: string)
    requires st.inProcessed && SafeIdentity(id)
    ensures ParseLine(st, "- " + id) == Some(st.(processed := st.processed + [id]))
  {
    var line := "- " + id;
    assert line[|line| - 1] == id[|id| - 1];
    StripOfTrimmed(line);
    StripOfTrimmed(id);
    assert line[2..] == id;
    assert line[0] == '-' && "processed:"[0] == 'p';
  }

  lemma {:induction false} ParseIdentityLines(st: ParseState, ids: seq<string>)
    requires st.inProcessed && forall i :: 0 <= i < |ids| ==> SafeIdentity(ids[i])
    ensures ParseLines(st, IdentityLines(ids)) == Some(st.(processed := st.processed + ids))
    decreases |ids|
  {
    hide ParseLine, SafeIdentity;
    if ids == [] {
      assert st.processed + ids == st.processed;
    } else {
      ParseIdentityLine(st, ids[0]);
      var next := st.(processed := st.processed + [ids[0]]);
      assert IdentityLines(ids)[1..] == IdentityLines(ids[1..]);
      ParseIdentityLines(next, ids[1..]);
      assert st.processed + [ids[0]] + ids[1..] == st.processed + ids;
    }
  }

  lemma TrackLinesSafe(t: ReviewTrack)
    requires SafeTrack(t)
    ensures SafeFields(TrackFields(t))
    ensures forall i :: 0 <= i < |TrackLines(t)| ==>
              Free(TrackLines(t)[i], LineBreak()) && !Contains(TrackLines(t)[i], MARKER_END)
  {
    var fields, lines := TrackFields(t), TrackLines(t);
    TrackFieldsSafe(t);
    hide SafeValue, IsKey, FieldLine, LineBreak, Contains, TrackFields, SafeIdentity, SafeTrack;
    SafeProcessed(t);
    forall i | 0 <= i < |lines| ensures Free(lines[i], LineBreak()) && !Contains(lines[i], MARKER_END) {
      if i < |fields| {
        KnownKeysAreKeys(fields[i].0);
        SafeField(fields[i].0, fields[i].1);
      } else if i > |fields| {
        IdentityLineSafe(t.processed[i - |fields| - 1]);
      } else {
        ProcessedLineSafe();
      }
    }
  }

  lemma TrackFieldsSafe(t: ReviewTrack)
    requires SafeTrack(t)
    ensures SafeFields(TrackFields(t))
  {
    hide SafeValue, Decimal;
    DecimalIsSafe(t.schemaVersion);
    DecimalIsSafe(t.reviewAttempts);
  }

  lemma ProcessedLineSafe()
    ensures Free("processed:", LineBreak()) && !Contains("processed:", MARKER_END)
  {
    forall k ensures !OccursAt("processed:", MARKER_END, k) {
      if 0 <= k && k + 3 <= |"processed:"| { assert "processed:"[k..k + 3][0] == "processed:"[k]; }
    }
  }

  lemma IdentityLineSafe(id: string)
    requires SafeIdentity(id)
    ensures Free("- " + id, LineBreak()) && !Contains("- " + id, MARKER_END)
  {
    var line := "- " + id;
    assert line == "-" + [' '] + id;
    forall i | 0 <= i < |line| ensures !IsLineBreak(line[i]) {
      if i >= 2 { assert !LineBreak()(id[i - 2]); }
    }
    if Contains(line, MARKER_END) {
      ContainsAround("-", ' ', id, MARKER_END);
    }
  }

  /** What the parser's loop ends with on the lines of a rendered track. */
  lemma ParseTrackLines(t: ReviewTrack)
    requires SafeTrack(t)
    ensures ParseLines(PARSE_START, [""] + TrackLines(t) + [""]) ==
            Some(ParseState(FieldMap(TrackFields(t)), t.processed, true))
  {
    hide SafeTrack, TrackFields, FieldMap, FieldLines, IdentityLines, ParseLine;
    var fields, lines := TrackFields(t), TrackLines(t);
    TrackLinesSafe(t);
    ParseFieldLines(fields);
    var atFields := ParseState(FieldMap(fields), [], false);
    var end := ParseState(FieldMap(fields), t.processed, true);
    ParseFixedLines(atFields);
    ParseFixedLines(PARSE_START);
    ParseFixedLines(end);
    SafeProcessed(t);
    ParseIdentityLines(atFields.(inProcessed := true), t.processed);
    assert [] + t.processed == t.processed;
    ParseAppend(PARSE_START, FieldLines(fields), ["processed:"]);
    ParseAppend(PARSE_START, FieldLines(fields) + ["processed:"], IdentityLines(t.processed));
    ParseAppend(PARSE_START, [""], lines);
    ParseAppend(PARSE_START, [""] + lines, [""]);
  }

  lemma SafeProcessed(t: ReviewTrack)
    requires SafeTrack(t)
    ensures forall i :: 0 <= i < |t.processed| ==> SafeIdentity(t.processed[i])
  {
  }

  lemma ParseFixedLines(st: ParseState)
    ensures ParseLines(st, ["processed:"]) == Some(st.(inProcessed := true))
    ensures ParseLines(st, [""]) == Some(st)
  {
    StripOfTrimmed("processed:");
    assert ParseLine(st, "processed:") == Some(st.(inProcessed := true));
    assert ParseLine(st, "") == Some(st);
  }

  lemma ParseRendered(t: ReviewTrack)
    requires SafeTrack(t)
    ensures ParseReviewTrack(RenderReviewTrack(t)) ==
            FinishTrack(ParseState(FieldMap(TrackFields(t)), t.processed, true))
  {
    hide SafeTrack, TrackLines, TrackFields, FieldMap, ParseLines, FinishTrack, Find;
    var lines := TrackLines(t);
    TrackLinesSafe(t);
    TrackLinesNonEmpty(t);
    SafeBlock(lines);
    FramedShape(REVIEW_STATE_START, lines, TRACK_TAIL);
    var block := Join([""] + lines + [""], "\n");
    var rest := "\n" + Join(TRACK_TAIL[1..], "\n");
    assert Join(TRACK_TAIL, "\n") == MARKER_END + rest;
    assert RenderReviewTrack(t) == REVIEW_STATE_START + block + MARKER_END + rest;
    ExtractFramed(REVIEW_STATE_START, block, rest);
    ParseTrackLines(t);
  }

  lemma TrackLinesNonEmpty(t: ReviewTrack)
    ensures TrackLines(t) != []
  {
  }

  lemma FieldMapOf(t: ReviewTrack)
    ensures
      var m := FieldMap(TrackFields(t));
      && Field(m, "schema_version", "") == Decimal(t.schemaVersion)
      && Field(m, "spec_id", "") == t.identity.specId
      && Field(m, "spec_path", "") == t.identity.specPath
      && Field(m, "spec_sha256", "") == t.identity.specSha256
      && Field(m, "base_branch", "") == t.identity.baseBranch
      && Field(m, "target_branch", "") == t.identity.targetBranch
      && Field(m, "head_sha", "") == t.headSha
      && Field(m, "review_attempts", "0") == Decimal(t.reviewAttempts)
  {
    var f := TrackFields(t);
    FieldMapAt(f, 0); FieldMapAt(f, 1); FieldMapAt(f, 2); FieldMapAt(f, 3);
    FieldMapAt(f, 4); FieldMapAt(f, 5); FieldMapAt(f, 6); FieldMapAt(f, 7);
  }

  /** Everything the parser accepts is a well-formed track. */
  lemma ParsedIsWellFormed(body: string)
    requires ParseReviewTrack(body).Some?
    ensures WellFormedTrack(ParseReviewTrack(body).value)
  {
    var block := ExtractBlock(body, REVIEW_STATE_START).value;
    var lines := SplitOn(block, LineBreak());
    ExtractedIsClosed(body, REVIEW_STATE_START);
    SplitParts(block, LineBreak());
    ParsedStateSafe(PARSE_START, lines, block);
    var st := ParseLines(PARSE_START, lines).value;
    assert Trimmed("") && SafeValue("") by {
      forall k ensures !OccursAt("", MARKER_END, k) {}
    }
    forall key ensures SafeValue(Field(st.fields, key, "")) {
      if key in st.fields { assert SafeValue(st.fields[key]); }
    }
  }

  ghost predicate SafeState(st: ParseState) {
    && (forall k :: k in st.fields ==> SafeValue(st.fields[k]))
    && forall i :: 0 <= i < |st.processed| ==> SafeIdentity(st.processed[i])
  }

  lemma {:induction false} ParsedStateSafe(st: ParseState, lines: seq<string>, block: string)
    requires SafeState(st) && !Contains(block, MARKER_END) && ParseLines(st, lines).Some?
    requires forall i :: 0 <= i < |lines| ==> Free(lines[i], LineBreak()) && Within(lines[i], block)
    ensures SafeState(ParseLines(st, lines).value)
    decreases |lines|
  {
    if lines != [] {
      ParsedLineSafe(st, lines[0], block);
      ParsedStateSafe(ParseLine(st, lines[0]).value, lines[1..], block);
    }
  }

  lemma ParsedLineSafe(st: ParseState, raw: string, block: string)
    requires SafeState(st) && !Contains(block, MARKER_END) && ParseLine(st, raw).Some?
    requires Free(raw, LineBreak()) && Within(raw, block)
    ensures SafeState(ParseLine(st, raw).value)
  {
    hide SafeValue, Contains, Within, Find, Strip, IsLineBreak;
    var line := Strip(raw);
    StripTrims(raw);
    if "- " <= line && st.inProcessed {
      assert line[2..] == line[2..|line|];
      WithinTransitive(line[2..], line, raw);
      StrippedIsSafe(line[2..], raw, block);
    } else if Find(line, ":", 0).Some? {
      var k := Find(line, ":", 0).value;
      assert line[k + 1..] == line[k + 1..|line|];
      WithinTransitive(line[k + 1..], line, raw);
      StrippedIsSafe(line[k + 1..], raw, block);
    }
  }

  /**
   * Main theorem: a track survives being rendered and parsed if and only if it is well
   * formed, that is trimmed, single-line, without an end marker, and complete.
   */
  lemma TrackRoundTripIff(t: ReviewTrack)
    ensures ParseReviewTrack(RenderReviewTrack(t)) == Some(t) <==> WellFormedTrack(t)
  {
    if WellFormedTrack(t) {
      ParseRendered(t);
      FieldMapOf(t);
      PyIntOfDecimal(t.reviewAttempts);
    } else if ParseReviewTrack(RenderReviewTrack(t)) == Some(t) {
      ParsedIsWellFormed(RenderReviewTrack(t));
    }
  }

  /** Text that keeps its lines is refused if and only if its version is another or its unit is not named in full. */
  lemma RenderedIsReadIff(t: ReviewTrack)
    requires SafeTrack(t)
    ensures ParseReviewTrack(RenderReviewTrack(t)) == if CurrentAndComplete(t) then Some(t) else None
  {
    ParseRendered(t);
    FieldMapOf(t);
    PyIntOfDecimal(t.reviewAttempts);
    DigitsOfDecimal(t.schemaVersion);
    DigitsOfDecimal(SCHEMA_VERSION);
  }

  /** Whatever body parses, writing the track back and reading it again changes nothing. */
  lemma ParseIsStable(body: string)
    requires ParseReviewTrack(body).Some?
    ensures ParseReviewTrack(RenderReviewTrack(ParseReviewTrack(body).value)) == ParseReviewTrack(body)
  {
    ParsedIsWellFormed(body);
    TrackRoundTripIff(ParseReviewTrack(body).value);
  }
}
