/** The work-unit marker of a pull-request body, `agent/pr.py`. */
module PullBody {
  import opened Wrappers
  import opened PyText
  import opened Marker
  import opened TaskGraph

  const WORK_UNIT_MARKER_START := "<!-- md-agent-work-unit"
  const CORE_MARKER_FIELDS := ["spec_id", "base_branch", "target_branch"]
  const MARKER_FIELDS := CORE_MARKER_FIELDS + ["spec_path", "spec_sha256"]

  function MarkerFields(id: WorkUnitIdentity): seq<(string, string)> {
    [("spec_id", id.specId),
     ("spec_path", id.specPath),
     ("spec_sha256", id.specSha256),
     ("base_branch", id.baseBranch),
     ("target_branch", id.targetBranch)]
  }

  function MarkerLines(id: WorkUnitIdentity): seq<string> {
    FieldLines(MarkerFields(id))
  }

  function BuildWorkUnitMarker(id: WorkUnitIdentity): string {
    Join([WORK_UNIT_MARKER_START] + MarkerLines(id) + [MARKER_END], "\n")
  }

  /** One iteration of the marker parser's loop. */
  function MarkerLine(fields: map<string, string>, raw: string): Option<map<string, string>> {
    var line := Strip(raw);
    match SplitField(line)
    case None => Some(fields)
    case Some((key, value)) =>
      if key in MARKER_FIELDS && value != "" then
        if key in fields then None else Some(fields[key := value])
      else Some(fields)
  }

  function MarkerLinesParsed(fields: map<string, string>, lines: seq<string>): Option<map<string, string>>
    decreases |lines|
  {
    if lines == [] then Some(fields)
    else
      match MarkerLine(fields, lines[0])
      case None => None
      case Some(next) => MarkerLinesParsed(next, lines[1..])
  }

  function ParseWorkUnitMarker(body: string): Option<map<string, string>> {
    match ExtractBlock(body, WORK_UNIT_MARKER_START)
    case None => None
    case Some(block) =>
      match MarkerLinesParsed(map[], SplitOn(block, LineBreak()))
      case None => None
      case Some(fields) => if forall k :: k in CORE_MARKER_FIELDS ==> k in fields then Some(fields) else None
  }

  /** The parser as written: a loop that fills a dictionary. */
  method ParseMarker(body: string) returns (marker: Option<map<string, string>>)
    ensures marker == ParseWorkUnitMarker(body)
  {
    var block := ExtractBlock(body, WORK_UNIT_MARKER_START);
    if block.None? {
      return None;
    }
    var fields: map<string, string> := map[];
    var lines := SplitOn(block.value, LineBreak());
    for i := 0 to |lines|
      invariant MarkerLinesParsed(map[], lines) == MarkerLinesParsed(fields, lines[i..])
    {
      assert lines[i..][1..] == lines[i + 1..];
      var pair := SplitField(Strip(lines[i]));
      if pair.None? {
        continue;
      }
      var (key, value) := pair.value;
      if key in MARKER_FIELDS && value != "" {
        if key in fields {
          return None;
        }
        fields := fields[key := value];
      }
    }
    if exists k :: k in CORE_MARKER_FIELDS && k !in fields {
      return None;
    }
    return Some(fields);
  }

  // ---------- The whole body ----------

  function OrElse(s: string, default: string): string {
    if s == "" then default else s
  }

  function Bullets(items: seq<string>, open: string, close: string): string {
    OrElse(Join(seq(|items|, i requires 0 <= i < |items| => "- " + open + items[i] + close), "\n"), "- None")
  }

  datatype Sections = Sections(
    completedTasks: seq<string>, changedFiles: seq<string>, validationResults: seq<string>, finalVerification: string,
    repairAttempts: nat, knownLimitations: string, humanReviewPoints: string, escalationHistory: seq<string>)

  function BodyRest(spec: TaskSpec, s: Sections): seq<string> {
    ["",
     "## Task Spec",
     "`" + OrElse(spec.specPath, spec.id) + "` (`" + spec.id + "`)",
     "",
     "## Objective",
     OrElse(Strip(spec.objective), "See Task Spec."),
     "",
     "## Completed Tasks",
     Bullets(s.completedTasks, "`", "`"),
     "",
     "## Changed Files",
     Bullets(s.changedFiles, "`", "`"),
     "",
     "## Validation Results",
     Bullets(s.validationResults, "", ""),
     "",
     "## Final Verification",
     OrElse(Strip(s.finalVerification), "Not run."),
     "",
     "## Repair Attempts",
     Decimal(s.repairAttempts),
     "",
     "## Known Limitations",
     OrElse(Strip(s.knownLimitations), "None recorded."),
     "",
     "## Human Review Points",
     OrElse(s.humanReviewPoints, OrElse(Strip(spec.forbiddenActions), "Review allowed_paths and Validation.")),
     "",
     "## Escalation History",
     Bullets(s.escalationHistory, "", ""),
     ""]
  }

  /** `build_pr_body`; refused when the spec's identity is not bound. */
  function BuildPrBody(spec: TaskSpec, s: Sections): Option<string> {
    match IdentityOf(spec)
    case None => None
    case Some(id) => Some(Join([BuildWorkUnitMarker(id)] + BodyRest(spec, s), "\n"))
  }

  // ---------- Recognising the work unit ----------

  datatype Pull = Pull(body: string, headRef: Option<string>, baseRef: Option<string>)

  /** `_pull_ref`: a blank ref is no ref. */
  function PullRef(ref: Option<string>): Option<string> {
    if ref.Some? && Strip(ref.value) != "" then ref else None
  }

  predicate IsSameWorkUnitPull(spec: TaskSpec, pull: Pull) {
    match ParseWorkUnitMarker(pull.body)
    case None => false
    case Some(marker) =>
      && marker["spec_id"] == spec.id
      && marker["base_branch"] == spec.baseBranch
      && marker["target_branch"] == spec.targetBranch
      && PullRef(pull.headRef) == Some(spec.targetBranch)
      && PullRef(pull.baseRef) == Some(spec.baseBranch)
  }

  function Lookup(marker: map<string, string>, key: string): Option<string> {
    if key in marker then Some(marker[key]) else None
  }

  /** `assert_spec_matches_marker`: false where the source raises. */
  predicate SpecMatchesMarker(spec: TaskSpec, marker: map<string, string>) {
    match IdentityOf(spec)
    case None => false
    case Some(id) =>
      && Lookup(marker, "spec_path") == Some(id.specPath)
      && Lookup(marker, "spec_sha256") == Some(id.specSha256)
      && Lookup(marker, "spec_id") == Some(id.specId)
      && Lookup(marker, "base_branch") == Some(id.baseBranch)
      && Lookup(marker, "target_branch") == Some(id.targetBranch)
  }

  /**
   * Whatever a body says, the pull it selects carries the marker and the two branches of the spec,
   * neither of them blank, and it is no pull of a spec with another id or branch.
   */
  lemma SelectedIsOurs(spec: TaskSpec, other: TaskSpec, pull: Pull)
    requires IsSameWorkUnitPull(spec, pull)
    ensures Contains(pull.body, "<!-- md-agent-work-unit")
    ensures pull.headRef == Some(spec.targetBranch) && pull.baseRef == Some(spec.baseBranch)
    ensures Strip(spec.targetBranch) != "" && Strip(spec.baseBranch) != ""
    ensures IsSameWorkUnitPull(other, pull) <==>
              other.id == spec.id && other.baseBranch == spec.baseBranch && other.targetBranch == spec.targetBranch
  {
  }

  /** Whatever a body says, it authorises the specs of one identity only. */
  lemma AuthorisedIsOne(spec: TaskSpec, other: TaskSpec, marker: map<string, string>)
    requires SpecMatchesMarker(spec, marker)
    ensures IdentityOf(spec).Some? && (SpecMatchesMarker(other, marker) <==> IdentityOf(other) == IdentityOf(spec))
  {
  }

  /** A spec whose path or digest is not bound gets no body and is authorised by none. */
  lemma UnboundIsRefused(spec: TaskSpec, s: Sections, marker: map<string, string>)
    ensures BuildPrBody(spec, s).None? <==> spec.specPath == "" || spec.specSha256 == ""
    ensures BuildPrBody(spec, s).None? ==> !SpecMatchesMarker(spec, marker)
  {
  }

  // ---------- Round trip ----------

  function MarkerOf(id: WorkUnitIdentity): map<string, string> {
    map["spec_id" := id.specId, "spec_path" := id.specPath, "spec_sha256" := id.specSha256,
        "base_branch" := id.baseBranch, "target_branch" := id.targetBranch]
  }

  ghost predicate SafeFieldValue(v: string) {
    v != "" && SafeValue(v)
  }

  ghost predicate SafeIdentityFields(id: WorkUnitIdentity) {
    && SafeFieldValue(id.specId) && SafeFieldValue(id.specPath) && SafeFieldValue(id.specSha256)
    && SafeFieldValue(id.baseBranch) && SafeFieldValue(id.targetBranch)
  }

  lemma MarkerFieldParsed(fields: map<string, string>, key: string, value: string)
    requires IsKey(key) && key in MARKER_FIELDS && key !in fields && SafeFieldValue(value)
    ensures MarkerLine(fields, FieldLine(key, value)) == Some(fields[key := value])
  {
    FieldRoundTrip(key, value);
  }

  ghost predicate SafeMarkerFields(fields: seq<(string, string)>) {
    && (forall i :: 0 <= i < |fields| ==> IsKey(fields[i].0) && fields[i].0 in MARKER_FIELDS && SafeFieldValue(fields[i].1))
    && forall i, j :: 0 <= i < j < |fields| ==> fields[i].0 != fields[j].0
  }

  lemma {:induction false} MarkerParseAppend(fields: map<string, string>, a: seq<string>, line: string)
    requires MarkerLinesParsed(fields, a).Some?
    ensures MarkerLinesParsed(fields, a + [line]) == MarkerLine(MarkerLinesParsed(fields, a).value, line)
    decreases |a|
  {
    if a == [] {
      assert a + [line] == [line];
    } else {
      assert (a + [line])[1..] == a[1..] + [line];
      MarkerParseAppend(MarkerLine(fields, a[0]).value, a[1..], line);
    }
  }

  lemma BlankMarkerLine(fields: map<string, string>)
    ensures MarkerLine(fields, "") == Some(fields)
  {
  }

  lemma {:induction false} MarkerFieldLinesParsed(fields: seq<(string, string)>)
    requires SafeMarkerFields(fields)
    ensures MarkerLinesParsed(map[], [""] + FieldLines(fields)) == Some(FieldMap(fields))
  {
    hide MarkerLine, SafeFieldValue, FieldLine, IsKey;
    if fields == [] {
      BlankMarkerLine(map[]);
      assert [""] + FieldLines(fields) == [""];
    } else {
      var n := |fields| - 1;
      MarkerFieldLinesParsed(fields[..n]);
      FieldMapKeys(fields[..n]);
      var last := FieldLine(fields[n].0, fields[n].1);
      FieldLinesSnoc(fields);
      assert [""] + FieldLines(fields) == [""] + FieldLines(fields[..n]) + [last];
      MarkerParseAppend(map[], [""] + FieldLines(fields[..n]), last);
      MarkerFieldParsed(FieldMap(fields[..n]), fields[n].0, fields[n].1);
    }
  }

  lemma FieldMapIsMarker(id: WorkUnitIdentity)
    ensures FieldMap(MarkerFields(id)) == MarkerOf(id)
  {
    var f := MarkerFields(id);
    FieldMapKeys(f);
    FieldMapAt(f, 0); FieldMapAt(f, 1); FieldMapAt(f, 2); FieldMapAt(f, 3); FieldMapAt(f, 4);
    forall k | k in FieldMap(f) ensures k in MarkerOf(id) {
      var i :| 0 <= i < |f| && f[i].0 == k;
    }
  }

  lemma MarkerFieldsSafe(id: WorkUnitIdentity)
    requires SafeIdentityFields(id)
    ensures SafeMarkerFields(MarkerFields(id))
  {
    hide SafeFieldValue;
  }

  lemma MarkerBlockParsed(id: WorkUnitIdentity)
    requires SafeIdentityFields(id)
    ensures MarkerLinesParsed(map[], [""] + MarkerLines(id) + [""]) == Some(MarkerOf(id))
  {
    MarkerFieldsSafe(id);
    hide MarkerLine, MarkerFields, FieldMap, FieldLines, MarkerOf, MarkerLinesParsed, SafeFieldValue;
    MarkerFieldLinesParsed(MarkerFields(id));
    MarkerParseAppend(map[], [""] + MarkerLines(id), "");
    BlankMarkerLine(FieldMap(MarkerFields(id)));
    FieldMapIsMarker(id);
  }

  /** The body has the framed shape that the extraction undoes, whatever the other sections say. */
  lemma BodyParsed(spec: TaskSpec, s: Sections)
    requires IdentityOf(spec).Some? && SafeIdentityFields(IdentityOf(spec).value)
    ensures ParseWorkUnitMarker(BuildPrBody(spec, s).value) == Some(MarkerOf(IdentityOf(spec).value))
  {
    hide BodyRest, MarkerLinesParsed, SafeValue, Find;
    var id := IdentityOf(spec).value;
    var lines := MarkerLines(id);
    MarkerLinesSafe(id);
    SafeBlock(lines);
    FramedShape(WORK_UNIT_MARKER_START, lines, [MARKER_END]);
    var block := Join([""] + lines + [""], "\n");
    BodyRestNonEmpty(spec, s);
    JoinAppend([BuildWorkUnitMarker(id)], BodyRest(spec, s), "\n");
    var tail := "\n" + Join(BodyRest(spec, s), "\n");
    assert BuildPrBody(spec, s).value == WORK_UNIT_MARKER_START + block + MARKER_END + tail;
    ExtractFramed(WORK_UNIT_MARKER_START, block, tail);
    MarkerBlockParsed(id);
  }

  lemma BodyRestNonEmpty(spec: TaskSpec, s: Sections)
    ensures BodyRest(spec, s) != []
  {
  }

  lemma MarkerLinesSafe(id: WorkUnitIdentity)
    requires SafeIdentityFields(id)
    ensures forall i :: 0 <= i < |MarkerLines(id)| ==>
              Free(MarkerLines(id)[i], LineBreak()) && !Contains(MarkerLines(id)[i], MARKER_END)
  {
    var f := MarkerFields(id);
    forall i | 0 <= i < |f| ensures Free(FieldLines(f)[i], LineBreak()) && !Contains(FieldLines(f)[i], MARKER_END) {
      SafeField(f[i].0, f[i].1);
    }
  }

  ghost predicate SafeMarker(fields: map<string, string>) {
    forall k :: k in fields ==> SafeFieldValue(fields[k])
  }

  lemma {:induction false} ParsedMarkerSafe(fields: map<string, string>, lines: seq<string>, block: string)
    requires SafeMarker(fields) && !Contains(block, MARKER_END) && MarkerLinesParsed(fields, lines).Some?
    requires forall i :: 0 <= i < |lines| ==> Free(lines[i], LineBreak()) && Within(lines[i], block)
    ensures SafeMarker(MarkerLinesParsed(fields, lines).value)
    decreases |lines|
  {
    hide MarkerLine, SafeMarker, Contains, Within, LineBreak;
    if lines != [] {
      MarkerLineSafe(fields, lines[0], block);
      ParsedMarkerSafe(MarkerLine(fields, lines[0]).value, lines[1..], block);
    }
  }

  lemma MarkerLineSafe(fields: map<string, string>, raw: string, block: string)
    requires SafeMarker(fields) && !Contains(block, MARKER_END) && MarkerLine(fields, raw).Some?
    requires Free(raw, LineBreak()) && Within(raw, block)
    ensures SafeMarker(MarkerLine(fields, raw).value)
  {
    hide SafeValue, Contains, Within, Strip, Find;
    var line := Strip(raw);
    StripTrims(raw);
    if Find(line, ":", 0).Some? {
      var k := Find(line, ":", 0).value;
      SuffixWithin(line, k + 1);
      WithinTransitive(line[k + 1..], line, raw);
      StrippedIsSafe(line[k + 1..], raw, block);
    }
  }

  lemma SuffixWithin(s: string, k: nat)
    requires k <= |s|
    ensures Within(s[k..], s)
  {
    assert s[k..] == s[k..|s|];
  }

  lemma SafeMarkerIdentity(id: WorkUnitIdentity)
    requires SafeMarker(MarkerOf(id))
    ensures SafeIdentityFields(id)
  {
    hide SafeFieldValue;
    var m := MarkerOf(id);
    assert "spec_id" in m && "spec_path" in m && "spec_sha256" in m && "base_branch" in m && "target_branch" in m;
  }

  /**
   * Main theorem: the marker read back from a pull-request body is exactly the five identity
   * fields, whatever the other sections contain, if and only if the fields are non-empty,
   * trimmed, single-line and free of the end marker.
   */
  lemma MarkerRoundTripIff(spec: TaskSpec, s: Sections)
    requires IdentityOf(spec).Some?
    ensures
      var id := IdentityOf(spec).value;
      ParseWorkUnitMarker(BuildPrBody(spec, s).value) == Some(MarkerOf(id)) <==> SafeIdentityFields(id)
  {
    var id := IdentityOf(spec).value;
    var body := BuildPrBody(spec, s).value;
    if SafeIdentityFields(id) {
      BodyParsed(spec, s);
    } else if ParseWorkUnitMarker(body) == Some(MarkerOf(id)) {
      var block := ExtractBlock(body, WORK_UNIT_MARKER_START).value;
      ExtractedIsClosed(body, WORK_UNIT_MARKER_START);
      SplitParts(block, LineBreak());
      ParsedMarkerSafe(map[], SplitOn(block, LineBreak()), block);
      SafeMarkerIdentity(id);
    }
  }

  /**
   * Reuse: the body written for one spec authorises exactly the specs with the same
   * identity, and selects the pull exactly when id, branches and refs agree.
   */
  lemma ReuseIsExact(spec: TaskSpec, s: Sections, other: TaskSpec, head: Option<string>, base: Option<string>)
    requires IdentityOf(spec).Some? && SafeIdentityFields(IdentityOf(spec).value)
    ensures
      var body := BuildPrBody(spec, s).value;
      && ParseWorkUnitMarker(body).Some?
      && SpecMatchesMarker(other, ParseWorkUnitMarker(body).value) == (IdentityOf(other) == IdentityOf(spec))
      && (IsSameWorkUnitPull(other, Pull(body, head, base))
          <==> other.id == spec.id && other.baseBranch == spec.baseBranch && other.targetBranch == spec.targetBranch
               && head == Some(spec.targetBranch) && base == Some(spec.baseBranch))
  {
    hide BuildPrBody, ParseWorkUnitMarker;
    BodyParsed(spec, s);
    StripOfTrimmed(spec.targetBranch);
    StripOfTrimmed(spec.baseBranch);
  }

  // ---------- What a reader sees ----------

  lemma TailWithin(lines: seq<string>, i: nat)
    requires i < |lines|
    ensures Within(Join(lines[i..], "\n"), Join(lines, "\n"))
  {
    var part, all := Join(lines[i..], "\n"), Join(lines, "\n");
    if i == 0 {
      assert lines[0..] == lines;
      assert all[0..|all|] == part;
    } else {
      assert lines[..i] + lines[i..] == lines;
      JoinAppend(lines[..i], lines[i..], "\n");
      assert all[|all| - |part|..|all|] == part;
    }
  }

  lemma HeadWithin(lines: seq<string>, j: nat)
    requires 0 < j <= |lines|
    ensures Within(Join(lines[..j], "\n"), Join(lines, "\n"))
  {
    var part, all := Join(lines[..j], "\n"), Join(lines, "\n");
    if j == |lines| {
      assert lines[..j] == lines;
      assert all[0..|all|] == part;
    } else {
      assert lines[..j] + lines[j..] == lines;
      JoinAppend(lines[..j], lines[j..], "\n");
      assert all[0..|part|] == part;
    }
  }

  /** Two lines that follow each other do so in the text. */
  lemma PairWithin(lines: seq<string>, i: nat)
    requires i + 1 < |lines|
    ensures Within(lines[i] + "\n" + lines[i + 1], Join(lines, "\n"))
  {
    var tail := lines[i..];
    HeadWithin(tail, 2);
    TailWithin(lines, i);
    assert tail[..2] == [lines[i], lines[i + 1]];
    assert [lines[i], lines[i + 1]][1..] == [lines[i + 1]];
    assert Join([lines[i + 1]], "\n") == lines[i + 1];
    assert Join([lines[i], lines[i + 1]], "\n") == lines[i] + "\n" + lines[i + 1];
    WithinTransitive(Join(tail[..2], "\n"), Join(tail, "\n"), Join(lines, "\n"));
  }

  /** A list in the body: one bullet for each item, in order, or the word for none. */
  function Shown(items: seq<string>, quote: string): string {
    if items == [] then "- None" else Join(seq(|items|, i requires 0 <= i < |items| => "- " + quote + items[i] + quote), "\n")
  }

  /** A text in the body, or what stands for a blank one. */
  function ShownText(text: string, blank: string): string {
    if Strip(text) == "" then blank else Strip(text)
  }

  lemma {:induction false} ShownIs(items: seq<string>, quote: string)
    ensures Bullets(items, quote, quote) == Shown(items, quote)
  {
    var bullets := seq(|items|, i requires 0 <= i < |items| => "- " + quote + items[i] + quote);
    if items == [] {
      assert bullets == [];
    } else {
      assert Join(bullets, "\n")[0] == bullets[0][0] == '-';
    }
  }

  ghost predicate HasSection(body: string, heading: string, text: string) {
    Within(heading + "\n" + text, body)
  }

  lemma SectionWithin(spec: TaskSpec, s: Sections, i: nat)
    requires IdentityOf(spec).Some? && i + 1 < |BodyRest(spec, s)|
    ensures HasSection(BuildPrBody(spec, s).value, BodyRest(spec, s)[i], BodyRest(spec, s)[i + 1])
  {
    hide BodyRest, BuildWorkUnitMarker, Join, Within;
    var rest := BodyRest(spec, s);
    var lines := [BuildWorkUnitMarker(IdentityOf(spec).value)] + rest;
    PairWithin(lines, i + 1);
    assert lines[i + 1] == rest[i] && lines[i + 2] == rest[i + 1];
  }

  lemma TextSections(spec: TaskSpec, s: Sections)
    ensures |BodyRest(spec, s)| > 29
    ensures BodyRest(spec, s)[4] == "## Objective" && BodyRest(spec, s)[5] == ShownText(spec.objective, "See Task Spec.")
    ensures BodyRest(spec, s)[16] == "## Final Verification" && BodyRest(spec, s)[17] == ShownText(s.finalVerification, "Not run.")
    ensures BodyRest(spec, s)[19] == "## Repair Attempts" && BodyRest(spec, s)[20] == Decimal(s.repairAttempts)
    ensures BodyRest(spec, s)[22] == "## Known Limitations" && BodyRest(spec, s)[23] == ShownText(s.knownLimitations, "None recorded.")
  {
    hide Strip, Decimal, Join, Bullets;
  }

  lemma ListSections(spec: TaskSpec, s: Sections)
    ensures |BodyRest(spec, s)| > 29
    ensures BodyRest(spec, s)[7] == "## Completed Tasks" && BodyRest(spec, s)[8] == Shown(s.completedTasks, "`")
    ensures BodyRest(spec, s)[10] == "## Changed Files" && BodyRest(spec, s)[11] == Shown(s.changedFiles, "`")
    ensures BodyRest(spec, s)[13] == "## Validation Results" && BodyRest(spec, s)[14] == Shown(s.validationResults, "")
    ensures BodyRest(spec, s)[28] == "## Escalation History" && BodyRest(spec, s)[29] == Shown(s.escalationHistory, "")
  {
    hide Strip, Decimal, Join, Bullets, Shown;
    ShownIs(s.completedTasks, "`");
    ShownIs(s.changedFiles, "`");
    ShownIs(s.validationResults, "");
    ShownIs(s.escalationHistory, "");
  }

  /** Each section stands in the body under its own heading, with every item it lists or the word for none. */
  lemma BodyShows(spec: TaskSpec, s: Sections)
    requires IdentityOf(spec).Some?
    ensures
      var body := BuildPrBody(spec, s).value;
      && HasSection(body, "## Objective", ShownText(spec.objective, "See Task Spec."))
      && HasSection(body, "## Completed Tasks", Shown(s.completedTasks, "`"))
      && HasSection(body, "## Changed Files", Shown(s.changedFiles, "`"))
      && HasSection(body, "## Validation Results", Shown(s.validationResults, ""))
      && HasSection(body, "## Final Verification", ShownText(s.finalVerification, "Not run."))
      && HasSection(body, "## Repair Attempts", Decimal(s.repairAttempts))
      && HasSection(body, "## Known Limitations", ShownText(s.knownLimitations, "None recorded."))
      && HasSection(body, "## Escalation History", Shown(s.escalationHistory, ""))
  {
    hide *;
    TextSections(spec, s);
    ListSections(spec, s);
    SectionWithin(spec, s, 4);
    SectionWithin(spec, s, 7);
    SectionWithin(spec, s, 10);
    SectionWithin(spec, s, 13);
    SectionWithin(spec, s, 16);
    SectionWithin(spec, s, 19);
    SectionWithin(spec, s, 22);
    SectionWithin(spec, s, 28);
  }
}
