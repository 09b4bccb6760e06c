/** The HTML-comment blocks that the orchestrator writes into pull requests and reads back. */
module Marker {
  import opened Wrappers
  import opened PyText

  const MARKER_END := "-->"

  /** The text between a start marker and the first end marker after it. */
  function ExtractBlock(body: string, start: string): Option<string> {
    match Find(body, start, 0)
    case None => None
    case Some(i) =>
      match Find(body, MARKER_END, i + |start|)
      case None => None
      case Some(j) => Some(body[i + |start|..j])
  }

  function FieldLine(key: string, value: string): string {
    key + ": " + value
  }

  /** `line.split(":", 1)` with both halves stripped. */
  function SplitField(line: string): Option<(string, string)> {
    match Find(line, ":", 0)
    case None => None
    case Some(k) => Some((Strip(line[..k]), Strip(line[k + 1..])))
  }

  function LineBreak(): char -> bool {
    c => IsLineBreak(c)
  }

  /** A value that survives being written on a line of a block: trimmed, one line, no end marker. */
  ghost predicate SafeValue(v: string) {
    Trimmed(v) && Free(v, LineBreak()) && !Contains(v, MARKER_END)
  }

  /** A key: letters and underscores only. */
  predicate IsKey(k: string) {
    k != "" && forall i :: 0 <= i < |k| ==> 'a' <= k[i] <= 'z' || '0' <= k[i] <= '9' || k[i] == '_'
  }

  lemma OccursInside(a: string, b: string, c: string, needle: string, i: int)
    requires |a| <= i && i + |needle| <= |a| + |b| && OccursAt(a + b + c, needle, i)
    ensures OccursAt(b, needle, i - |a|)
  {
    assert (a + b + c)[i..i + |needle|] == b[i - |a|..i - |a| + |needle|];
  }

  /** No end marker can begin inside a block that has none and run over its end. */
  lemma ExtractFramed(start: string, block: string, tail: string)
    requires start != "" && !Contains(block, MARKER_END)
    ensures ExtractBlock(start + block + MARKER_END + tail, start) == Some(block)
  {
    var body := start + block + MARKER_END + tail;
    assert body == start + block + (MARKER_END + tail);
    assert OccursAt(body, start, 0);
    var j := |start| + |block|;
    assert OccursAt(body, MARKER_END, j);
    forall i | |start| <= i < j ensures !OccursAt(body, MARKER_END, i) {
      assert body[i..i + 3][2] == body[i + 2];
      if i + 3 <= j {
        if OccursAt(body, MARKER_END, i) { OccursInside(start, block, MARKER_END + tail, MARKER_END, i); }
      } else {
        assert body[i + 2] == MARKER_END[i + 2 - j];
      }
    }
    assert body[|start|..j] == block;
  }

  /** An extracted block is part of the body and contains no end marker. */
  lemma ExtractedIsClosed(body: string, start: string)
    requires ExtractBlock(body, start).Some?
    ensures !Contains(ExtractBlock(body, start).value, MARKER_END)
  {
    var i := Find(body, start, 0).value;
    var from := i + |start|;
    var j := Find(body, MARKER_END, from).value;
    var block := body[from..j];
    forall k ensures !OccursAt(block, MARKER_END, k) {
      if 0 <= k && k + 3 <= |block| {
        assert body[from + k..from + k + 3] == block[k..k + 3];
        assert !OccursAt(body, MARKER_END, from + k);
      }
    }
  }

  lemma {:induction false} StripTrailingSpace(s: string)
    requires Trimmed(s) && s != ""
    ensures Strip(s + " ") == s
  {
    var longer := s + " ";
    assert longer[0] == s[0] && LStrip(longer) == longer;
    assert longer[..|s|] == s && RStrip(longer) == RStrip(s);
    StripOfTrimmed(s);
  }

  /** A rendered field line is read back as its key and value, once stripped. */
  lemma FieldRoundTrip(key: string, value: string)
    requires IsKey(key) && Trimmed(value)
    ensures
      var line := Strip(FieldLine(key, value));
      && line == (if value == "" then key + ":" else FieldLine(key, value))
      && SplitField(line) == Some((key, value))
  {
    var full := FieldLine(key, value);
    var line := if value == "" then key + ":" else full;
    if value == "" {
      assert full == line + " ";
      StripTrailingSpace(line);
    } else {
      assert full[|full| - 1] == value[|value| - 1];
    }
    assert OccursAt(line, ":", |key|);
    forall i | 0 <= i < |key| ensures !OccursAt(line, ":", i) {
      assert line[i..i + 1][0] == key[i];
    }
    assert line[..|key|] == key;
    StripOfTrimmed(key);
    StripOfTrimmed(value);
    var rest := line[|key| + 1..];
    if value != "" {
      assert rest == [' '] + value;
      assert rest[1..] == value && LStrip(rest) == LStrip(value);
    }
  }

  lemma SafeField(key: string, value: string)
    requires IsKey(key) && SafeValue(value)
    ensures Free(FieldLine(key, value), LineBreak()) && !Contains(FieldLine(key, value), MARKER_END)
  {
    var line := FieldLine(key, value);
    forall i | 0 <= i < |line| ensures !IsLineBreak(line[i]) {
      if i >= |key| + 2 { assert !LineBreak()(value[i - |key| - 2]); }
    }
    forall k ensures !OccursAt(key + ":", MARKER_END, k) {
      if 0 <= k && k + 3 <= |key| + 1 {
        assert (key + ":")[k..k + 3][0] == key[k];
      }
    }
    if Contains(line, MARKER_END) {
      assert line == (key + ":") + [' '] + value;
      ContainsAround(key + ":", ' ', value, MARKER_END);
    }
  }

  /** Anything stripped out of a line of a closed block is a safe value. */
  lemma StrippedIsSafe(part: string, line: string, block: string)
    requires Within(part, line) && Within(line, block)
    requires Free(line, LineBreak()) && !Contains(block, MARKER_END)
    ensures SafeValue(Strip(part))
  {
    StripTrims(part);
    WithinTransitive(Strip(part), part, line);
    if Contains(Strip(part), MARKER_END) {
      WithinContains(Strip(part), line, MARKER_END);
      WithinContains(line, block, MARKER_END);
    }
    var i, j :| 0 <= i <= j <= |line| && Strip(part) == line[i..j];
    forall k | 0 <= k < |Strip(part)| ensures !LineBreak()(Strip(part)[k]) {
      assert Strip(part)[k] == line[i + k];
    }
  }

  lemma {:induction false} SafeBlock(lines: seq<string>)
    requires lines != [] && forall i :: 0 <= i < |lines| ==> Free(lines[i], LineBreak()) && !Contains(lines[i], MARKER_END)
    ensures
      var block := Join([""] + lines + [""], "\n");
      !Contains(block, MARKER_END) && SplitOn(block, LineBreak()) == [""] + lines + [""]
  {
    var all := [""] + lines + [""];
    assert ['\n'] == "\n";
    SplitOfJoin(all, '\n', LineBreak());
    forall i | 0 <= i < |all| ensures !Contains(all[i], MARKER_END) {
      assert i == 0 || i == |lines| + 1 || all[i] == lines[i - 1];
    }
    if Contains(Join(all, "\n"), MARKER_END) {
      ContainsJoin(all, '\n', MARKER_END);
    }
  }

  /** A framed list of lines, in the shape the renderers build it. */
  lemma FramedShape(start: string, lines: seq<string>, tail: seq<string>)
    requires lines != [] && tail != []
    ensures Join([start] + lines + tail, "\n") == start + Join([""] + lines + [""], "\n") + Join(tail, "\n")
  {
    JoinAppend([start] + lines, tail, "\n");
    JoinAppend([start], lines, "\n");
    JoinAppend([""] + lines, [""], "\n");
    JoinAppend([""], lines, "\n");
  }

  // ---------- Lists of fields ----------

  function FieldLines(fields: seq<(string, string)>): seq<string> {
    seq(|fields|, i requires 0 <= i < |fields| => FieldLine(fields[i].0, fields[i].1))
  }

  lemma FieldLinesSnoc(fields: seq<(string, string)>)
    requires fields != []
    ensures var n := |fields| - 1;
            FieldLines(fields) == FieldLines(fields[..n]) + [FieldLine(fields[n].0, fields[n].1)]
  {
    hide FieldLine;
  }

  /** The dictionary a parser fills from the fields in order. */
  function FieldMap(fields: seq<(string, string)>): map<string, string> {
    if fields == [] then map[]
    else FieldMap(fields[..|fields| - 1])[fields[|fields| - 1].0 := fields[|fields| - 1].1]
  }

  lemma {:induction false} FieldMapKeys(fields: seq<(string, string)>)
    ensures forall k :: k in FieldMap(fields) <==> exists i :: 0 <= i < |fields| && fields[i].0 == k
  {
    if fields != [] { FieldMapKeys(fields[..|fields| - 1]); }
  }

  lemma {:induction false} FieldMapAt(fields: seq<(string, string)>, i: nat)
    requires i < |fields| && forall a, b :: 0 <= a < b < |fields| ==> fields[a].0 != fields[b].0
    ensures fields[i].0 in FieldMap(fields) && FieldMap(fields)[fields[i].0] == fields[i].1
  {
    if i < |fields| - 1 { FieldMapAt(fields[..|fields| - 1], i); }
  }
}
