/** The hand-written HCL scanner of `app/scripts/validate_terraform_contracts.py`. */
module HclScanner {
  import opened Wrappers

  // ---------- A reference lexer, one character at a time ----------

  /** `Slash` and `BlockStar` remember a character that may begin or end a comment. */
  datatype Mode = Code | Slash | Str | Escape | Line | Block | BlockStar

  function NextMode(m: Mode, c: char): Mode {
    match m
    case Code => CodeMode(c)
    case Slash => if c == '/' then Line else if c == '*' then Block else CodeMode(c)
    case Str => if c == '\\' then Escape else if c == '"' then Code else Str
    case Escape => Str
    case Line => if c == '\n' then Code else Line
    case Block => if c == '*' then BlockStar else Block
    case BlockStar => if c == '/' then Code else if c == '*' then BlockStar else Block
  }

  function CodeMode(c: char): Mode {
    if c == '"' then Str else if c == '#' then Line else if c == '/' then Slash else Code
  }

  predicate InCode(m: Mode) {
    m == Code || m == Slash
  }

  predicate InString(m: Mode) {
    m == Str || m == Escape
  }

  /** The mode after reading `text[from..to]`, starting in code. */
  function ModeAt(text: string, from: nat, to: nat): Mode
    requires from <= to <= |text|
  {
    if from == to then Code else NextMode(ModeAt(text, from, to - 1), text[to - 1])
  }

  /** How a character moves the brace depth. */
  function Delta(m: Mode, c: char): int {
    if InCode(m) && c == '{' then 1 else if InCode(m) && c == '}' then -1 else 0
  }

  function DepthAt(text: string, from: nat, to: nat): int
    requires from <= to <= |text|
  {
    if from == to then 0 else DepthAt(text, from, to - 1) + Delta(ModeAt(text, from, to - 1), text[to - 1])
  }

  /** A closing brace, in code, that brings the depth back to zero. */
  predicate Closes(text: string, opening: nat, i: nat) {
    opening <= i < |text| && InCode(ModeAt(text, opening, i)) && text[i] == '}' && DepthAt(text, opening, i + 1) == 0
  }

  predicate FirstClose(text: string, opening: nat, i: nat) {
    Closes(text, opening, i) && forall j :: opening <= j < i ==> !Closes(text, opening, j)
  }

  // ---------- `_matching_brace` ----------

  /** The scanner's flags at `index` stand for the reference mode there. */
  predicate Simulates(text: string, index: nat, m: Mode, quote: bool, escaped: bool, lineComment: bool, blockComment: bool) {
    if lineComment then m == Line
    else if blockComment then m == Block || (m == BlockStar && (index < |text| ==> text[index] != '/'))
    else if quote then m == if escaped then Escape else Str
    else m == Code || (m == Slash && (index < |text| ==> text[index] != '/' && text[index] != '*'))
  }

  lemma AtStart(text: string, from: nat)
    requires from <= |text|
    ensures ModeAt(text, from, from) == Code && DepthAt(text, from, from) == 0
  {
  }

  lemma OneStep(text: string, from: nat, i: nat)
    requires from <= i < |text|
    ensures ModeAt(text, from, i + 1) == NextMode(ModeAt(text, from, i), text[i])
    ensures DepthAt(text, from, i + 1) == DepthAt(text, from, i) + Delta(ModeAt(text, from, i), text[i])
  {
  }

  /** `None` where the source raises for an unclosed block. */
  method MatchingBrace(text: string, opening: nat) returns (closing: Option<nat>)
    ensures closing.Some? ==> FirstClose(text, opening, closing.value)
    ensures closing.None? ==> forall i :: !Closes(text, opening, i)
  {
    if opening > |text| {
      return None;
    }
    hide ModeAt, DepthAt;
    assert ModeAt(text, opening, opening) == Code && DepthAt(text, opening, opening) == 0 by { AtStart(text, opening); }
    var depth, index := 0, opening;
    var quote, escaped, lineComment, blockComment := false, false, false, false;
    while index < |text|
      invariant opening <= index <= |text|
      invariant Simulates(text, index, ModeAt(text, opening, index), quote, escaped, lineComment, blockComment)
      invariant (lineComment || blockComment ==> !quote) && !(lineComment && blockComment) && (!quote ==> !escaped)
      invariant depth == DepthAt(text, opening, index)
      invariant forall j :: opening <= j < index ==> !Closes(text, opening, j)
      decreases |text| - index
    {
      var c := text[index];
      var hasNext := index + 1 < |text|;
      OneStep(text, opening, index);
      if hasNext { OneStep(text, opening, index + 1); }
      if lineComment {
        if c == '\n' {
          lineComment := false;
        }
        index := index + 1;
        continue;
      }
      if blockComment {
        if c == '*' && hasNext && text[index + 1] == '/' {
          blockComment := false;
          index := index + 2;
        } else {
          index := index + 1;
        }
        continue;
      }
      if quote {
        if escaped {
          escaped := false;
        } else if c == '\\' {
          escaped := true;
        } else if c == '"' {
          quote := false;
        }
        index := index + 1;
        continue;
      }
      if c == '"' {
        quote := true;
      } else if c == '#' {
        lineComment := true;
      } else if c == '/' && hasNext && text[index + 1] == '/' {
        lineComment := true;
        index := index + 1;
      } else if c == '/' && hasNext && text[index + 1] == '*' {
        blockComment := true;
        index := index + 1;
      } else if c == '{' {
        depth := depth + 1;
      } else if c == '}' {
        depth := depth - 1;
        if depth == 0 {
          return Some(index);
        }
      }
      index := index + 1;
    }
    return None;
  }

  // ---------- Blanking strings, the pattern `STRING_RE` ----------

  /** The end of a string whose characters start at `i`: past its closing quote. */
  function StringEnd(s: string, i: nat): (e: Option<nat>)
    requires i <= |s|
    ensures e.Some? ==> i < e.value <= |s|
    decreases |s| - i
  {
    if i == |s| then None
    else if s[i] == '"' then Some(i + 1)
    else if s[i] == '\\' then (if i + 1 < |s| then StringEnd(s, i + 2) else None)
    else StringEnd(s, i + 1)
  }

  function Spaces(n: nat): (r: string)
    ensures |r| == n && forall i :: 0 <= i < n ==> r[i] == ' '
  {
    seq(n, _ => ' ')
  }

  /** `STRING_RE.sub` with blanks, from position `i` on: leftmost complete strings are blanked. */
  function BlankStrings(s: string, i: nat): (r: string)
    requires i <= |s|
    ensures |r| == |s| - i
    decreases |s| - i
  {
    if i == |s| then ""
    else if s[i] == '"' && StringEnd(s, i + 1).Some? then
      var e := StringEnd(s, i + 1).value;
      Spaces(e - i) + BlankStrings(s, e)
    else [s[i]] + BlankStrings(s, i + 1)
  }

  /** Every opening brace read in code shows once strings are blanked, and no other one does. */
  predicate BracesAgree(s: string) {
    forall j :: 0 <= j < |s| ==> (BlankStrings(s, 0)[j] == '{' <==> InCode(ModeAt(s, 0, j)) && s[j] == '{')
  }

  /** No comment holds a quote or an opening brace, and every string is closed. */
  predicate PlainHcl(s: string) {
    && (forall i :: 0 <= i < |s| && ModeAt(s, 0, i) in {Line, Block, BlockStar} ==> s[i] != '"' && s[i] != '{')
    && !InString(ModeAt(s, 0, |s|))
  }

  lemma {:induction false} StringEndFollowsModes(s: string, i: nat)
    requires PlainHcl(s) && i <= |s| && ModeAt(s, 0, i) == Str
    ensures StringEnd(s, i).Some?
    ensures ModeAt(s, 0, StringEnd(s, i).value) == Code
    ensures forall j :: i <= j < StringEnd(s, i).value ==> InString(ModeAt(s, 0, j))
    decreases |s| - i
  {
    if s[i] == '\\' {
      assert ModeAt(s, 0, i + 1) == Escape;
      assert ModeAt(s, 0, i + 2) == Str;
      StringEndFollowsModes(s, i + 2);
    } else if s[i] != '"' {
      assert ModeAt(s, 0, i + 1) == Str;
      StringEndFollowsModes(s, i + 1);
    }
  }

  /** What the blanked copy shows of a character: itself outside strings and their quotes. */
  function Shown(s: string, j: nat): char
    requires j < |s|
  {
    if !InString(ModeAt(s, 0, j)) && s[j] != '"' then s[j] else ' '
  }

  lemma {:induction false} BlankedShowsCode(s: string, i: nat)
    requires PlainHcl(s) && i <= |s| && !InString(ModeAt(s, 0, i))
    ensures forall j :: i <= j < |s| ==> BlankStrings(s, i)[j - i] == Shown(s, j)
    decreases |s| - i
  {
    hide ModeAt, StringEnd, PlainHcl;
    if i < |s| {
      OneStep(s, 0, i);
      var e := i + 1;
      if s[i] == '"' {
        StringStarts(s, i);
        StringEndFollowsModes(s, i + 1);
        e := StringEnd(s, i + 1).value;
      } else {
        NoStringStarts(s, i);
      }
      BlankedShowsCode(s, e);
      var r, rest := BlankStrings(s, i), BlankStrings(s, e);
      forall j | i <= j < |s| ensures r[j - i] == Shown(s, j) {
        if j >= e { assert r[j - i] == rest[j - e]; }
      }
    }
  }

  lemma StringStarts(s: string, i: nat)
    requires PlainHcl(s) && i < |s| && !InString(ModeAt(s, 0, i)) && s[i] == '"'
    ensures ModeAt(s, 0, i + 1) == Str
  {
  }

  lemma NoStringStarts(s: string, i: nat)
    requires i < |s| && !InString(ModeAt(s, 0, i)) && s[i] != '"'
    ensures !InString(ModeAt(s, 0, i + 1))
  {
  }

  // ---------- `_mask_nested_objects` ----------

  /** How many objects are open after `i` characters; a stray closing brace opens nothing. */
  function Nesting(s: string, i: nat): nat
    requires i <= |s|
  {
    if i == 0 then 0
    else
      var before, d := Nesting(s, i - 1), Delta(ModeAt(s, 0, i - 1), s[i - 1]);
      if before == 0 && d < 0 then 0 else before + d
  }

  /** Position `i` lies in an outermost `{...}`, its braces included. */
  predicate InObject(s: string, i: nat)
    requires i < |s|
  {
    Nesting(s, i) > 0 || Nesting(s, i + 1) > 0
  }

  /** Reading on from an opening brace in code: the local lexer agrees with the whole text's. */
  lemma {:induction false} LocalAgrees(s: string, opening: nat, i: nat)
    requires opening < i <= |s| && InCode(ModeAt(s, 0, opening)) && s[opening] == '{'
    requires Nesting(s, opening) == 0
    requires forall j :: opening <= j < i - 1 ==> !Closes(s, opening, j)
    ensures ModeAt(s, opening, i) == ModeAt(s, 0, i)
    ensures Nesting(s, i) == DepthAt(s, opening, i)
    ensures i - 1 > opening ==> DepthAt(s, opening, i - 1) > 0
    decreases i
  {
    if i > opening + 1 {
      LocalAgrees(s, opening, i - 1);
      assert !Closes(s, opening, i - 2) || i - 2 < opening;
      LocalPositive(s, opening, i - 1);
    }
  }

  /** Before the first close the local depth stays positive. */
  lemma {:induction false} LocalPositive(s: string, opening: nat, i: nat)
    requires opening < i <= |s| && s[opening] == '{'
    requires forall j :: opening <= j < i ==> !Closes(s, opening, j)
    ensures DepthAt(s, opening, i) > 0
    decreases i
  {
    if i > opening + 1 {
      LocalPositive(s, opening, i - 1);
      assert !Closes(s, opening, i - 1);
    }
  }

  /** A suffix decides the local lexer: what was blanked before does not matter. */
  lemma {:induction false} SuffixDecides(a: string, b: string, opening: nat, i: nat)
    requires |a| == |b| && opening <= i <= |a| && a[opening..] == b[opening..]
    ensures ModeAt(a, opening, i) == ModeAt(b, opening, i) && DepthAt(a, opening, i) == DepthAt(b, opening, i)
  {
    if i > opening {
      SuffixDecides(a, b, opening, i - 1);
      assert a[opening..][i - 1 - opening] == b[opening..][i - 1 - opening];
    }
  }

  /** A character that opens no object leaves the scan outside of all. */
  lemma OutsideStep(s: string, i: nat)
    requires i < |s| && Nesting(s, i) == 0 && !(InCode(ModeAt(s, 0, i)) && s[i] == '{')
    ensures Nesting(s, i + 1) == 0 && !InObject(s, i)
  {
  }

  lemma AgreesAt(s: string, j: nat)
    requires j < |s|
    ensures BracesAgree(s) ==> (BlankStrings(s, 0)[j] == '{' <==> InCode(ModeAt(s, 0, j)) && s[j] == '{')
  {
  }

  lemma NothingOpen(s: string)
    ensures Nesting(s, 0) == 0
  {
  }

  lemma PlainAgrees(s: string)
    requires PlainHcl(s)
    ensures BracesAgree(s)
  {
    AtStart(s, 0);
    BlankedShowsCode(s, 0);
    forall j | 0 <= j < |s| ensures BlankStrings(s, 0)[j] == '{' <==> InCode(ModeAt(s, 0, j)) && s[j] == '{' {
      assert BlankStrings(s, 0)[j - 0] == Shown(s, j);
    }
  }

  /** The span from an outermost opening brace to its first close is exactly one object. */
  lemma SpanIsObject(s: string, opening: nat, closing: nat)
    requires opening < |s| && InCode(ModeAt(s, 0, opening)) && s[opening] == '{' && Nesting(s, opening) == 0
    requires FirstClose(s, opening, closing)
    ensures forall j :: opening <= j <= closing ==> InObject(s, j)
    ensures InCode(ModeAt(s, 0, closing + 1)) && Nesting(s, closing + 1) == 0
  {
    LocalAgrees(s, opening, closing + 1);
    forall j | opening <= j <= closing ensures InObject(s, j) {
      if j > opening {
        LocalPositive(s, opening, j);
        LocalAgrees(s, opening, j);
      } else {
        LocalAgrees(s, opening, opening + 1);
      }
    }
  }

  lemma {:induction false} UnclosedStaysOpen(s: string, opening: nat)
    requires opening < |s| && InCode(ModeAt(s, 0, opening)) && s[opening] == '{' && Nesting(s, opening) == 0
    requires forall i :: !Closes(s, opening, i)
    ensures Nesting(s, |s|) > 0
  {
    LocalAgrees(s, opening, |s|);
    LocalPositive(s, opening, |s|);
  }

  /** What the masked text keeps: everything outside the outermost objects, blanks inside. */
  predicate MaskedUpTo(s: string, masked: string, upTo: nat)
    requires upTo <= |s|
  {
    && |masked| == |s|
    && (forall j :: 0 <= j < upTo ==> masked[j] == if InObject(s, j) then ' ' else s[j])
    && forall j :: upTo <= j < |s| ==> masked[j] == s[j]
  }

  lemma FirstCloseBounds(text: string, opening: nat, closing: Option<nat>)
    ensures closing.Some? && FirstClose(text, opening, closing.value) ==> opening <= closing.value < |text|
  {
  }

  /** The first close of what opens at `o`, if it closes at all. */
  ghost function CloseOf(s: string, o: nat): (c: Option<nat>)
    ensures c.Some? ==> FirstClose(s, o, c.value) && o <= c.value < |s|
    ensures c.None? ==> forall i: nat :: !FirstClose(s, o, i)
  {
    if exists c: nat :: FirstClose(s, o, c) then
      var c: nat :| FirstClose(s, o, c);
      Some(c)
    else None
  }

  lemma CloseOfIs(s: string, o: nat, c: nat)
    requires FirstClose(s, o, c)
    ensures CloseOf(s, o) == Some(c)
  {
    hide Closes;
    assert CloseOf(s, o).Some?;
    CloseIsUnique(s, o, c, CloseOf(s, o).value);
  }

  lemma CloseIsUnique(s: string, o: nat, c: nat, d: nat)
    requires FirstClose(s, o, c) && FirstClose(s, o, d)
    ensures c == d
  {
  }

  function Prepend(front: string, rest: Option<string>): Option<string> {
    if rest.Some? then Some(front + rest.value) else None
  }

  /**
   * What masking makes of any text from `cursor` on: a brace that shows once strings are blanked
   * is blanked together with everything up to its first close, and must have one.
   */
  ghost function MaskFrom(s: string, cursor: nat): Option<string>
    requires cursor <= |s|
    decreases |s| - cursor
  {
    if cursor == |s| then Some("")
    else if BlankStrings(s, 0)[cursor] == '{' then
      match CloseOf(s, cursor)
      case None => None
      case Some(c) => Prepend(Spaces(c + 1 - cursor), MaskFrom(s, c + 1))
    else Prepend([s[cursor]], MaskFrom(s, cursor + 1))
  }

  lemma PrependTwice(a: string, b: string, rest: Option<string>)
    ensures Prepend(a, Prepend(b, rest)) == Prepend(a + b, rest)
  {
    if rest.Some? { assert a + (b + rest.value) == a + b + rest.value; }
  }

  lemma MaskSpan(s: string, before: string, cursor: nat, c: nat)
    requires |before| == |s| && cursor < |s| && before[cursor..] == s[cursor..] && BlankStrings(s, 0)[cursor] == '{'
    requires FirstClose(before, cursor, c)
    ensures c < |s|
    ensures
      var after := before[..cursor] + Spaces(c + 1 - cursor) + before[c + 1..];
      Prepend(before[..cursor], MaskFrom(s, cursor)) == Prepend(after[..c + 1], MaskFrom(s, c + 1))
  {
    hide BlankStrings, FirstClose;
    FirstCloseBounds(before, cursor, Some(c));
    ClosesTogether(s, before, cursor, c);
    CloseOfIs(s, cursor, c);
    PrependTwice(before[..cursor], Spaces(c + 1 - cursor), MaskFrom(s, c + 1));
    var after := before[..cursor] + Spaces(c + 1 - cursor) + before[c + 1..];
    assert after[..c + 1] == before[..cursor] + Spaces(c + 1 - cursor);
  }

  lemma MaskCharacter(s: string, current: string, cursor: nat)
    requires |current| == |s| && cursor < |s| && current[cursor] == s[cursor] && BlankStrings(s, 0)[cursor] != '{'
    ensures Prepend(current[..cursor], MaskFrom(s, cursor)) == Prepend(current[..cursor + 1], MaskFrom(s, cursor + 1))
  {
    hide BlankStrings;
    PrependTwice(current[..cursor], [s[cursor]], MaskFrom(s, cursor + 1));
    assert current[..cursor + 1] == current[..cursor] + [s[cursor]];
  }

  lemma MaskUnclosed(s: string, current: string, cursor: nat)
    requires |current| == |s| && cursor < |s| && current[cursor..] == s[cursor..] && BlankStrings(s, 0)[cursor] == '{'
    requires forall i :: !Closes(current, cursor, i)
    ensures MaskFrom(s, cursor).None?
  {
    hide BlankStrings, ModeAt, DepthAt;
    if CloseOf(s, cursor).Some? {
      ClosesTogether(current, s, cursor, CloseOf(s, cursor).value);
    }
  }

  /**
   * `_mask_nested_objects`; `None` where `_matching_brace` raises. On plain text it blanks
   * exactly the outermost objects, and raises exactly when one is left open.
   */
  method MaskNestedObjects(body: string) returns (masked: Option<string>)
    ensures masked.Some? ==>
              |masked.value| == |body| && forall j :: 0 <= j < |body| ==> masked.value[j] == body[j] || masked.value[j] == ' '
    ensures masked == MaskFrom(body, 0)
    ensures BracesAgree(body) ==> (masked.Some? <==> Nesting(body, |body|) == 0)
    ensures BracesAgree(body) && masked.Some? ==> MaskedUpTo(body, masked.value, |body|)
  {
    hide ModeAt, DepthAt, Nesting, BlankStrings, BracesAgree, FirstClose, InObject, MaskFrom, Prepend;
    var direct := BlankStrings(body, 0);
    NothingOpen(body);
    var current, cursor := body, 0;
    MaskAll(body);
    while cursor < |direct|
      invariant cursor <= |direct| == |body| == |current|
      invariant forall j :: 0 <= j < |body| ==> current[j] == body[j] || current[j] == ' '
      invariant forall j :: cursor <= j < |body| ==> current[j] == body[j]
      invariant Prepend(current[..cursor], MaskFrom(body, cursor)) == MaskFrom(body, 0)
      invariant BracesAgree(body) ==> Nesting(body, cursor) == 0
      invariant BracesAgree(body) ==> MaskedUpTo(body, current, cursor)
      decreases |direct| - cursor
    {
      AgreesAt(body, cursor);
      if direct[cursor] == '{' {
        var end := MatchingBrace(current, cursor);
        FirstCloseBounds(current, cursor, end);
        assert current[cursor..] == body[cursor..];
        if end.None? {
          MaskUnclosed(body, current, cursor);
          NoneStays(current[..cursor], MaskFrom(body, cursor));
          if BracesAgree(body) { RaisesWhenOpen(body, current, cursor); }
          return None;
        }
        ghost var before := current;
        MaskSpan(body, before, cursor, end.value);
        current := current[..cursor] + Spaces(end.value + 1 - cursor) + current[end.value + 1..];
        if BracesAgree(body) {
          ClosesTogether(body, before, cursor, end.value);
          SpanIsObject(body, cursor, end.value);
        }
        cursor := end.value;
      } else {
        MaskCharacter(body, current, cursor);
        if BracesAgree(body) { OutsideStep(body, cursor); }
      }
      cursor := cursor + 1;
    }
    assert current[..|current|] == current;
    MaskEnd(body, current);
    return Some(current);
  }

  lemma MaskAll(s: string)
    ensures Prepend(s[..0], MaskFrom(s, 0)) == MaskFrom(s, 0)
  {
    if MaskFrom(s, 0).Some? { assert s[..0] + MaskFrom(s, 0).value == MaskFrom(s, 0).value; }
  }

  lemma MaskEnd(s: string, front: string)
    ensures Prepend(front, MaskFrom(s, |s|)) == Some(front)
  {
    assert front + "" == front;
  }

  lemma NoneStays(front: string, rest: Option<string>)
    requires rest.None?
    ensures Prepend(front, rest).None?
  {
  }

  lemma ClosesTogether(a: string, b: string, opening: nat, i: nat)
    requires |a| == |b| && opening <= |a| && a[opening..] == b[opening..] && FirstClose(b, opening, i)
    ensures FirstClose(a, opening, i)
  {
    forall j | opening <= j <= i ensures Closes(a, opening, j) == Closes(b, opening, j) {
      SuffixDecides(a, b, opening, j);
      SuffixDecides(a, b, opening, j + 1);
      assert a[opening..][j - opening] == b[opening..][j - opening];
    }
  }

  lemma RaisesWhenOpen(body: string, current: string, cursor: nat)
    requires |body| == |current| && cursor < |body| && body[cursor..] == current[cursor..]
    requires InCode(ModeAt(body, 0, cursor)) && body[cursor] == '{' && Nesting(body, cursor) == 0
    requires forall i :: !Closes(current, cursor, i)
    ensures Nesting(body, |body|) > 0
  {
    forall i: nat ensures !Closes(body, cursor, i) {
      if cursor <= i < |body| {
        SuffixDecides(body, current, cursor, i);
        SuffixDecides(body, current, cursor, i + 1);
        assert body[cursor..][i - cursor] == current[cursor..][i - cursor];
        assert !Closes(current, cursor, i);
      }
    }
    UnclosedStaysOpen(body, cursor);
  }
}
