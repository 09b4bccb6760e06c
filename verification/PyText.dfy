/** The Python string operations that the printers and parsers are built from. */
module PyText {
  import opened Wrappers

  /** `str.splitlines` breaks at these characters. */
  predicate IsLineBreak(c: char) {
    c == '\n' || c == '\r' || '\U{0B}' <= c <= '\U{0C}' || '\U{1C}' <= c <= '\U{1E}'
    || c == '\U{85}' || c == '\U{2028}' || c == '\U{2029}'
  }

  /** `str.strip` removes these characters: the line breaks and the blanks. */
  predicate IsSpace(c: char) {
    IsLineBreak(c) || c == ' ' || c == '\t' || c == '\U{1F}' || c == '\U{A0}' || c == '\U{3000}'
  }

  // ---------- strip ----------

  function LStrip(s: string): string {
    if s != "" && IsSpace(s[0]) then LStrip(s[1..]) else s
  }

  function RStrip(s: string): string {
    if s != "" && IsSpace(s[|s| - 1]) then RStrip(s[..|s| - 1]) else s
  }

  function Strip(s: string): string {
    RStrip(LStrip(s))
  }

  predicate Trimmed(s: string) {
    s == "" || (!IsSpace(s[0]) && !IsSpace(s[|s| - 1]))
  }

  /** `t` is a contiguous part of `s`. */
  ghost predicate Within(t: string, s: string) {
    exists i, j :: 0 <= i <= j <= |s| && t == s[i..j]
  }

  lemma SliceOfSlice(s: string, i: int, j: int, k: int, l: int)
    requires 0 <= i <= j <= |s| && 0 <= k <= l <= j - i
    ensures s[i..j][k..l] == s[i + k..i + l]
  {
    var a, b := s[i..j][k..l], s[i + k..i + l];
    forall x | 0 <= x < |a| ensures a[x] == b[x] {
      assert a[x] == s[i..j][k + x];
    }
  }

  lemma WithinTransitive(a: string, b: string, c: string)
    requires Within(a, b) && Within(b, c)
    ensures Within(a, c)
  {
    var i, j :| 0 <= i <= j <= |b| && a == b[i..j];
    var k, l :| 0 <= k <= l <= |c| && b == c[k..l];
    SliceOfSlice(c, k, l, i, j);
  }

  lemma {:induction false} LStripSuffix(s: string)
    ensures Within(LStrip(s), s) && (LStrip(s) == "" || !IsSpace(LStrip(s)[0]))
  {
    if s != "" && IsSpace(s[0]) {
      LStripSuffix(s[1..]);
      assert s[1..] == s[1..|s|];
      WithinTransitive(LStrip(s), s[1..], s);
    } else {
      assert s == s[0..|s|];
    }
  }

  lemma {:induction false} RStripPrefix(s: string)
    ensures |RStrip(s)| <= |s| && RStrip(s) == s[..|RStrip(s)|]
    ensures RStrip(s) == "" || !IsSpace(RStrip(s)[|RStrip(s)| - 1])
  {
    if s != "" && IsSpace(s[|s| - 1]) {
      RStripPrefix(s[..|s| - 1]);
    }
  }

  /** Stripping yields a trimmed part of the text, and nothing but outer whitespace is lost. */
  lemma StripTrims(s: string)
    ensures Trimmed(Strip(s)) && Within(Strip(s), s)
  {
    LStripSuffix(s);
    RStripPrefix(LStrip(s));
    var l, r := LStrip(s), Strip(s);
    assert r == l[0..|r|];
    WithinTransitive(r, l, s);
  }

  lemma StripOfTrimmed(s: string)
    requires Trimmed(s)
    ensures Strip(s) == s
  {
  }

  // ---------- split and join ----------

  ghost predicate Free(s: string, sep: char -> bool) {
    forall i :: 0 <= i < |s| ==> !sep(s[i])
  }

  /**
   * Splits at every separator character. For `splitlines` this differs from Python only in
   * blank lines (after a final break, and inside "\r\n"), which every caller skips.
   */
  function SplitOn(s: string, sep: char -> bool): (parts: seq<string>)
    ensures |parts| > 0
  {
    if s == "" then [""]
    else
      var rest := SplitOn(s[1..], sep);
      if sep(s[0]) then [""] + rest else [[s[0]] + rest[0]] + rest[1..]
  }

  function Join(parts: seq<string>, sep: string): string {
    if parts == [] then "" else if |parts| == 1 then parts[0] else parts[0] + sep + Join(parts[1..], sep)
  }

  lemma {:induction false} SplitPrefix(a: string, s: string, sep: char -> bool)
    requires Free(a, sep)
    ensures SplitOn(a + s, sep) == [a + SplitOn(s, sep)[0]] + SplitOn(s, sep)[1..]
  {
    if a == "" {
      assert a + s == s && a + SplitOn(s, sep)[0] == SplitOn(s, sep)[0];
    } else {
      assert (a + s)[1..] == a[1..] + s;
      SplitPrefix(a[1..], s, sep);
      var first := SplitOn(s, sep)[0];
      assert [a[0]] + (a[1..] + first) == a + first;
    }
  }

  /** Splitting undoes joining, for parts without separators. */
  lemma {:induction false} SplitOfJoin(parts: seq<string>, c: char, sep: char -> bool)
    requires parts != [] && sep(c) && forall i :: 0 <= i < |parts| ==> Free(parts[i], sep)
    ensures SplitOn(Join(parts, [c]), sep) == parts
  {
    if |parts| == 1 {
      SplitPrefix(parts[0], "", sep);
      assert parts[0] + "" == parts[0];
    } else {
      var tail := [c] + Join(parts[1..], [c]);
      SplitOfJoin(parts[1..], c, sep);
      assert tail[1..] == Join(parts[1..], [c]);
      assert SplitOn(tail, sep) == [""] + parts[1..];
      SplitPrefix(parts[0], tail, sep);
      assert parts[0] + "" == parts[0];
      assert parts[0] + [c] + Join(parts[1..], [c]) == parts[0] + tail;
    }
  }

  /** Joining undoes splitting at a single character. */
  lemma {:induction false} JoinOfSplit(s: string, c: char, sep: char -> bool)
    requires forall x :: sep(x) <==> x == c
    ensures Join(SplitOn(s, sep), [c]) == s
  {
    if s != "" {
      JoinOfSplit(s[1..], c, sep);
      var rest := SplitOn(s[1..], sep);
      if sep(s[0]) {
        assert SplitOn(s, sep)[1..] == rest;
      } else if |rest| > 1 {
        assert SplitOn(s, sep)[1..] == rest[1..];
      }
    }
  }

  lemma {:induction false} SplitParts(s: string, sep: char -> bool)
    ensures forall i :: 0 <= i < |SplitOn(s, sep)| ==> Free(SplitOn(s, sep)[i], sep) && Within(SplitOn(s, sep)[i], s)
    ensures SplitOn(s, sep)[0] <= s
  {
    var parts := SplitOn(s, sep);
    if s == "" {
      assert "" == s[0..0];
    } else {
      SplitParts(s[1..], sep);
      var rest := SplitOn(s[1..], sep);
      assert s[1..] == s[1..|s|];
      forall i | 0 <= i < |parts| ensures Free(parts[i], sep) && Within(parts[i], s) {
        if sep(s[0]) {
          if i == 0 { assert "" == s[0..0]; } else { WithinTransitive(rest[i - 1], s[1..], s); }
        } else if i == 0 {
          assert parts[0] == s[0..|parts[0]|];
        } else {
          WithinTransitive(rest[i], s[1..], s);
        }
      }
    }
  }

  // ---------- find ----------

  predicate OccursAt(s: string, needle: string, i: int) {
    0 <= i && i + |needle| <= |s| && s[i..i + |needle|] == needle
  }

  ghost predicate Contains(s: string, needle: string) {
    exists i :: OccursAt(s, needle, i)
  }

  /** `str.find` from an offset: the first occurrence, if any. */
  function Find(s: string, needle: string, from: nat): (r: Option<nat>)
    ensures r.Some? ==> from <= r.value && OccursAt(s, needle, r.value)
    ensures forall i :: from <= i && OccursAt(s, needle, i) ==> r.Some? && r.value <= i
    decreases |s| - from
  {
    if from + |needle| > |s| then None
    else if OccursAt(s, needle, from) then Some(from)
    else Find(s, needle, from + 1)
  }

  lemma WithinContains(t: string, s: string, needle: string)
    requires Within(t, s) && Contains(t, needle)
    ensures Contains(s, needle)
  {
    var i, j :| 0 <= i <= j <= |s| && t == s[i..j];
    var k :| OccursAt(t, needle, k);
    SliceOfSlice(s, i, j, k, k + |needle|);
    assert OccursAt(s, needle, i + k);
  }

  lemma Straddles(a: string, c: char, b: string, needle: string, i: int)
    requires OccursAt(a + [c] + b, needle, i) && i <= |a| < i + |needle|
    ensures c in needle
  {
    var s := a + [c] + b;
    assert s[|a|] == c;
    assert s[i..i + |needle|][|a| - i] == s[|a|];
  }

  /** A needle without the character `c` cannot straddle it. */
  lemma ContainsAround(a: string, c: char, b: string, needle: string)
    requires Contains(a + [c] + b, needle) && c !in needle && needle != ""
    ensures Contains(a, needle) || Contains(b, needle)
  {
    var s := a + [c] + b;
    var i :| OccursAt(s, needle, i);
    if i + |needle| <= |a| {
      assert a == s[..|a|] && a[i..i + |needle|] == s[i..i + |needle|];
      assert OccursAt(a, needle, i);
    } else if i > |a| {
      var k := |a| + 1;
      assert b == s[k..] && b[i - k..i - k + |needle|] == s[i..i + |needle|];
      assert OccursAt(b, needle, i - k);
    } else {
      Straddles(a, c, b, needle, i);
      assert false;
    }
  }

  lemma {:induction false} ContainsJoin(parts: seq<string>, c: char, needle: string)
    requires Contains(Join(parts, [c]), needle) && c !in needle && needle != ""
    ensures exists i :: 0 <= i < |parts| && Contains(parts[i], needle)
  {
    if |parts| > 1 {
      ContainsAround(parts[0], c, Join(parts[1..], [c]), needle);
      if !Contains(parts[0], needle) {
        ContainsJoin(parts[1..], c, needle);
        var i :| 0 <= i < |parts[1..]| && Contains(parts[1..][i], needle);
        assert Contains(parts[i + 1], needle);
      }
    }
  }

  lemma {:induction false} JoinAppend(a: seq<string>, b: seq<string>, sep: string)
    requires a != [] && b != []
    ensures Join(a + b, sep) == Join(a, sep) + sep + Join(b, sep)
  {
    if |a| == 1 {
      assert (a + b)[1..] == b;
    } else {
      assert (a + b)[1..] == a[1..] + b;
      JoinAppend(a[1..], b, sep);
    }
  }

  // ---------- decimal integers ----------

  predicate IsDigit(c: char) {
    '0' <= c <= '9'
  }

  function Digit(d: nat): (c: char)
    requires d < 10
    ensures IsDigit(c)
  {
    ['0', '1', '2', '3', '4', '5', '6', '7', '8', '9'][d]
  }

  /** `str(n)` for a non-negative integer. */
  function Decimal(n: nat): (s: string)
    ensures |s| > 0 && forall i :: 0 <= i < |s| ==> IsDigit(s[i])
  {
    if n < 10 then [Digit(n)] else Decimal(n / 10) + [Digit(n % 10)]
  }

  /** Digits with single underscores between them. */
  predicate IsDigitGroup(s: string) {
    && |s| > 0 && IsDigit(s[0]) && IsDigit(s[|s| - 1])
    && (forall i :: 0 <= i < |s| ==> IsDigit(s[i]) || s[i] == '_')
    && forall i :: 0 <= i < |s| - 1 ==> s[i] != '_' || s[i + 1] != '_'
  }

  function DigitsValue(s: string): nat {
    if s == "" then 0
    else
      var c := s[|s| - 1];
      var front := DigitsValue(s[..|s| - 1]);
      if IsDigit(c) then 10 * front + (c as int - '0' as int) else front
  }

  /** `int(text)` on stripped ASCII text: an optional sign and a digit group. */
  function PyInt(s: string): Option<int> {
    if s != "" && (s[0] == '+' || s[0] == '-') then
      if IsDigitGroup(s[1..]) then Some(if s[0] == '-' then -(DigitsValue(s[1..]) as int) else DigitsValue(s[1..]) as int) else None
    else if IsDigitGroup(s) then Some(DigitsValue(s))
    else None
  }

  function Underscore(): char -> bool {
    c => c == '_'
  }

  predicate AllDigits(s: string) {
    forall i :: 0 <= i < |s| ==> IsDigit(s[i])
  }

  ghost predicate DigitRuns(parts: seq<string>) {
    forall i :: 0 <= i < |parts| ==> parts[i] != "" && AllDigits(parts[i])
  }

  /** The text between underscores of what follows a digit. */
  lemma {:induction false} RunsAfterADigit(s: string)
    ensures
      var parts := SplitOn(s, Underscore());
      AllDigits(parts[0]) && DigitRuns(parts[1..]) <==>
        s == "" || (IsDigit(s[|s| - 1]) && (forall i :: 0 <= i < |s| ==> IsDigit(s[i]) || s[i] == '_')
                    && forall i :: 0 <= i < |s| - 1 ==> s[i] != '_' || s[i + 1] != '_')
  {
    if s != "" {
      var rest := s[1..];
      RunsAfterADigit(rest);
      var parts := SplitOn(rest, Underscore());
      assert s == [s[0]] + rest;
      if s[0] == '_' {
        assert ([""] + parts)[1..] == parts;
        assert DigitRuns(parts) <==> parts[0] != "" && AllDigits(parts[0]) && DigitRuns(parts[1..]) by {
          assert parts == [parts[0]] + parts[1..];
        }
        assert parts[0] == "" <==> rest == "" || rest[0] == '_';
      } else {
        assert ([[s[0]] + parts[0]] + parts[1..])[1..] == parts[1..];
        assert AllDigits([s[0]] + parts[0]) <==> IsDigit(s[0]) && AllDigits(parts[0]) by {
          assert forall i :: 0 <= i < |parts[0]| ==> ([s[0]] + parts[0])[i + 1] == parts[0][i];
          assert ([s[0]] + parts[0])[0] == s[0];
        }
      }
    }
  }

  /** A digit group is what underscores join out of runs of digits. */
  lemma DigitGroupIff(s: string)
    ensures IsDigitGroup(s) <==> DigitRuns(SplitOn(s, Underscore()))
  {
    hide SplitOn;
    RunsAfterADigit(s);
    var parts := SplitOn(s, Underscore());
    assert parts == [parts[0]] + parts[1..];
    assert parts[0] == "" <==> s == "" || s[0] == '_' by { FirstRun(s); }
  }

  lemma FirstRun(s: string)
    ensures SplitOn(s, Underscore())[0] == "" <==> s == "" || s[0] == '_'
  {
  }

  lemma {:induction false} DigitsOfDecimal(n: nat)
    ensures DigitsValue(Decimal(n)) == n
  {
    if n >= 10 {
      DigitsOfDecimal(n / 10);
      var front := Decimal(n / 10);
      assert Decimal(n)[..|Decimal(n)| - 1] == front;
    }
  }

  lemma PyIntOfDecimal(n: nat)
    ensures PyInt(Decimal(n)) == Some(n as int)
  {
    DigitsOfDecimal(n);
    assert IsDigit(Decimal(n)[0]);
  }
}
