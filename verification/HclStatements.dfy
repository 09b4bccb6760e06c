/** IAM statement bodies, `_iam_statement_bodies` of `app/scripts/validate_terraform_contracts.py`. */
module HclStatements {
  import opened Wrappers
  import opened HclScanner

  /** An opening brace read in code. */
  predicate Opens(s: string, o: nat) {
    o < |s| && InCode(ModeAt(s, 0, o)) && s[o] == '{'
  }

  ghost predicate ClosedAt(s: string, o: nat) {
    exists c: nat :: FirstClose(s, o, c)
  }

  /** The text between an opening brace and its first close. */
  ghost function BodyAt(s: string, o: nat): string
    requires Opens(s, o) && ClosedAt(s, o)
  {
    var c: nat :| FirstClose(s, o, c);
    CloseBounds(s, o, c);
    s[o + 1..c]
  }

  lemma CloseBounds(s: string, o: nat, c: nat)
    requires Opens(s, o) && FirstClose(s, o, c)
    ensures o < c < |s|
  {
  }

  /** The text with its outermost objects blanked: what is directly in it. */
  function DirectText(s: string): (r: string)
    ensures |r| == |s| && forall j :: 0 <= j < |s| ==> r[j] == if InObject(s, j) then ' ' else s[j]
  {
    seq(|s|, j requires 0 <= j < |s| => if Nesting(s, j) > 0 || Nesting(s, j + 1) > 0 then ' ' else s[j])
  }

  /** The bodies of the objects opened before `n` that have actions directly in them, in order. */
  ghost function Statements(s: string, hasActions: string -> bool, n: nat): seq<string>
    requires n <= |s| && forall o :: Opens(s, o) ==> ClosedAt(s, o)
  {
    if n == 0 then []
    else
      Statements(s, hasActions, n - 1)
      + if Opens(s, n - 1) && hasActions(DirectText(BodyAt(s, n - 1))) then [BodyAt(s, n - 1)] else []
  }

  /**
   * The same on any text: the bodies behind the braces that show before `n`, up to their first
   * close, that keep an action once masked; none if a brace or a brace inside a body has no close.
   */
  ghost function Found(s: string, hasActions: string -> bool, n: nat): Option<seq<string>>
    requires n <= |s|
  {
    if n == 0 then Some([])
    else
      match Found(s, hasActions, n - 1)
      case None => None
      case Some(front) =>
        if BlankStrings(s, 0)[n - 1] != '{' then Some(front)
        else
          match CloseOf(s, n - 1)
          case None => None
          case Some(c) =>
            var body := if n <= c then s[n..c] else "";
            match MaskFrom(body, 0)
            case None => None
            case Some(direct) => Some(if hasActions(direct) then front + [body] else front)
  }

  lemma {:induction false} FoundFails(s: string, hasActions: string -> bool, n: nat, m: nat)
    requires n <= m <= |s| && Found(s, hasActions, n).None?
    ensures Found(s, hasActions, m).None?
  {
    if n < m { FoundFails(s, hasActions, n, m - 1); }
  }

  // ---------- What lies inside a matched pair of braces ----------

  lemma {:induction false} LocalMode(s: string, o: nat, i: nat)
    requires Opens(s, o) && o < i <= |s|
    ensures ModeAt(s, o, i) == ModeAt(s, 0, i)
  {
    if i > o + 1 { LocalMode(s, o, i - 1); }
  }

  /** The lexer on the body alone is the lexer of the whole text, one brace deeper. */
  lemma {:induction false} BodyModes(s: string, o: nat, c: nat, i: nat)
    requires Opens(s, o) && o < c <= |s| && i <= c - o - 1
    ensures ModeAt(s[o + 1..c], 0, i) == ModeAt(s, o, o + 1 + i)
    ensures DepthAt(s[o + 1..c], 0, i) + 1 == DepthAt(s, o, o + 1 + i)
  {
    if i == 0 {
      AtStart(s, o);
      OneStep(s, o, o);
    } else {
      BodyModes(s, o, c, i - 1);
      assert s[o + 1..c][i - 1] == s[o + i];
    }
  }

  lemma {:induction false} NestingIsDepth(s: string, n: nat)
    requires n <= |s| && forall i :: 0 <= i <= n ==> DepthAt(s, 0, i) >= 0
    ensures Nesting(s, n) == DepthAt(s, 0, n)
  {
    if n > 0 {
      NestingIsDepth(s, n - 1);
      OneStep(s, 0, n - 1);
    }
  }

  /** The body of a closed object of a plain text is plain. */
  lemma BodyIsPlain(s: string, o: nat, c: nat)
    requires PlainHcl(s) && Opens(s, o) && FirstClose(s, o, c)
    ensures o < c && PlainHcl(s[o + 1..c])
  {
    hide ModeAt, DepthAt;
    CloseBounds(s, o, c);
    var body := s[o + 1..c];
    forall i | 0 <= i <= |body|
      ensures ModeAt(body, 0, i) == ModeAt(s, 0, o + 1 + i)
      ensures i < |body| ==> body[i] == s[o + 1 + i]
    {
      BodyModes(s, o, c, i);
      LocalMode(s, o, o + 1 + i);
    }
    LocalMode(s, o, c);
  }

  /** The body of a closed object is balanced. */
  lemma BodyBalanced(s: string, o: nat, c: nat)
    requires Opens(s, o) && FirstClose(s, o, c)
    ensures o < c && Nesting(s[o + 1..c], |s[o + 1..c]|) == 0
  {
    hide ModeAt, DepthAt, Nesting;
    CloseBounds(s, o, c);
    var body := s[o + 1..c];
    forall i | 0 <= i <= |body|
      ensures ModeAt(body, 0, i) == ModeAt(s, 0, o + 1 + i) && DepthAt(body, 0, i) >= 0
    {
      BodyModes(s, o, c, i);
      LocalMode(s, o, o + 1 + i);
      LocalPositive(s, o, o + 1 + i);
    }
    NestingIsDepth(body, |body|);
    BodyModes(s, o, c, |body|);
    OneStep(s, o, c);
  }

  // ---------- When every object is closed ----------

  /** Until it closes, an object contributes its own depth to the nesting around it. */
  lemma {:induction false} NestingAbove(s: string, o: nat, i: nat)
    requires Opens(s, o) && o < i <= |s|
    requires forall j :: o <= j < i - 1 ==> !Closes(s, o, j)
    ensures Nesting(s, i) == Nesting(s, o) + DepthAt(s, o, i)
    decreases i
  {
    LocalMode(s, o, i);
    if i == o + 1 {
      AtStart(s, o);
    } else {
      NestingAbove(s, o, i - 1);
      LocalMode(s, o, i - 1);
      LocalPositive(s, o, i - 1);
    }
  }

  /** Where something is open at the end, one outermost object has been open since some brace. */
  lemma {:induction false} OpenSince(s: string, n: nat) returns (o: nat)
    requires n <= |s| && Nesting(s, n) > 0
    ensures o < n && Opens(s, o) && Nesting(s, o) == 0
    ensures forall i :: o < i <= n ==> Nesting(s, i) > 0
  {
    if Nesting(s, n - 1) == 0 {
      o := n - 1;
    } else {
      o := OpenSince(s, n - 1);
    }
  }

  /** Every object is closed exactly when nothing is open at the end. */
  lemma AllClosedIff(s: string)
    ensures (forall o :: Opens(s, o) ==> ClosedAt(s, o)) <==> Nesting(s, |s|) == 0
  {
    if Nesting(s, |s|) > 0 {
      var o := OpenSince(s, |s|);
      if ClosedAt(s, o) {
        var c: nat :| FirstClose(s, o, c);
        CloseBounds(s, o, c);
        NestingAbove(s, o, c + 1);
      }
    } else {
      forall o | Opens(s, o) ensures ClosedAt(s, o) {
        if !ClosedAt(s, o) { NeverClosedStaysOpen(s, o); }
      }
    }
  }

  lemma NeverClosedStaysOpen(s: string, o: nat)
    requires Opens(s, o) && !ClosedAt(s, o)
    ensures Nesting(s, |s|) > 0
  {
    hide ModeAt, DepthAt, Nesting;
    forall j: nat ensures !Closes(s, o, j) { if Closes(s, o, j) { FirstCloseBefore(s, o, j); } }
    NestingAbove(s, o, |s|);
    LocalPositive(s, o, |s|);
  }

  lemma {:induction false} FirstCloseBefore(s: string, o: nat, j: nat)
    requires Closes(s, o, j)
    ensures ClosedAt(s, o)
    decreases j
  {
    hide ModeAt, DepthAt;
    if k: nat :| o <= k < j && Closes(s, o, k) {
      FirstCloseBefore(s, o, k);
    } else {
      assert FirstClose(s, o, j);
    }
  }

  // ---------- The loop as written ----------

  lemma MaskedIsDirect(s: string, masked: string)
    requires MaskedUpTo(s, masked, |s|)
    ensures masked == DirectText(s)
  {
    hide InObject;
  }

  /** Shown and read braces agree in the text and in the body of each of its objects. */
  ghost predicate ScanAgrees(s: string) {
    BracesAgree(s) && forall o :: Opens(s, o) && ClosedAt(s, o) ==> BracesAgree(BodyAt(s, o))
  }

  lemma ShownIsOpen(s: string, o: nat)
    requires ScanAgrees(s) && o < |s|
    ensures BlankStrings(s, 0)[o] == '{' <==> Opens(s, o)
  {
    hide BlankStrings, BodyAt, ClosedAt;
  }

  lemma BodyAgrees(s: string, o: nat)
    requires ScanAgrees(s) && Opens(s, o) && ClosedAt(s, o)
    ensures BracesAgree(BodyAt(s, o))
  {
  }

  /** Plain text is such a text. */
  lemma PlainScanAgrees(s: string)
    requires PlainHcl(s)
    ensures ScanAgrees(s)
  {
    hide PlainHcl, BracesAgree, FirstClose;
    PlainAgrees(s);
    forall o | Opens(s, o) && ClosedAt(s, o) ensures BracesAgree(BodyAt(s, o)) {
      var c: nat :| FirstClose(s, o, c);
      BodyIs(s, o, c);
      BodyIsPlain(s, o, c);
      PlainAgrees(BodyAt(s, o));
    }
  }

  /**
   * `_iam_statement_bodies`, with `hasActions` for the pattern that finds actions; `None` where
   * `_matching_brace` raises. Where shown and read braces agree it raises exactly when an object is
   * left open, and otherwise returns exactly the closed objects with actions outside their nested objects.
   */
  method IamStatementBodies(policy: string, hasActions: string -> bool) returns (r: Option<seq<string>>)
    ensures r == Found(policy, hasActions, |policy|)
    ensures ScanAgrees(policy) ==> (r.Some? <==> Nesting(policy, |policy|) == 0)
    ensures ScanAgrees(policy) && r.Some? ==>
              && (forall o :: Opens(policy, o) ==> ClosedAt(policy, o))
              && r.value == Statements(policy, hasActions, |policy|)
  {
    hide ScanAgrees, BracesAgree, Nesting, ModeAt, DepthAt, BlankStrings, FirstClose, DirectText, BodyAt, MaskFrom, CloseOf;
    var masked := BlankStrings(policy, 0);
    ghost var agrees := ScanAgrees(policy);
    NothingOpen(policy);
    AllClosedIff(policy);
    ghost var closed := forall o :: Opens(policy, o) ==> ClosedAt(policy, o);
    var statements: seq<string> := [];
    for opening := 0 to |masked|
      invariant Found(policy, hasActions, opening) == Some(statements)
      invariant agrees && closed ==> statements == Statements(policy, hasActions, opening)
      invariant agrees ==> forall o: nat :: o < opening && Opens(policy, o) ==> ClosedAt(policy, o)
    {
      if agrees { ShownIsOpen(policy, opening); }
      if masked[opening] != '{' {
        continue;
      }
      var closing := MatchingBrace(policy, opening);
      if closing.None? {
        NoClose(policy, opening);
        FoundFails(policy, hasActions, opening + 1, |policy|);
        if agrees { NotClosed(policy, opening); }
        return None;
      }
      FirstCloseBounds(policy, opening, closing);
      ghost var c := closing.value;
      CloseOfIs(policy, opening, c);
      if agrees {
        BodyIs(policy, opening, c);
        BodyAgrees(policy, opening);
        BodyBalanced(policy, opening, c);
      } else {
        NeverBefore(policy, opening, c);
      }
      var raw := if opening + 1 <= closing.value then policy[opening + 1..closing.value] else "";
      var direct := MaskNestedObjects(raw);
      if direct.None? {
        FoundFails(policy, hasActions, opening + 1, |policy|);
        return None;
      }
      if agrees { MaskedIsDirect(raw, direct.value); }
      if hasActions(direct.value) {
        statements := statements + [raw];
      }
    }
    return Some(statements);
  }

  lemma NoClose(s: string, o: nat)
    requires forall i :: !Closes(s, o, i)
    ensures CloseOf(s, o).None?
  {
    hide Closes;
  }

  lemma NotClosed(s: string, o: nat)
    requires Opens(s, o) && forall i :: !Closes(s, o, i)
    ensures !ClosedAt(s, o)
  {
  }

  lemma BodyIs(s: string, o: nat, c: nat)
    requires Opens(s, o) && FirstClose(s, o, c)
    ensures ClosedAt(s, o) && o < c < |s| && BodyAt(s, o) == s[o + 1..c]
  {
    CloseBounds(s, o, c);
    var d: nat :| FirstClose(s, o, d) && BodyAt(s, o) == s[o + 1..d];
    CloseIsUnique(s, o, c, d);
  }

  lemma NeverBefore(s: string, o: nat, c: nat)
    requires FirstClose(s, o, c)
    ensures o <= c
  {
  }

  // ---------- Quotes in comments ----------

  /** An object with an action, between two comments that each hold a quote. */
  const QUOTED_COMMENTS := "#\"\n{action=\"s3:*\"}\n#\""

  const QUOTED_BODY := "action=\"s3:*\""

  /** Up to its closing quote a string is skipped whole. */
  lemma {:induction false} StringEndAt(s: string, i: nat, e: nat)
    requires i <= e < |s| && s[e] == '"' && forall j :: i <= j < e ==> s[j] != '"' && s[j] != '\\'
    ensures StringEnd(s, i) == Some(e + 1)
    decreases e - i
  {
    if i < e { StringEndAt(s, i + 1, e); }
  }

  /** Both braces lie in strings of the blanking pattern: it pairs the comments' quotes with the action's. */
  lemma CommentsBlanked()
    ensures forall j :: 0 <= j < |QUOTED_COMMENTS| ==> BlankStrings(QUOTED_COMMENTS, 0)[j] != '{'
  {
    var s := QUOTED_COMMENTS;
    assert |s| == 21 && s[3] == '{' && forall j :: 0 <= j < |s| && s[j] == '{' ==> j == 3;
    StringEndAt(s, 2, 11);
    assert BlankStrings(s, 1) == Spaces(11) + BlankStrings(s, 12);
    assert BlankStrings(s, 0) == ['#'] + BlankStrings(s, 1);
    forall j | 0 <= j < |s| ensures BlankStrings(s, 0)[j] != '{' {
      if j >= 12 { ShowsOnlyText(s, 12, j); }
    }
  }

  /** Blanking shows a character or blanks it. */
  lemma {:induction false} ShowsOnlyText(s: string, i: nat, j: nat)
    requires i <= j < |s|
    ensures BlankStrings(s, i)[j - i] == s[j] || BlankStrings(s, i)[j - i] == ' '
    decreases |s| - i
  {
    hide StringEnd;
    var r := BlankStrings(s, i);
    if s[i] == '"' && StringEnd(s, i + 1).Some? {
      var e := StringEnd(s, i + 1).value;
      assert r == Spaces(e - i) + BlankStrings(s, e);
      if j >= e {
        ShowsOnlyText(s, e, j);
        assert r[j - i] == BlankStrings(s, e)[j - e];
      }
    } else {
      assert r == [s[i]] + BlankStrings(s, i + 1);
      if j > i {
        ShowsOnlyText(s, i + 1, j);
        assert r[j - i] == BlankStrings(s, i + 1)[j - i - 1];
      }
    }
  }

  /** Through characters that start nothing the lexer stays in code, at the same depth. */
  lemma {:induction false} CodeRun(s: string, from: nat, a: nat, b: nat)
    requires from <= a <= b <= |s| && ModeAt(s, from, a) == Code
    requires forall j :: a <= j < b ==> s[j] !in {'"', '#', '/', '{', '}'}
    ensures ModeAt(s, from, b) == Code && DepthAt(s, from, b) == DepthAt(s, from, a)
    decreases b
  {
    if a < b { CodeRun(s, from, a, b - 1); }
  }

  /** Through a string's characters it stays in the string. */
  lemma {:induction false} StringRun(s: string, from: nat, a: nat, b: nat)
    requires from <= a <= b <= |s| && ModeAt(s, from, a) == Str
    requires forall j :: a <= j < b ==> s[j] != '"' && s[j] != '\\'
    ensures ModeAt(s, from, b) == Str && DepthAt(s, from, b) == DepthAt(s, from, a)
    decreases b
  {
    if a < b { StringRun(s, from, a, b - 1); }
  }

  /** The reference lexer reads the object: it opens at 3 and closes at 17. */
  lemma CommentsRead(s: string)
    requires |s| == 21 && s[0] == '#' && s[1] == '"' && s[2] == '\n' && s[3] == '{' && s[11] == '"' && s[16] == '"' && s[17] == '}'
    requires forall j :: 0 <= j < |s| && s[j] == '{' ==> j == 3
    requires forall j :: 4 <= j < 17 && j != 11 && j != 16 ==> s[j] !in {'"', '#', '/', '{', '}', '\\'}
    ensures forall o :: Opens(s, o) <==> o == 3
    ensures FirstClose(s, 3, 17)
  {
    hide ModeAt, DepthAt;
    AtStart(s, 0);
    OneStep(s, 0, 0);
    OneStep(s, 0, 1);
    OneStep(s, 0, 2);
    AtStart(s, 3);
    OneStep(s, 3, 3);
    CodeRun(s, 3, 4, 11);
    OneStep(s, 3, 11);
    StringRun(s, 3, 12, 16);
    OneStep(s, 3, 16);
    OneStep(s, 3, 17);
    assert forall j :: 3 <= j < 17 ==> s[j] != '}';
  }

  lemma {:induction false} NoBraces(s: string, i: nat)
    requires i <= |s| && forall j :: 0 <= j < |s| ==> s[j] != '{' && s[j] != '}'
    ensures Nesting(s, i) == 0
  {
    if i > 0 { NoBraces(s, i - 1); }
  }

  lemma {:induction false} OneStatement(s: string, hasActions: string -> bool, o: nat, n: nat)
    requires n <= |s| && (forall p :: Opens(s, p) <==> p == o) && ClosedAt(s, o) && hasActions(DirectText(BodyAt(s, o)))
    ensures Statements(s, hasActions, n) == if n <= o then [] else [BodyAt(s, o)]
  {
    hide Opens, ClosedAt, BodyAt, DirectText;
    if n > 0 { OneStatement(s, hasActions, o, n - 1); }
  }

  /**
   * With comments the scan is not exact: here the only object is open and closed in code, its body
   * has an action directly in it, and the scan finds no statement.
   */
  lemma CommentHidesStatement(hasActions: string -> bool)
    requires hasActions(QUOTED_BODY)
    ensures
      var s := QUOTED_COMMENTS;
      && (forall o :: Opens(s, o) <==> o == 3) && ClosedAt(s, 3)
      && BodyAt(s, 3) == QUOTED_BODY && DirectText(BodyAt(s, 3)) == QUOTED_BODY
      && Statements(s, hasActions, |s|) == [QUOTED_BODY]
      && Found(s, hasActions, |s|) == Some([])
  {
    hide ModeAt, DepthAt, BlankStrings, Opens, FirstClose, Nesting;
    var s := QUOTED_COMMENTS;
    CommentsRead(s);
    BodyIs(s, 3, 17);
    assert s[4..17] == QUOTED_BODY;
    forall i | 0 <= i <= |QUOTED_BODY| ensures Nesting(QUOTED_BODY, i) == 0 { NoBraces(QUOTED_BODY, i); }
    assert DirectText(QUOTED_BODY) == QUOTED_BODY;
    OneStatement(s, hasActions, 3, |s|);
    CommentsBlanked();
    NothingShown(s, hasActions, |s|);
  }

  lemma {:induction false} NothingShown(s: string, hasActions: string -> bool, n: nat)
    requires n <= |s| && forall i :: 0 <= i < |s| ==> BlankStrings(s, 0)[i] != '{'
    ensures Found(s, hasActions, n) == Some([])
  {
    hide BlankStrings;
    if n > 0 { NothingShown(s, hasActions, n - 1); }
  }
}
