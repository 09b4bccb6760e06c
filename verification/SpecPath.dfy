/** Task Spec path canonicalisation, `agent/spec.py`. */
module SpecPath {
  import opened Wrappers
  import opened PyText

  /** `path.replace("\\", "/")` */
  function Posix(s: string): (r: string)
    ensures |r| == |s| && forall i :: 0 <= i < |s| ==> r[i] == if s[i] == '\\' then '/' else s[i]
  {
    seq(|s|, i requires 0 <= i < |s| => if s[i] == '\\' then '/' else s[i])
  }

  function IsSlash(): char -> bool {
    c => c == '/'
  }

  function Segments(path: string): seq<string> {
    SplitOn(Posix(path), IsSlash())
  }

  predicate IsName(segment: string) {
    segment != "" && segment != "." && segment != ".."
  }

  // ---------- The reference walk ----------

  /** How deep below the repository root the first `k` segments lead. */
  function Depth(segs: seq<string>, k: nat): int
    requires k <= |segs|
  {
    if k == 0 then 0
    else Depth(segs, k - 1) + (if segs[k - 1] == ".." then -1 else if IsName(segs[k - 1]) then 1 else 0)
  }

  /** Some prefix climbs above the root. */
  ghost predicate Climbs(segs: seq<string>) {
    exists k :: 0 <= k <= |segs| && Depth(segs, k) < 0
  }

  /** The name at `i` is still on the path after `n` segments: nothing later climbed out of it. */
  ghost predicate Survives(segs: seq<string>, i: int, n: nat)
    requires n <= |segs|
  {
    0 <= i < n && IsName(segs[i]) && forall j :: i < j <= n ==> Depth(segs, j) >= Depth(segs, i + 1)
  }

  /** `at` lists exactly the surviving positions, in order, and `parts` are their names. */
  ghost predicate Walked(segs: seq<string>, n: nat, at: seq<int>, parts: seq<string>) {
    && n <= |segs|
    && |at| == |parts| == Depth(segs, n)
    && (forall k :: 0 <= k < |at| ==> 0 <= at[k] < n && parts[k] == segs[at[k]] && Depth(segs, at[k] + 1) == k + 1)
    && (forall k, l :: 0 <= k < l < |at| ==> at[k] < at[l])
    && forall i :: i in at <==> Survives(segs, i, n)
  }

  // ---------- `_collapse_path_segments` ----------

  function CollapseFrom(parts: seq<string>, segs: seq<string>): Option<seq<string>>
    decreases |segs|
  {
    if segs == [] then Some(parts)
    else if segs[0] == "" || segs[0] == "." then CollapseFrom(parts, segs[1..])
    else if segs[0] == ".." then
      if parts == [] then None else CollapseFrom(parts[..|parts| - 1], segs[1..])
    else CollapseFrom(parts + [segs[0]], segs[1..])
  }

  function Collapse(relative: string): Option<string> {
    match CollapseFrom([], Segments(relative))
    case None => None
    case Some(parts) => Some(Join(parts, "/"))
  }

  /**
   * The loop as written, which pushes and pops a list; `None` where it raises. It raises
   * exactly when some prefix climbs above the root, and keeps exactly the surviving names.
   */
  method CollapsePathSegments(relative: string) returns (r: Option<string>)
    ensures r == Collapse(relative)
    ensures r.None? <==> Climbs(Segments(relative))
    ensures r.Some? ==>
              exists at, parts :: Walked(Segments(relative), |Segments(relative)|, at, parts) && r.value == Join(parts, "/")
  {
    var segs := Segments(relative);
    var parts: seq<string> := [];
    ghost var at: seq<int> := [];
    for i := 0 to |segs|
      invariant Walked(segs, i, at, parts)
      invariant forall k :: 0 <= k <= i ==> Depth(segs, k) >= 0
      invariant CollapseFrom(parts, segs[i..]) == CollapseFrom([], segs)
    {
      var part := segs[i];
      assert segs[i..][0] == part && segs[i..][1..] == segs[i + 1..];
      if part == "" || part == "." {
        WalkOn(segs, i, at, parts);
        continue;
      }
      if part == ".." {
        if parts == [] {
          assert Depth(segs, i + 1) < 0;
          return None;
        }
        WalkUp(segs, i, at, parts);
        parts, at := parts[..|parts| - 1], at[..|at| - 1];
        continue;
      }
      WalkDown(segs, i, at, parts);
      parts, at := parts + [part], at + [i];
    }
    r := Some(Join(parts, "/"));
  }

  lemma WalkOn(segs: seq<string>, n: nat, at: seq<int>, parts: seq<string>)
    requires n < |segs| && Walked(segs, n, at, parts) && !IsName(segs[n]) && segs[n] != ".."
    ensures Walked(segs, n + 1, at, parts)
  {
    forall i ensures Survives(segs, i, n + 1) <==> Survives(segs, i, n) {
      if Survives(segs, i, n) && i < n { assert Depth(segs, n) >= Depth(segs, i + 1); }
    }
  }

  lemma WalkDown(segs: seq<string>, n: nat, at: seq<int>, parts: seq<string>)
    requires n < |segs| && Walked(segs, n, at, parts) && IsName(segs[n])
    ensures Walked(segs, n + 1, at + [n], parts + [segs[n]])
  {
    forall i ensures Survives(segs, i, n + 1) <==> i == n || Survives(segs, i, n) {
      if Survives(segs, i, n) { assert Depth(segs, n) >= Depth(segs, i + 1); }
    }
  }

  /** One step up drops exactly the last surviving name. */
  lemma WalkUp(segs: seq<string>, n: nat, at: seq<int>, parts: seq<string>)
    requires n < |segs| && Walked(segs, n, at, parts) && segs[n] == ".." && parts != []
    ensures Walked(segs, n + 1, at[..|at| - 1], parts[..|parts| - 1])
  {
    var last := |at| - 1;
    assert Depth(segs, n + 1) == Depth(segs, n) - 1 == last;
    forall i ensures Survives(segs, i, n + 1) <==> i in at[..last] {
      if Survives(segs, i, n + 1) {
        assert i != n && Depth(segs, n + 1) >= Depth(segs, i + 1);
        assert Survives(segs, i, n) && i in at;
        var k :| 0 <= k < |at| && at[k] == i;
        assert k < last && at[..last][k] == i;
      }
      if i in at[..last] {
        var k :| 0 <= k < last && at[..last][k] == i;
        assert at[k] == i && i in at && Survives(segs, i, n) && Depth(segs, i + 1) == k + 1;
      }
    }
  }

  // ---------- What the output looks like ----------

  /** A name that a path can hold: no separator of either kind. */
  predicate PlainName(s: string) {
    IsName(s) && '/' !in s && '\\' !in s
  }

  lemma SegmentsHaveNoSeparators(path: string)
    ensures forall i :: 0 <= i < |Segments(path)| ==> '/' !in Segments(path)[i] && '\\' !in Segments(path)[i]
  {
    var p, segs := Posix(path), Segments(path);
    SplitParts(p, IsSlash());
    forall i | 0 <= i < |segs| ensures '/' !in segs[i] && '\\' !in segs[i] {
      assert Free(segs[i], IsSlash()) && Within(segs[i], p);
      forall j | 0 <= j < |segs[i]| ensures segs[i][j] != '/' && segs[i][j] != '\\' {
        assert !IsSlash()(segs[i][j]);
        var a, b :| 0 <= a <= b <= |p| && segs[i] == p[a..b];
        assert segs[i][j] == p[a + j];
      }
    }
  }

  lemma {:induction false} CollapsedAreNames(parts: seq<string>, segs: seq<string>)
    requires forall i :: 0 <= i < |parts| ==> PlainName(parts[i])
    requires forall i :: 0 <= i < |segs| ==> '/' !in segs[i] && '\\' !in segs[i]
    ensures CollapseFrom(parts, segs).Some? ==>
              forall i :: 0 <= i < |CollapseFrom(parts, segs).value| ==> PlainName(CollapseFrom(parts, segs).value[i])
    decreases |segs|
  {
    if segs != [] {
      var next :=
        if segs[0] == "" || segs[0] == "." then parts
        else if segs[0] == ".." then (if parts == [] then [] else parts[..|parts| - 1])
        else parts + [segs[0]];
      CollapsedAreNames(next, segs[1..]);
    }
  }

  lemma {:induction false} NamesCollapseToThemselves(parts: seq<string>, names: seq<string>)
    requires forall i :: 0 <= i < |names| ==> IsName(names[i])
    ensures CollapseFrom(parts, names) == Some(parts + names)
    decreases |names|
  {
    if names == [] {
      assert parts + names == parts;
    } else {
      NamesCollapseToThemselves(parts + [names[0]], names[1..]);
      assert parts + [names[0]] + names[1..] == parts + names;
    }
  }

  /** A path of plain names is its own segments. */
  lemma PlainPath(names: seq<string>)
    requires forall i :: 0 <= i < |names| ==> PlainName(names[i])
    ensures '\\' !in Join(names, "/") && Posix(Join(names, "/")) == Join(names, "/")
    ensures Segments(Join(names, "/")) == if names == [] then [""] else names
    ensures Collapse(Join(names, "/")) == Some(Join(names, "/"))
  {
    hide CollapseFrom, PlainName, Join, SplitOn;
    var path := Join(names, "/");
    NamesArePlain(names);
    NoBackslash(names);
    assert Posix(path) == path;
    if names == [] {
      EmptyPath();
    } else {
      forall i | 0 <= i < |names| ensures Free(names[i], IsSlash()) {
        forall j | 0 <= j < |names[i]| ensures !IsSlash()(names[i][j]) {
          assert names[i][j] in names[i];
        }
      }
      assert ['/'] == "/";
      SplitOfJoin(names, '/', IsSlash());
      NamesCollapseToThemselves([], names);
      assert [] + names == names;
    }
  }

  lemma NamesArePlain(names: seq<string>)
    requires forall i :: 0 <= i < |names| ==> PlainName(names[i])
    ensures forall i :: 0 <= i < |names| ==> IsName(names[i]) && '\\' !in names[i] && '/' !in names[i]
  {
  }

  lemma EmptyPath()
    ensures Join([], "/") == "" && Posix("") == "" && Segments("") == [""] && Collapse("") == Some("")
  {
    assert [""][1..] == [];
  }

  lemma {:induction false} NoBackslash(names: seq<string>)
    requires forall i :: 0 <= i < |names| ==> '\\' !in names[i]
    ensures '\\' !in Join(names, "/")
  {
    if |names| > 1 { NoBackslash(names[1..]); }
  }

  /** The collapsed path is made of plain names, and collapsing it again changes nothing. */
  lemma CollapseIsIdempotent(relative: string)
    requires Collapse(relative).Some?
    ensures exists names :: Collapse(relative).value == Join(names, "/") && forall i :: 0 <= i < |names| ==> PlainName(names[i])
    ensures Collapse(Collapse(relative).value) == Collapse(relative)
  {
    SegmentsHaveNoSeparators(relative);
    CollapsedAreNames([], Segments(relative));
    var names := CollapseFrom([], Segments(relative)).value;
    PlainPath(names);
  }

  // ---------- Canonical spec paths ----------

  predicate IsAlpha(c: char) {
    'a' <= c <= 'z' || 'A' <= c <= 'Z'
  }

  predicate IsWindowsDrivePath(s: string) {
    |s| >= 2 && IsAlpha(s[0]) && s[1] == ':'
  }

  predicate IsUncPath(s: string) {
    "\\\\" <= s || "//" <= s
  }

  /** `str.strip("/")` */
  function StripSlashes(s: string): (r: string)
    ensures r != "" ==> r[0] != '/' && r[|r| - 1] != '/'
  {
    if s != "" && s[0] == '/' then StripSlashes(s[1..])
    else if s != "" && s[|s| - 1] == '/' then StripSlashes(s[..|s| - 1])
    else s
  }

  /** `_assert_under_spec_directory`: false where it raises. */
  predicate UnderSpecDirectory(canonical: string, specDirectory: string) {
    var directory := StripSlashes(Posix(specDirectory));
    directory != "" && canonical != directory && directory + "/" <= canonical
  }

  predicate IsCanonicalSpecPath(path: string, specDirectory: string) {
    && path != "" && path == Strip(path) && '\\' !in path
    && !("/" <= path) && !IsWindowsDrivePath(path) && !IsUncPath(path)
    && (var parts := SplitOn(path, IsSlash());
        forall i :: 0 <= i < |parts| ==> IsName(parts[i]))
    && UnderSpecDirectory(path, specDirectory)
  }

  /** Whatever directory is configured, a canonical path is not blank, not absolute and on no drive. */
  lemma CanonicalIsRelative(path: string, specDirectory: string)
    requires IsCanonicalSpecPath(path, specDirectory)
    ensures path != "" && path[0] !in {'/', '\\'}
    ensures |path| >= 2 && path[1] == ':' ==> !('a' <= path[0] <= 'z') && !('A' <= path[0] <= 'Z')
  {
    assert path[0] == '/' <==> "/" <= path;
  }

  /** A configured directory: not blank at its start and not a drive. */
  predicate ValidDirectory(specDirectory: string) {
    var directory := StripSlashes(Posix(specDirectory));
    directory != "" && !IsSpace(directory[0]) && !IsWindowsDrivePath(directory)
  }

  /** `path` leads into `directory`, name by name, and below it. */
  predicate LeadsInto(directory: seq<string>, path: seq<string>) {
    |directory| < |path| && path[..|directory|] == directory
  }

  lemma {:induction false} SplitAtSlash(a: string, b: string)
    ensures SplitOn(a + "/" + b, IsSlash()) == SplitOn(a, IsSlash()) + SplitOn(b, IsSlash())
  {
    if a == "" {
      assert a + "/" + b == ['/'] + b;
      assert (['/'] + b)[1..] == b;
    } else {
      assert (a + "/" + b)[1..] == a[1..] + "/" + b;
      SplitAtSlash(a[1..], b);
    }
  }

  /** Being under a directory is a matter of whole names: a path is under it if and only if its names begin with all of the directory's. */
  lemma UnderIff(path: string, specDirectory: string)
    ensures
      var directory := StripSlashes(Posix(specDirectory));
      UnderSpecDirectory(path, specDirectory)
      <==> directory != "" && LeadsInto(SplitOn(directory, IsSlash()), SplitOn(path, IsSlash()))
  {
    var directory := StripSlashes(Posix(specDirectory));
    var ours, theirs := SplitOn(directory, IsSlash()), SplitOn(path, IsSlash());
    if UnderSpecDirectory(path, specDirectory) {
      var rest := path[|directory| + 1..];
      assert path == directory + "/" + rest;
      SplitAtSlash(directory, rest);
    }
    if LeadsInto(ours, theirs) {
      assert ['/'] == "/";
      JoinOfSplit(path, '/', IsSlash());
      JoinOfSplit(directory, '/', IsSlash());
      assert theirs == ours + theirs[|ours|..];
      JoinAppend(ours, theirs[|ours|..], "/");
      assert directory + "/" <= path;
    }
  }

  lemma UnderIsRelative(path: string, specDirectory: string)
    requires ValidDirectory(specDirectory) && UnderSpecDirectory(path, specDirectory)
    ensures path != "" && path[0] != '/' && !IsSpace(path[0]) && !IsWindowsDrivePath(path)
    ensures |path| >= 2
  {
    var directory := StripSlashes(Posix(specDirectory));
    assert path[0] == directory[0];
    assert path[|directory|] == (directory + "/")[|directory|];
    if |directory| > 1 { assert path[1] == (directory + "/")[1]; }
  }

  /** Canonical paths are exactly the trimmed, backslash-free fixpoints under the directory. */
  lemma CanonicalIff(path: string, specDirectory: string)
    requires ValidDirectory(specDirectory)
    ensures IsCanonicalSpecPath(path, specDirectory)
            <==> path == Strip(path) && '\\' !in path && Collapse(path) == Some(path)
                 && UnderSpecDirectory(path, specDirectory)
  {
    if UnderSpecDirectory(path, specDirectory) && '\\' !in path {
      UnderIsRelative(path, specDirectory);
      assert !("/" <= path) && !IsUncPath(path);
      assert Posix(path) == path;
      var parts := Segments(path);
      if forall i :: 0 <= i < |parts| ==> IsName(parts[i]) {
        NamesCollapseToThemselves([], parts);
        assert [] + parts == parts;
        assert ['/'] == "/";
        JoinOfSplit(path, '/', IsSlash());
      }
      if Collapse(path) == Some(path) {
        SegmentsHaveNoSeparators(path);
        CollapsedAreNames([], parts);
        var names := CollapseFrom([], parts).value;
        PlainPath(names);
        assert names != [];
      }
    }
  }

  /**
   * `canonicalize_spec_path`, with `Err` for each of its refusals; `absolute` answers for
   * absolute paths, which the source resolves against the file system.
   */
  function CanonicalizeSpecPath(path: string, specDirectory: string, absolute: string -> Option<string>): Result<string, string> {
    var raw := Strip(path);
    if raw == "" then Err("SPEC_PATH_INVALID")
    else
      match (if "/" <= raw || IsWindowsDrivePath(raw) then absolute(raw) else Some(Posix(raw)))
      case None => Err("SPEC_PATH_ESCAPE")
      case Some(relative) =>
        match Collapse(relative)
        case None => Err("SPEC_PATH_ESCAPE")
        case Some(canonical) =>
          if canonical == "" || StripSlashes(Posix(specDirectory)) == "" then Err("SPEC_PATH_INVALID")
          else if UnderSpecDirectory(canonical, specDirectory) then Ok(canonical)
          else Err("SPEC_PATH_OUT_OF_DIR")
  }

  /** Collapsing fails exactly where a prefix climbs above the root, and leaves as many names as the path leads deep. */
  lemma {:induction false} CollapseDepth(parts: seq<string>, segs: seq<string>, i: nat)
    requires i <= |segs| && |parts| == Depth(segs, i) && forall k :: 0 <= k <= i ==> Depth(segs, k) >= 0
    ensures CollapseFrom(parts, segs[i..]).None? <==> Climbs(segs)
    ensures CollapseFrom(parts, segs[i..]).Some? ==> |CollapseFrom(parts, segs[i..]).value| == Depth(segs, |segs|)
    decreases |segs| - i
  {
    if i < |segs| {
      assert segs[i..][1..] == segs[i + 1..];
      var part := segs[i];
      if part == ".." && parts == [] {
        assert Depth(segs, i + 1) < 0;
      } else {
        CollapseDepth(if part == ".." then parts[..|parts| - 1] else if IsName(part) then parts + [part] else parts, segs, i + 1);
      }
    }
  }

  lemma JoinedNames(names: seq<string>)
    requires forall i :: 0 <= i < |names| ==> IsName(names[i])
    ensures Join(names, "/") == "" <==> names == []
  {
  }

  /**
   * Which refusal a path meets: it leads nowhere if it is blank or ends at the root, or no directory is
   * configured; it escapes if it is outside the repository or a prefix of it climbs above the root; else
   * it is in the directory or not.
   */
  lemma CanonicalizeAnswers(path: string, specDirectory: string, absolute: string -> Option<string>)
    ensures
      var r, raw := CanonicalizeSpecPath(path, specDirectory, absolute), Strip(path);
      var relative := if raw != "" && ("/" <= raw || IsWindowsDrivePath(raw)) then absolute(raw) else Some(raw);
      var segs := if relative.Some? then Segments(relative.value) else [];
      var escapes := relative.None? || Climbs(segs);
      var anywhere := StripSlashes(Posix(specDirectory)) == "";
      && (r == Err("SPEC_PATH_ESCAPE") <==> raw != "" && escapes)
      && (r == Err("SPEC_PATH_INVALID") <==> raw == "" || (!escapes && (Depth(segs, |segs|) == 0 || anywhere)))
      && (r == Err("SPEC_PATH_OUT_OF_DIR") <==>
            raw != "" && !escapes && Depth(segs, |segs|) > 0 && !anywhere
            && Collapse(relative.value).Some? && !UnderSpecDirectory(Collapse(relative.value).value, specDirectory))
      && (r.Ok? ==> relative.Some? && Some(r.value) == Collapse(relative.value))
  {
    hide UnderSpecDirectory, Strip, IsWindowsDrivePath, CollapseFrom;
    var raw := Strip(path);
    var relative := if raw != "" && ("/" <= raw || IsWindowsDrivePath(raw)) then absolute(raw) else Some(raw);
    PosixTwice(raw);
    RefusalsDiffer();
    if relative.Some? {
      var segs := Segments(relative.value);
      assert segs[0..] == segs;
      CollapseDepth([], segs, 0);
      if CollapseFrom([], segs).Some? {
        SegmentsHaveNoSeparators(relative.value);
        CollapsedAreNames([], segs);
        JoinedNames(CollapseFrom([], segs).value);
      }
    }
  }

  lemma RefusalsDiffer()
    ensures "SPEC_PATH_ESCAPE" != "SPEC_PATH_INVALID" && "SPEC_PATH_ESCAPE" != "SPEC_PATH_OUT_OF_DIR"
    ensures "SPEC_PATH_INVALID" != "SPEC_PATH_OUT_OF_DIR"
  {
    assert "SPEC_PATH_ESCAPE"[10] == 'E' && "SPEC_PATH_INVALID"[10] == 'I' && "SPEC_PATH_OUT_OF_DIR"[10] == 'O';
  }

  lemma PosixTwice(s: string)
    ensures Posix(Posix(s)) == Posix(s) && Segments(Posix(s)) == Segments(s) && Collapse(Posix(s)) == Collapse(s)
  {
  }

  function Weight(parts: seq<string>): nat {
    if parts == [] then 0 else |parts[0]| + 1 + Weight(parts[1..])
  }

  lemma {:induction false} WeightAppend(a: seq<string>, b: seq<string>)
    ensures Weight(a + b) == Weight(a) + Weight(b)
  {
    if a == [] {
      assert a + b == b;
    } else {
      assert (a + b)[1..] == a[1..] + b;
      WeightAppend(a[1..], b);
    }
  }

  lemma {:induction false} JoinLength(parts: seq<string>)
    requires parts != []
    ensures |Join(parts, "/")| + 1 == Weight(parts)
  {
    if |parts| > 1 { JoinLength(parts[1..]); }
  }

  lemma {:induction false} CollapseShrinks(parts: seq<string>, segs: seq<string>)
    ensures CollapseFrom(parts, segs).Some? ==> Weight(CollapseFrom(parts, segs).value) <= Weight(parts) + Weight(segs)
    decreases |segs|
  {
    if segs != [] {
      if segs[0] == "" || segs[0] == "." {
        CollapseShrinks(parts, segs[1..]);
      } else if segs[0] == ".." {
        if parts != [] {
          assert parts == parts[..|parts| - 1] + [parts[|parts| - 1]];
          WeightAppend(parts[..|parts| - 1], [parts[|parts| - 1]]);
          CollapseShrinks(parts[..|parts| - 1], segs[1..]);
        }
      } else {
        WeightAppend(parts, [segs[0]]);
        CollapseShrinks(parts + [segs[0]], segs[1..]);
      }
    }
  }

  /** Collapsing never makes a path longer. */
  lemma CollapseIsNoLonger(relative: string)
    requires Collapse(relative).Some?
    ensures |Collapse(relative).value| <= |relative|
  {
    var segs := Segments(relative);
    CollapseShrinks([], segs);
    assert ['/'] == "/";
    JoinOfSplit(Posix(relative), '/', IsSlash());
    JoinLength(segs);
    var names := CollapseFrom([], segs).value;
    if names != [] { JoinLength(names); }
  }

  /**
   * The outer whitespace trap. A canonicalised path is canonical, and canonicalising it again
   * gives it back, if and only if it carries no outer whitespace.
   */
  lemma CanonicalizedIff(path: string, specDirectory: string, absolute: string -> Option<string>)
    requires ValidDirectory(specDirectory)
    requires CanonicalizeSpecPath(path, specDirectory, absolute).Ok?
    ensures
      var c := CanonicalizeSpecPath(path, specDirectory, absolute).value;
      && (IsCanonicalSpecPath(c, specDirectory) <==> Trimmed(c))
      && (CanonicalizeSpecPath(c, specDirectory, absolute) == Ok(c) <==> Trimmed(c))
  {
    hide CanonicalizeSpecPath, IsCanonicalSpecPath, Collapse, UnderSpecDirectory, ValidDirectory;
    var c := CanonicalizeSpecPath(path, specDirectory, absolute).value;
    CanonicalizedShape(path, specDirectory, absolute);
    CanonicalIff(c, specDirectory);
    StripTrims(c);
    if Trimmed(c) {
      StripOfTrimmed(c);
      CanonicalAgain(c, specDirectory, absolute);
    } else {
      OuterSpaceIsLost(c, specDirectory, absolute);
    }
  }

  /** A canonicalised path is under the directory, has no backslash and collapses to itself. */
  lemma CanonicalizedShape(path: string, specDirectory: string, absolute: string -> Option<string>)
    requires CanonicalizeSpecPath(path, specDirectory, absolute).Ok?
    ensures
      var c := CanonicalizeSpecPath(path, specDirectory, absolute).value;
      UnderSpecDirectory(c, specDirectory) && '\\' !in c && Posix(c) == c && Collapse(c) == Some(c)
  {
    hide Collapse, UnderSpecDirectory, PlainName, Strip, Posix, Join;
    var raw := Strip(path);
    var relative := (if "/" <= raw || IsWindowsDrivePath(raw) then absolute(raw) else Some(Posix(raw))).value;
    CollapseIsIdempotent(relative);
    var names :| Collapse(relative).value == Join(names, "/") && forall i :: 0 <= i < |names| ==> PlainName(names[i]);
    PlainPath(names);
  }

  lemma CanonicalAgain(c: string, specDirectory: string, absolute: string -> Option<string>)
    requires ValidDirectory(specDirectory) && UnderSpecDirectory(c, specDirectory)
    requires Strip(c) == c && Posix(c) == c && Collapse(c) == Some(c)
    ensures CanonicalizeSpecPath(c, specDirectory, absolute) == Ok(c)
  {
    UnderIsRelative(c, specDirectory);
    hide Collapse, UnderSpecDirectory, ValidDirectory, Posix, Strip;
    assert !("/" <= c);
  }

  lemma OuterSpaceIsLost(c: string, specDirectory: string, absolute: string -> Option<string>)
    requires ValidDirectory(specDirectory) && UnderSpecDirectory(c, specDirectory) && !Trimmed(c)
    ensures CanonicalizeSpecPath(c, specDirectory, absolute) != Ok(c)
  {
    UnderIsRelative(c, specDirectory);
    StripTrims(c);
    RStripPrefix(c);
    var raw := Strip(c);
    assert LStrip(c) == c && raw == RStrip(c);
    assert raw == c[..|raw|] && |raw| < |c|;
    if raw != "" {
      assert raw[0] == c[0];
      assert !("/" <= raw) && !IsWindowsDrivePath(raw);
      assert |Posix(raw)| == |raw|;
      if Collapse(Posix(raw)).Some? { CollapseIsNoLonger(Posix(raw)); }
    }
  }

  lemma BlankBeforeDotCollapses()
    ensures Collapse("specs/tasks/a /.") == Some("specs/tasks/a ")
  {
    hide SplitOn, CollapseFrom, IsSpace;
    var path, names := "specs/tasks/a /.", ["specs", "tasks", "a "];
    var segs := names + ["."];
    assert Posix(path) == path;
    BlankBeforeDotJoins();
    hide Join;
    forall i | 0 <= i < |segs| ensures Free(segs[i], IsSlash()) {}
    assert ['/'] == "/";
    SplitOfJoin(segs, '/', IsSlash());
    NamesThenDot(names);
  }

  lemma BlankBeforeDotJoins()
    ensures Join(["specs", "tasks", "a "] + ["."], "/") == "specs/tasks/a /."
    ensures Join(["specs", "tasks", "a "], "/") == "specs/tasks/a "
  {
    var names, segs := ["specs", "tasks", "a "], ["specs", "tasks", "a ", "."];
    var s1, s2, s3 := ["tasks", "a ", "."], ["a ", "."], ["."];
    assert names + ["."] == segs && segs[1..] == s1 && s1[1..] == s2 && s2[1..] == s3;
    assert Join(s3, "/") == "." && Join(s2, "/") == "a /." && Join(s1, "/") == "tasks/a /.";
    var n1, n2 := ["tasks", "a "], ["a "];
    assert names[1..] == n1 && n1[1..] == n2;
    assert Join(n2, "/") == "a " && Join(n1, "/") == "tasks/a ";
  }

  lemma SpecsTasksDirectory()
    ensures StripSlashes(Posix("specs/tasks")) == "specs/tasks"
  {
    assert Posix("specs/tasks") == "specs/tasks";
  }

  /** The trap on an input: a segment that ends in a blank keeps it, and is then not canonical. */
  lemma BlankBeforeDot()
    ensures
      var c := "specs/tasks/a ";
      && CanonicalizeSpecPath("specs/tasks/a /.", "specs/tasks", _ => None) == Ok(c)
      && !IsCanonicalSpecPath(c, "specs/tasks")
  {
    hide Collapse, IsCanonicalSpecPath, StripSlashes;
    var path, d, c := "specs/tasks/a /.", "specs/tasks", "specs/tasks/a ";
    BlankBeforeDotCollapses();
    SpecsTasksDirectory();
    assert Posix(path) == path;
    assert path[0] == 's' && path[|path| - 1] == '.';
    StripOfTrimmed(path);
    assert !("/" <= path) && !IsWindowsDrivePath(path);
    assert d + "/" == c[..12];
    assert c[|c| - 1] == ' ' && IsSpace(' ');
    CanonicalizedIff(path, d, _ => None);
  }

  lemma NamesThenDot(names: seq<string>)
    requires forall i :: 0 <= i < |names| ==> IsName(names[i])
    ensures CollapseFrom([], names + ["."]) == Some(names)
  {
    NamesCollapseToThemselves([], names);
    CollapseAppend([], names, ["."]);
    assert [] + names == names && ["."][1..] == [];
  }

  lemma {:induction false} CollapseAppend(parts: seq<string>, a: seq<string>, b: seq<string>)
    requires CollapseFrom(parts, a).Some?
    ensures CollapseFrom(parts, a + b) == CollapseFrom(CollapseFrom(parts, a).value, b)
    decreases |a|
  {
    if a == [] {
      assert a + b == b;
    } else {
      assert (a + b)[1..] == a[1..] + b;
      var next :=
        if a[0] == "" || a[0] == "." then parts
        else if a[0] == ".." then parts[..|parts| - 1]
        else parts + [a[0]];
      CollapseAppend(next, a[1..], b);
    }
  }
}
