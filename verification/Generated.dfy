/**
 * Which paths are skipped as regenerable artifacts (src/live-workspace.js:333-338), read off the path as a string; and
 * that nothing in a directory the sweep finds is ever published or overwritten.
 */
module Generated {
  import opened Basics
  import opened Strings
  import opened Paths
  import opened Git
  import opened Workspace
  import opened Sync
  import opened Cells
  import opened LocalEdits
  import opened Outcome
  import opened Tooling

  // ---------------------------------------------------------------- a path as a string

  /** The string up to here names a directory, or nothing. */
  predicate Opens(before: string) {
    before == "" || before[|before| - 1] == '/'
  }

  /** The path leads through a directory of this name. */
  predicate Through(path: Path, before: string, dir: string, after: string) {
    path == before + dir + "/" + after && Opens(before) && '/' !in dir
  }

  /** The path ends in this name. */
  predicate Ends(path: Path, before: string, name: string) {
    path == before + name && Opens(before) && '/' !in name
  }

  lemma {:induction false} SplitAfter(before: string, rest: string, text: string)
    requires text == before + "/" + rest
    ensures Split(text, '/') == Split(before, '/') + Split(rest, '/')
    decreases |before|
  {
    if before == "" {
      assert text[0] == '/' && text[1..] == rest;
    } else {
      assert text[1..] == before[1..] + "/" + rest && text[0] == before[0];
      SplitAfter(before[1..], rest, text[1..]);
      SplitStep(text, before, Split(rest, '/'));
    }
  }

  lemma SplitStep(text: string, before: string, rest: seq<string>)
    requires text != "" && before != "" && text[0] == before[0]
    requires Split(text[1..], '/') == Split(before[1..], '/') + rest
    ensures Split(text, '/') == Split(before, '/') + rest
  {}

  /** What stands in front of a name splits off before it. */
  lemma SplitBehind(before: string, rest: string) returns (front: seq<string>)
    requires Opens(before)
    ensures Split(before + rest, '/') == front + Split(rest, '/')
  {
    if before == "" {
      front := [];
      assert before + rest == rest;
    } else {
      front := Split(before[..|before| - 1], '/');
      SplitAfter(before[..|before| - 1], rest, before + rest);
    }
  }

  lemma ThroughIsPart(path: Path, before: string, dir: string, after: string) returns (i: nat)
    requires Through(path, before, dir, after)
    ensures i < |Split(path, '/')| - 1 && Split(path, '/')[i] == dir
  {
    var front := SplitBehind(before, dir + "/" + after);
    assert path == before + (dir + "/" + after);
    SplitPart(dir, after, '/');
    i := |front|;
  }

  lemma EndIsLastPart(path: Path, before: string, name: string)
    requires Ends(path, before, name)
    ensures var parts := Split(path, '/'); parts[|parts| - 1] == name
  {
    var front := SplitBehind(before, name);
    SplitPart(name, "", '/');
  }

  /** Each part lies in the path between slashes, the last one at its end. */
  lemma {:induction false} PartLies(path: Path, i: nat) returns (before: string, after: string)
    requires i < |Split(path, '/')|
    ensures var parts := Split(path, '/');
            if i < |parts| - 1 then Through(path, before, parts[i], after) else Ends(path, before, parts[i])
    ensures i == 0 ==> before == ""
    ensures i > 0 ==> before != ""
  {
    var parts := Split(path, '/');
    if path == "" {
      before, after := "", "";
    } else if path[0] == '/' && i == 0 {
      before, after := "", path[1..];
      assert path == "" + "" + "/" + path[1..];
    } else if path[0] == '/' {
      before, after := PartLies(path[1..], i - 1);
      before := LaterPart(path, parts[i], before, after);
    } else {
      before, after := PartLies(path[1..], i);
      if i > 0 { before := LaterPart(path, parts[i], before, after); } else { assert path == [path[0]] + path[1..]; }
    }
  }

  /** A name in the rest of a path, not at its very front, lies in the path likewise. */
  lemma LaterPart(path: Path, name: string, before: string, after: string) returns (longer: string)
    requires path != "" && (path[0] == '/' || before != "")
    ensures longer != ""
    ensures Through(path[1..], before, name, after) ==> Through(path, longer, name, after)
    ensures Ends(path[1..], before, name) ==> Ends(path, longer, name)
  {
    longer := [path[0]] + before;
    assert path == [path[0]] + path[1..];
  }

  // ---------------------------------------------------------------- exactly which paths are skipped

  /** A version control directory, whatever its case. */
  predicate IsControl(dir: string) {
    Lower(dir) == ".git" || Lower(dir) == ".hg" || Lower(dir) == ".svn"
  }

  ghost predicate InControl(path: Path) {
    exists before, dir, after :: Through(path, before, dir, after) && IsControl(dir)
  }

  ghost predicate InTooling(path: Path) {
    exists before, dir, after :: Through(path, before, dir, after) && IsToolingDirectory(dir)
  }

  ghost predicate IsLeftover(path: Path) {
    exists before, name :: Ends(path, before, name) && (Lower(name) == ".ds_store" || Lower(name) == "thumbs.db")
  }

  predicate IsDebris(path: Path) {
    var lower := Lower(path);
    || EndsWith(lower, ".log") || EndsWith(lower, ".tmp") || EndsWith(lower, ".pyc") || EndsWith(lower, ".pyo")
    || EndsWith(lower, ".tsbuildinfo")
  }

  /** The names of tooling directories, whatever their case. */
  lemma ToolingNames(dir: string)
    ensures IsToolingDirectory(dir) <==>
              var name := Lower(dir);
              || name == "node_modules" || name == "vendor" || name == ".venv" || name == "venv" || name == "dist"
              || name == "build" || name == "out" || name == "target" || name == "coverage" || name == ".cache"
              || name == "__pycache__" || name == ".next" || name == ".nuxt" || name == ".turbo" || name == ".vinext"
              || name == ".wrangler" || name == ".gitpigeon-build"
  {}

  lemma LowerIs(s: string)
    ensures |Lower(s)| == |s|
    ensures forall i :: 0 <= i < |s| ==>
              Lower(s)[i] == if 'A' <= s[i] <= 'Z' then (s[i] as int + 32) as char else s[i]
    ensures forall t :: Lower(s + t) == Lower(s) + Lower(t)
  {}

  lemma LongEndHasSlash(path: string, before: string, name: string, end: string)
    requires path == before + name && before != "" && before[|before| - 1] == '/'
    requires EndsWith(path, end) && |end| > |name|
    ensures '/' in end
  {
    var at := |before| - 1;
    assert path[at] == '/';
    assert path[|path| - |end|..][at - (|path| - |end|)] == path[at];
  }

  /** A suffix without a slash ends a path exactly when it ends the name. */
  lemma SuffixOfName(path: Path, before: string, name: string, suffix: string)
    requires Ends(path, before, name) && '/' !in suffix && suffix != ""
    ensures EndsWith(Lower(path), suffix) <==> EndsWith(Lower(name), suffix)
  {
    LowerIs(before);
    assert Lower(path) == Lower(before) + Lower(name);
    if EndsWith(Lower(path), suffix) && before != "" && |suffix| > |name| {
      LongEndHasSlash(Lower(path), Lower(before), Lower(name), suffix);
    }
  }

  lemma DebrisOfName(path: Path, before: string, name: string)
    requires Ends(path, before, name)
    ensures IsDebris(path) <==> exists suffix :: suffix in SKIP_SUFFIXES && EndsWith(Lower(name), suffix)
  {
    forall suffix | suffix in SKIP_SUFFIXES ensures EndsWith(Lower(path), suffix) <==> EndsWith(Lower(name), suffix) {
      SuffixOfName(path, before, name, suffix);
    }
  }

  /** Below a version control or a tooling directory, left over by a desktop, or debris of a run; nothing else. */
  lemma GeneratedExactlyWhen(path: Path)
    ensures IsGenerated(path) <==> InControl(path) || InTooling(path) || IsLeftover(path) || IsDebris(path)
  {
    BelowDirectories(path);
    var parts := Split(path, '/');
    var before, after := PartLies(path, |parts| - 1);
    var name := parts[|parts| - 1];
    DebrisOfName(path, before, name);
    LeftoverIsLast(path, name, before);
  }

  lemma LeftoverIsLast(path: Path, name: string, before: string)
    requires Ends(path, before, name)
    ensures IsLeftover(path) <==> Lower(name) in SKIP_FILES
  {
    EndIsLastPart(path, before, name);
    if IsLeftover(path) {
      var b, n :| Ends(path, b, n) && (Lower(n) == ".ds_store" || Lower(n) == "thumbs.db");
      EndIsLastPart(path, b, n);
    }
  }

  lemma BelowDirectories(path: Path)
    ensures InControl(path) || InTooling(path) <==>
              exists i :: 0 <= i < |Split(path, '/')| - 1 && Lower(Split(path, '/')[i]) in SKIP_DIRECTORIES
  {
    var parts := Split(path, '/');
    if InControl(path) {
      var before, dir, after :| Through(path, before, dir, after) && IsControl(dir);
      var i := ThroughIsPart(path, before, dir, after);
      assert Lower(parts[i]) in SKIP_DIRECTORIES;
    }
    if InTooling(path) {
      var before, dir, after :| Through(path, before, dir, after) && IsToolingDirectory(dir);
      var i := ThroughIsPart(path, before, dir, after);
      assert Lower(parts[i]) in SKIP_DIRECTORIES;
    }
    if i :| 0 <= i < |parts| - 1 && Lower(parts[i]) in SKIP_DIRECTORIES {
      var before, after := PartLies(path, i);
      assert IsControl(parts[i]) || IsToolingDirectory(parts[i]);
    }
  }

  /** Case never matters. */
  lemma CaseDoesNotMatter(path: Path, other: Path)
    requires Lower(path) == Lower(other)
    ensures IsGenerated(path) <==> IsGenerated(other)
  {
    LowerParts(path);
    LowerParts(other);
    var a, b := Split(path, '/'), Split(other, '/');
    forall i | 0 <= i < |a| ensures |a| == |b| && Lower(a[i]) == Lower(b[i]) {
      assert Split(Lower(path), '/')[i] == Lower(a[i]);
      assert Split(Lower(other), '/')[i] == Lower(b[i]);
    }
  }

  lemma {:induction false} LowerParts(path: Path)
    ensures |Split(Lower(path), '/')| == |Split(path, '/')|
    ensures forall i :: 0 <= i < |Split(path, '/')| ==> Split(Lower(path), '/')[i] == Lower(Split(path, '/')[i])
  {
    if path != "" {
      LowerParts(path[1..]);
      assert Lower(path)[1..] == Lower(path[1..]);
      assert Lower(path)[0] == LowerChar(path[0]);
      assert LowerChar(path[0]) == '/' <==> path[0] == '/';
    }
  }

  // ---------------------------------------------------------------- against the watcher's answer

  /** The directory the watcher answers with lies strictly above the file. */
  predicate AnswersAbove(path: Path) {
    ToolingDirectoryOf(path).Some? && |ToolingOf(PartsOf(path)).value| < |PartsOf(path)|
  }

  predicate SkippedPart(name: string) {
    name == GIT || IsToolingDirectory(name)
  }

  lemma {:induction false} AnswerHasSkippedPart(parts: Parts) returns (j: nat)
    requires ToolingOf(parts).Some?
    ensures j < |ToolingOf(parts).value| && j < |parts| && SkippedPart(parts[j])
  {
    if SkippedPart(parts[0]) {
      j := 0;
    } else {
      var k := AnswerHasSkippedPart(parts[1..]);
      j := k + 1;
    }
  }

  lemma {:induction false} KeptPart(parts: Parts, j: nat) returns (i: nat)
    requires j < |NonEmpty(parts)|
    ensures i < |parts| && parts[i] == NonEmpty(parts)[j]
    ensures j < |NonEmpty(parts)| - 1 ==> i < |parts| - 1
  {
    if parts[0] == "" {
      var k := KeptPart(parts[1..], j);
      i := k + 1;
    } else if j == 0 {
      i := 0;
    } else {
      var k := KeptPart(parts[1..], j - 1);
      i := k + 1;
    }
  }

  lemma PartIsSkipped(path: Path, i: nat)
    requires i < |Split(path, '/')| - 1 && SkippedPart(Split(path, '/')[i])
    ensures InControl(path) || InTooling(path)
  {
    var before, after := PartLies(path, i);
    assert Lower(GIT) == ".git";
    assert IsControl(Split(path, '/')[i]) || IsToolingDirectory(Split(path, '/')[i]);
  }

  /** A file strictly below the directory the watcher names is skipped. */
  lemma AnsweredIsGenerated(path: Path)
    requires '\\' !in path && AnswersAbove(path)
    ensures (InControl(path) || InTooling(path)) && IsGenerated(path)
  {
    assert ForwardSlashes(path) == path;
    var j := AnswerHasSkippedPart(PartsOf(path));
    var i := KeptPart(Split(path, '/'), j);
    PartIsSkipped(path, i);
    GeneratedExactlyWhen(path);
  }

  lemma {:induction false} AnswerReached(parts: Parts, i: nat)
    requires i < |parts| && IsToolingDirectory(parts[i]) && forall j :: 0 <= j <= i ==> parts[j] != GIT
    ensures ToolingOf(parts).Some? && |ToolingOf(parts).value| <= i + 1
  {
    if !IsToolingDirectory(parts[0]) {
      assert forall j :: 0 <= j <= i - 1 ==> parts[1..][j] == parts[j + 1];
      AnswerReached(parts[1..], i - 1);
    }
  }

  /** Of a path in normal form a directory above it is skipped exactly when it is a control or the watcher's answer. */
  lemma DirectoriesAgree(path: Path)
    requires '\\' !in path && Tooling.Names(Split(path, '/'))
    ensures InControl(path) || InTooling(path) <==> InControl(path) || AnswersAbove(path)
  {
    var parts := Split(path, '/');
    assert ForwardSlashes(path) == path;
    AllKept(parts);
    if AnswersAbove(path) { AnsweredIsGenerated(path); }
    if InTooling(path) && !InControl(path) {
      var before, dir, after :| Through(path, before, dir, after) && IsToolingDirectory(dir);
      var i := ThroughIsPart(path, before, dir, after);
      forall j | 0 <= j <= i ensures parts[j] != GIT { NotControl(path, j); }
      AnswerReached(parts, i);
    }
  }

  lemma NotControl(path: Path, j: nat)
    requires j < |Split(path, '/')| - 1 && !InControl(path)
    ensures Split(path, '/')[j] != GIT
  {
    var before, after := PartLies(path, j);
    assert Lower(GIT) == ".git";
    assert !IsControl(Split(path, '/')[j]);
  }

  // ---------------------------------------------------------------- what is published and what is written

  /** Whatever lies in a directory the sweep finds is skipped. */
  lemma FoundIsGenerated(root: Listing, d: Parts, rest: string, path: Path)
    requires FileSystem(root) && d in Found(root, []) && path == Slashed(d) + "/" + rest
    ensures IsGenerated(path)
  {
    FoundStandsAlone(root, d);
    ReachedIsNamed(root, d);
    SplitJoin(d, '/');
    SplitAfter(Slashed(d), rest, path);
    var j := AnswerHasSkippedPart(d);
    assert Split(path, '/')[j] == d[j];
    PartIsSkipped(path, j);
    GeneratedExactlyWhen(path);
  }

  /** No overlay lists a path in a directory the sweep finds. */
  lemma OverlayListsNothingFound(files: seq<LiveFile>, r: Repo, private: set<Path>, root: Listing)
    requires FileSystem(root) && IsOverlay(files, r, private)
    ensures forall f, d, rest :: f in files && d in Found(root, []) ==> f.path != Slashed(d) + "/" + rest
  {
    forall f, d, rest | f in files && d in Found(root, []) ensures f.path != Slashed(d) + "/" + rest {
      assert Shared(r, private, f.path);
      if f.path == Slashed(d) + "/" + rest { FoundIsGenerated(root, d, rest, f.path); }
    }
  }

  /** An import changes a skipped path by retraction and checkout only, whatever is listed for it. */
  lemma ImportSkips(l: Local, device: Device, m: Snapshot, owned: set<Path>, p: Path)
    requires WellFormed(m) && !l.repo.bare && IsGenerated(p)
    ensures Here(Imported(l, device, m, owned), device, p) == AfterCheckout(l, device, m, owned, p)
  {
    ImportAtPath(l, device, m, owned, p);
    ActiveFiles(m.files, l.untracked);
    PrivateAtIffIn(Active(m.files, l.untracked), p);
    FileAtIffIn(NotOwned(m.live, owned), p);
  }

  /** So a file in a directory the sweep finds, that no commit knows and nobody delivered, stays as it is. */
  lemma ImportLeavesFound(l: Local, device: Device, m: Snapshot, owned: set<Path>, root: Listing, d: Parts,
                          rest: string, p: Path)
    requires WellFormed(m) && !l.repo.bare && FileSystem(root) && d in Found(root, [])
    requires p == Slashed(d) + "/" + rest && p !in owned && p !in BaselinesFor(l, device)
    requires p !in HeadTree(l.repo) && p !in NextTree(l.repo, m.heads)
    ensures Get(Imported(l, device, m, owned).repo.tree, p) == Get(l.repo.tree, p)
  {
    FoundIsGenerated(root, d, rest, p);
    ImportSkips(l, device, m, owned, p);
    UnownedBaseline(BaselinesFor(l, device), m.live, owned, p);
    assert Here(Imported(l, device, m, owned), device, p).current == Get(Imported(l, device, m, owned).repo.tree, p);
  }
}
