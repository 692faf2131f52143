/**
 * What an import reports (src/protocol.js:636-650, src/git.js:202-261): it names exactly the refs and files that each
 * step changed, and exactly those that were listed and not taken.
 */
module Reports {
  import opened Basics
  import opened Paths
  import opened Git
  import opened History
  import opened Workspace
  import opened Sync
  import opened Cells
  import opened LocalEdits

  // ---------------------------------------------------------------- one file

  lemma PrepareOneReports(w: Work, t: Path)
    ensures var c := View(w, t);
            && PrepareOne(w, t).changed
            == (if PreparedCell(c).current != c.current then w.changed + [t] else w.changed)
            && PrepareOne(w, t).conflicts == (if Retractable(c) then w.conflicts else w.conflicts + [t])
            && PrepareOne(w, t).baselines == (if Retractable(c) then w.baselines - {t} else w.baselines)
  {}

  lemma ApplyOneReports(w: Work, device: Device, f: LiveFile)
    ensures var c := View(w, f.path);
            && ApplyOne(w, device, f).changed
            == (if AppliedCell(c, f).current != c.current then w.changed + [f.path] else w.changed)
            && ApplyOne(w, device, f).conflicts
            == (if !IsGenerated(f.path) && AppliedCell(c, f).current != f.next then w.conflicts + [f.path]
                else w.conflicts)
  {}

  lemma ApplyPrivateOneReports(w: Work, device: Device, f: PrivateFile)
    ensures var c := View(w, f.path);
            && ApplyPrivateOne(w, device, f).changed
            == (if AppliedPrivateCell(c, f).current != c.current then w.changed + [f.path] else w.changed)
            && ApplyPrivateOne(w, device, f).conflicts
            == (if AppliedPrivateCell(c, f).current != f.next then w.conflicts + [f.path] else w.conflicts)
  {}

  // ---------------------------------------------------------------- one step

  /** These paths are those from before and this one, if so. */
  predicate Tells(paths: seq<Path>, before: seq<Path>, p: Path, also: bool) {
    p in paths <==> p in before || also
  }

  /** Retraction reports the files it changed, and the targets it left with their baseline. */
  lemma {:induction false} PreparedReports(w: Work, targets: seq<Path>, p: Path)
    requires Distinct(targets) && forall t :: t in targets ==> t in w.baselines
    ensures var w' := Prepared(w, targets);
            && Tells(w'.changed, w.changed, p, Get(w'.repo.tree, p) != Get(w.repo.tree, p))
            && Tells(w'.conflicts, w.conflicts, p, p in targets && p in w'.baselines)
            && (p !in targets ==> Get(w'.baselines, p) == Get(w.baselines, p))
  {
    if targets != [] {
      var init, last := targets[..|targets| - 1], targets[|targets| - 1];
      LastOfDistinct(targets);
      PreparedReports(w, init, p);
      PreparedReports(w, init, last);
      var s := Prepared(w, init);
      PreparedView(w, init, p);
      PrepareOneReports(s, last);
      PrepareOneView(s, last, p);
      TreeOfView(w, p);
      TreeOfView(s, p);
      TreeOfView(PrepareOne(s, last), p);
    }
  }

  lemma TreeOfView(w: Work, p: Path)
    ensures View(w, p).current == Get(w.repo.tree, p)
  {}

  /** The overlay reports the files it changed, and the listed ones that are not there in the end. */
  lemma {:induction false} AppliedReports(w: Work, device: Device, files: seq<LiveFile>, p: Path)
    requires DistinctPaths(files)
    ensures var w', f := Applied(w, device, files), FileAt(files, p);
            && Tells(w'.changed, w.changed, p, Get(w'.repo.tree, p) != Get(w.repo.tree, p))
            && Tells(w'.conflicts, w.conflicts, p,
                     f.Some? && !IsGenerated(p) && Get(w'.repo.tree, p) != f.value.next)
  {
    if files != [] {
      var init, last := files[..|files| - 1], files[|files| - 1];
      AppliedReports(w, device, init, p);
      FileAtIffIn(init, p);
      var s := Applied(w, device, init);
      AppliedView(w, device, init, p);
      ApplyOneReports(s, device, last);
      ApplyOneView(s, device, last, p);
      TreeOfView(w, p);
      TreeOfView(s, p);
      TreeOfView(ApplyOne(s, device, last), p);
    }
  }

  /** So do the private files. */
  lemma {:induction false} PrivateReports(w: Work, device: Device, files: seq<PrivateFile>, p: Path)
    requires DistinctPrivate(files)
    ensures var w', f := PrivateApplied(w, device, files), PrivateAt(files, p);
            && Tells(w'.changed, w.changed, p, Get(w'.repo.tree, p) != Get(w.repo.tree, p))
            && Tells(w'.conflicts, w.conflicts, p, f.Some? && Get(w'.repo.tree, p) != f.value.next)
  {
    if files != [] {
      var init, last := files[..|files| - 1], files[|files| - 1];
      PrivateReports(w, device, init, p);
      PrivateAtIffIn(init, p);
      var s := PrivateApplied(w, device, init);
      PrivateAppliedView(w, device, init, p);
      ApplyPrivateOneReports(s, device, last);
      ApplyPrivateOneView(s, device, last, p);
      TreeOfView(w, p);
      TreeOfView(s, p);
      TreeOfView(ApplyPrivateOne(s, device, last), p);
    }
  }

  // ---------------------------------------------------------------- refs

  lemma ImportBranchReports(s: Import, clean: bool, r: Ref, n: Name)
    ensures var t := ImportBranch(s, clean, r);
            && (n in t.updated <==> n in s.updated || Get(t.repo.branches, n) != Get(s.repo.branches, n))
            && (n != r.name ==> Get(t.repo.branches, n) == Get(s.repo.branches, n))
            && (t.updated == s.updated ==> t.repo == s.repo)
            && |t.updated| >= |s.updated| && |t.conflicts| >= |s.conflicts|
            && (t.conflicts == s.conflicts ==>
                  r.name in t.repo.branches && IsAncestor(r.oid, t.repo.branches[r.name]))
  {}

  /** The branches reported are those that are not what they were; no report, nothing done. */
  lemma {:induction false} BranchesReported(s: Import, clean: bool, refs: seq<Ref>, n: Name)
    requires Distinct(Names(refs))
    ensures var t := ImportBranches(s, clean, refs);
            && (n in t.updated <==> n in s.updated || Get(t.repo.branches, n) != Get(s.repo.branches, n))
            && (n !in Names(refs) ==> Get(t.repo.branches, n) == Get(s.repo.branches, n))
            && |t.updated| >= |s.updated| && (t.updated == s.updated ==> t.repo == s.repo)
  {
    if refs != [] {
      var init, last := refs[..|refs| - 1], refs[|refs| - 1];
      assert Names(refs) == Names(init) + [last.name];
      LastOfDistinct(Names(refs));
      BranchesReported(s, clean, init, n);
      ImportBranchReports(ImportBranches(s, clean, init), clean, last, n);
    }
  }

  /** With no conflict, every branch listed has come at least to its commit. */
  lemma {:induction false} NoConflictReaches(s: Import, clean: bool, refs: seq<Ref>)
    ensures var t := ImportBranches(s, clean, refs);
            && |t.conflicts| >= |s.conflicts|
            && (t.conflicts == s.conflicts ==> Reached(refs, t.repo.branches))
  {
    if refs != [] {
      var init, last := refs[..|refs| - 1], refs[|refs| - 1];
      var u := ImportBranches(s, clean, init);
      NoConflictReaches(s, clean, init);
      ImportBranchReports(u, clean, last, last.name);
      assert ImportBranches(s, clean, refs) == ImportBranch(u, clean, last);
      var t := ImportBranch(u, clean, last);
      if t.conflicts == s.conflicts {
        ConflictsOnlyGrow(u, clean, last);
        BranchesGrow(u, clean, [last]);
        assert [last][..0] == [] && ImportBranches(u, clean, [last]) == t;
        ReachedStays(init, u.repo.branches, t.repo.branches);
        assert refs == init + [last];
      }
    }
  }

  lemma ConflictsOnlyGrow(s: Import, clean: bool, r: Ref)
    ensures var t := ImportBranch(s, clean, r);
            t.conflicts == s.conflicts || |t.conflicts| == |s.conflicts| + 1
  {}

  predicate Reached(refs: seq<Ref>, branches: map<Name, Commit>) {
    forall i :: 0 <= i < |refs| ==>
      refs[i].name in branches && IsAncestor(refs[i].oid, branches[refs[i].name])
  }

  lemma ReachedStays(refs: seq<Ref>, before: map<Name, Commit>, after: map<Name, Commit>)
    requires Reached(refs, before) && Grows(before, after)
    ensures Reached(refs, after)
  {
    forall i | 0 <= i < |refs| ensures IsAncestor(refs[i].oid, after[refs[i].name]) {
      AncestorTransitive(refs[i].oid, before[refs[i].name], after[refs[i].name]);
    }
  }

  lemma {:induction false} TagsReported(s: Import, refs: seq<Ref>, n: Name)
    ensures var t := ImportTags(s, refs);
            && (n in t.updated <==> n in s.updated || (n in t.repo.tags && n !in s.repo.tags))
            && |t.updated| >= |s.updated| && (t.updated == s.updated ==> t == s)
  {
    if refs != [] {
      TagsReported(s, refs[..|refs| - 1], n);
      TagsFrame(s, refs[..|refs| - 1]);
    }
  }

  /** A ref is reported exactly when its branch is not what it was or its tag is new. */
  lemma UpdatedExactlyWhen(r: Repo, device: Device, heads: seq<Ref>, tags: seq<Ref>, n: Name)
    requires Distinct(Names(heads))
    ensures var t := BundleImported(r, device, heads, tags);
            n in t.updated <==>
              Get(t.repo.branches, n) != Get(r.branches, n) || (n in t.repo.tags && n !in r.tags)
  {
    if heads != [] || tags != [] {
      var clean := r.bare || IsClean(r);
      var s := Import(r.(remoteHeads := Fetch(r.remoteHeads, device, heads)), [], []);
      BranchesReported(s, clean, heads, n);
      BranchesFrame(s, clean, heads);
      TagsReported(ImportBranches(s, clean, heads), tags, n);
      TagsFrame(ImportBranches(s, clean, heads), tags);
    }
  }

  /** When no ref is reported, the bundle left everything but its own remote refs alone. */
  lemma SilentBundle(r: Repo, device: Device, heads: seq<Ref>, tags: seq<Ref>)
    requires Distinct(Names(heads)) && BundleImported(r, device, heads, tags).updated == []
    ensures var r' := BundleImported(r, device, heads, tags).repo;
            r' == r.(remoteHeads := r'.remoteHeads)
  {
    if heads != [] || tags != [] {
      var clean := r.bare || IsClean(r);
      var s := Import(r.(remoteHeads := Fetch(r.remoteHeads, device, heads)), [], []);
      BranchesReported(s, clean, heads, "");
      TagsReported(ImportBranches(s, clean, heads), tags, "");
    }
  }

  // ---------------------------------------------------------------- a whole import

  lemma TargetsKnown(l: Local, device: Device, m: Snapshot, owned: set<Path>)
    ensures Distinct(PreparedTargets(l, device, m, owned))
    ensures forall t :: t in PreparedTargets(l, device, m, owned) ==> t in PreparedFrom(l, device, m, owned).baselines
  {}

  /** An overlay file for this device to handle. */
  predicate Handles(m: Snapshot, owned: set<Path>, f: LiveFile) {
    f in m.live && f.path !in owned && !IsGenerated(f.path)
  }

  predicate HandlesPrivately(l: Local, m: Snapshot, g: PrivateFile) {
    g in m.files && g.path !in l.untracked && !IsGenerated(g.path)
  }

  /**
   * A path is reported as changed exactly when retraction or the overlay changed its content, and, for a private
   * file, when the private files did.
   */
  lemma ChangedExactlyWhen(l: Local, device: Device, m: Snapshot, owned: set<Path>, p: Path)
    requires WellFormed(m)
    ensures var report := Reported(l, device, m, owned);
            && (p in report.updatedLiveFiles <==>
                  || Get(AfterPrepare(l, device, m, owned).repo.tree, p) != Get(l.repo.tree, p)
                  || Get(Imported(l, device, m, owned).repo.tree, p)
                     != Get(AfterPrivate(l, device, m, owned).repo.tree, p))
            && (p in report.updatedFiles <==>
                  Get(AfterPrivate(l, device, m, owned).repo.tree, p)
                  != Get(AfterBundle(l, device, m, owned).repo.tree, p))
  {
    NotOwnedFiles(m.live, owned);
    ActiveFiles(m.files, l.untracked);
    TargetsKnown(l, device, m, owned);
    PreparedReports(PreparedFrom(l, device, m, owned), PreparedTargets(l, device, m, owned), p);
    PrivateReports(PrivateFrom(l, device, m, owned), device, Active(m.files, l.untracked), p);
    AppliedReports(LiveFrom(l, device, m, owned), device, NotOwned(m.live, owned), p);
  }

  /**
   * A path is reported as a conflict exactly when it should have been retracted and was not, or when a file listed for
   * it is not what it holds in the end.
   */
  lemma ConflictExactlyWhen(l: Local, device: Device, m: Snapshot, owned: set<Path>, p: Path)
    requires WellFormed(m)
    ensures var report, l' := Reported(l, device, m, owned), Imported(l, device, m, owned);
            && (p in report.liveConflicts <==>
                  || (p in PreparedTargets(l, device, m, owned) && p in AfterPrepare(l, device, m, owned).baselines)
                  || exists f :: Handles(m, owned, f) && f.path == p && Get(l'.repo.tree, p) != f.next)
            && (p in report.fileConflicts <==>
                  exists g :: HandlesPrivately(l, m, g) && g.path == p
                              && Get(AfterPrivate(l, device, m, owned).repo.tree, p) != g.next)
  {
    NotOwnedFiles(m.live, owned);
    ActiveFiles(m.files, l.untracked);
    TargetsKnown(l, device, m, owned);
    PreparedReports(PreparedFrom(l, device, m, owned), PreparedTargets(l, device, m, owned), p);
    PrivateReports(PrivateFrom(l, device, m, owned), device, Active(m.files, l.untracked), p);
    AppliedReports(LiveFrom(l, device, m, owned), device, NotOwned(m.live, owned), p);
    ListedAt(m, owned, p);
    PrivateListedAt(l, m, p);
  }

  lemma ListedAt(m: Snapshot, owned: set<Path>, p: Path)
    requires WellFormed(m)
    ensures var at := FileAt(NotOwned(m.live, owned), p);
            forall f :: Handles(m, owned, f) && f.path == p <==> at == Some(f) && !IsGenerated(p)
  {
    NotOwnedFiles(m.live, owned);
    FileAtIffIn(NotOwned(m.live, owned), p);
    var live := NotOwned(m.live, owned);
    forall f | f in live && f.path == p ensures FileAt(live, p) == Some(f) {
      var i, j :| 0 <= i < |live| && live[i] == f && 0 <= j < |live| && live[j] == FileAt(live, p).value;
      assert i == j;
    }
  }

  lemma PrivateListedAt(l: Local, m: Snapshot, p: Path)
    requires WellFormed(m)
    ensures var at := PrivateAt(Active(m.files, l.untracked), p);
            forall g :: HandlesPrivately(l, m, g) && g.path == p <==> at == Some(g)
  {
    ActiveFiles(m.files, l.untracked);
    PrivateAtIffIn(Active(m.files, l.untracked), p);
    var files := Active(m.files, l.untracked);
    forall g | g in files && g.path == p ensures PrivateAt(files, p) == Some(g) {
      var i, j :| 0 <= i < |files| && files[i] == g && 0 <= j < |files| && files[j] == PrivateAt(files, p).value;
      assert i == j;
    }
  }

  /** An import that reports no change made none: not to a ref, HEAD, the index or any file. */
  lemma SilentImportChangesNothing(l: Local, device: Device, m: Snapshot, owned: set<Path>)
    requires WellFormed(m)
    requires var report := Reported(l, device, m, owned);
             report.updated == [] && report.updatedFiles == [] && report.updatedLiveFiles == []
    ensures var r := Imported(l, device, m, owned).repo;
            r.tree == l.repo.tree && r == l.repo.(remoteHeads := r.remoteHeads, ignored := r.ignored, tree := r.tree)
  {
    forall p: Path ensures Get(Imported(l, device, m, owned).repo.tree, p) == Get(l.repo.tree, p) {
      ChangedExactlyWhen(l, device, m, owned, p);
      SilentBundle(AfterPrepare(l, device, m, owned).repo, device, m.heads, m.tags);
    }
    SameTree(Imported(l, device, m, owned).repo.tree, l.repo.tree);
    SilentBundle(AfterPrepare(l, device, m, owned).repo, device, m.heads, m.tags);
    OnlyTrees(l, device, m, owned);
  }

  lemma SameTree(a: Tree, b: Tree)
    requires forall p: Path :: Get(a, p) == Get(b, p)
    ensures a == b
  {
    forall p ensures p in a <==> p in b { assert Get(a, p) == Get(b, p); }
    forall p | p in a ensures a[p] == b[p] { assert Get(a, p) == Get(b, p); }
  }

  /** But for the bundle, the steps only touch files, and the exclude file. */
  lemma OnlyTrees(l: Local, device: Device, m: Snapshot, owned: set<Path>)
    requires WellFormed(m)
    ensures SameRefs(l.repo, AfterPrepare(l, device, m, owned).repo)
    ensures var r, r' := AfterBundle(l, device, m, owned).repo, Imported(l, device, m, owned).repo;
            r' == r.(tree := r'.tree, ignored := r'.ignored)
  {
    NotOwnedFiles(m.live, owned);
    ActiveFiles(m.files, l.untracked);
    TargetsKnown(l, device, m, owned);
    PreparedView(PreparedFrom(l, device, m, owned), PreparedTargets(l, device, m, owned), "");
    PrivateAppliedView(PrivateFrom(l, device, m, owned), device, Active(m.files, l.untracked), "");
    AppliedView(LiveFrom(l, device, m, owned), device, NotOwned(m.live, owned), "");
  }

  /**
   * An import that reports no conflict took everything: each branch has come to the commit stated for it or beyond, and
   * each file listed for this device is there, the overlay's where both lists name one.
   */
  lemma ConflictFreeMeansTaken(l: Local, device: Device, m: Snapshot, owned: set<Path>)
    requires WellFormed(m)
    requires var report := Reported(l, device, m, owned);
             report.conflicts == [] && report.fileConflicts == [] && report.liveConflicts == []
    ensures var r := Imported(l, device, m, owned).repo;
            && Reached(m.heads, r.branches)
            && (forall f :: Handles(m, owned, f) ==> Get(r.tree, f.path) == f.next)
            && (forall g :: HandlesPrivately(l, m, g) && (forall f :: Handles(m, owned, f) ==> f.path != g.path) ==>
                  Get(r.tree, g.path) == g.next)
  {
    BranchesTaken(AfterPrepare(l, device, m, owned).repo, device, m.heads, m.tags);
    OnlyTrees(l, device, m, owned);
    forall f | Handles(m, owned, f) ensures Get(Imported(l, device, m, owned).repo.tree, f.path) == f.next {
      ConflictExactlyWhen(l, device, m, owned, f.path);
    }
    forall g | HandlesPrivately(l, m, g) && (forall f :: Handles(m, owned, f) ==> f.path != g.path)
      ensures Get(Imported(l, device, m, owned).repo.tree, g.path) == g.next {
      ConflictExactlyWhen(l, device, m, owned, g.path);
      OverlayPassesBy(l, device, m, owned, g.path);
    }
  }

  lemma BranchesTaken(r: Repo, device: Device, heads: seq<Ref>, tags: seq<Ref>)
    requires BundleImported(r, device, heads, tags).conflicts == []
    ensures Reached(heads, BundleImported(r, device, heads, tags).repo.branches)
  {
    if heads != [] || tags != [] {
      var clean := r.bare || IsClean(r);
      var s := Import(r.(remoteHeads := Fetch(r.remoteHeads, device, heads)), [], []);
      NoConflictReaches(s, clean, heads);
      TagsFrame(ImportBranches(s, clean, heads), tags);
    }
  }

  lemma OverlayPassesBy(l: Local, device: Device, m: Snapshot, owned: set<Path>, p: Path)
    requires WellFormed(m) && forall f :: Handles(m, owned, f) ==> f.path != p
    ensures Get(Imported(l, device, m, owned).repo.tree, p) == Get(AfterPrivate(l, device, m, owned).repo.tree, p)
  {
    NotOwnedFiles(m.live, owned);
    AppliedView(LiveFrom(l, device, m, owned), device, NotOwned(m.live, owned), p);
    TreeOfView(LiveFrom(l, device, m, owned), p);
    TreeOfView(AfterLive(l, device, m, owned), p);
    ListedAt(m, owned, p);
    FileAtIffIn(NotOwned(m.live, owned), p);
  }
}
