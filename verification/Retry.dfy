/**
 * When a head is imported again (src/protocol.js:563, 650-657): after a dirty working tree refused its branch, or when
 * it is published anew without its refs recorded here. Which files the retry changes, and what it puts into the trash.
 */
module Retry {
  import opened Basics
  import opened Paths
  import opened Git
  import opened History
  import opened Workspace
  import opened Sync
  import opened Cells
  import opened LocalEdits
  import opened Idempotence
  import opened TrashIndex
  import opened Outcome

  // ---------------------------------------------------------------- when a head is imported again

  /** The checked-out branch is stated, and missing here or behind. */
  predicate Lags(r: Repo, heads: seq<Ref>) {
    CurrentBranch(r).Some? && LagsOn(r, CurrentBranch(r).value, Stated(heads, CurrentBranch(r).value))
  }

  predicate LagsOn(r: Repo, n: Name, stated: Option<Commit>) {
    stated.Some? && (n in r.branches ==> r.branches[n] != stated.value && IsAncestor(r.branches[n], stated.value))
  }

  lemma {:induction false} RefusalsAt(s: Import, clean: bool, refs: seq<Ref>, n: Name)
    requires Distinct(Names(refs))
    ensures Conflict(n, NotClean) in ImportBranches(s, clean, refs).conflicts <==>
              Conflict(n, NotClean) in s.conflicts
              || (!clean && CurrentBranch(s.repo) == Some(n) && LagsOn(s.repo, n, Stated(refs, n)))
  {
    if refs != [] {
      var init, last := refs[..|refs| - 1], refs[|refs| - 1];
      assert Names(refs) == Names(init) + [last.name];
      LastOfDistinct(Names(refs));
      assert Names(refs)[..|refs| - 1] == Names(init);
      RefusalsAt(s, clean, init, n);
      BranchesFrame(s, clean, init);
      if last.name == n {
        StatedIffNamed(init, n);
        BranchAfterImport(s, clean, init, n);
        OneRefusal(ImportBranches(s, clean, init), clean, last);
      }
    }
  }

  lemma OneRefusal(s: Import, clean: bool, ref: Ref)
    ensures Conflict(ref.name, NotClean) in ImportBranch(s, clean, ref).conflicts <==>
              Conflict(ref.name, NotClean) in s.conflicts
              || (!clean && CurrentBranch(s.repo) == Some(ref.name) && LagsOn(s.repo, ref.name, Some(ref.oid)))
  {
    if ref.name in s.repo.branches && IsAncestor(ref.oid, s.repo.branches[ref.name])
       && IsAncestor(s.repo.branches[ref.name], ref.oid) {
      AncestorAntisymmetric(ref.oid, s.repo.branches[ref.name]);
    }
  }

  predicate RefusedAsDirty(l: Local, device: Device, m: Snapshot, owned: set<Path>) {
    exists c :: c in AfterBundle(l, device, m, owned).conflicts && c.reason == NotClean
  }

  /** The branch is refused exactly when the tree is dirty once retracted and HEAD's branch lags. */
  lemma RefusedExactlyWhen(l: Local, device: Device, m: Snapshot, owned: set<Path>)
    requires WellFormed(m)
    ensures var r := AfterPrepare(l, device, m, owned).repo;
            RefusedAsDirty(l, device, m, owned) <==> !IsClean(r) && Lags(r, m.heads)
  {
    var r := AfterPrepare(l, device, m, owned).repo;
    var s := Import(r.(remoteHeads := Fetch(r.remoteHeads, device, m.heads)), [], []);
    var clean := r.bare || IsClean(r);
    var moved := ImportBranches(s, clean, m.heads);
    TagsFrame(moved, m.tags);
    if m.heads != [] || m.tags != [] {
      assert AfterBundle(l, device, m, owned).conflicts == moved.conflicts;
      forall n ensures Conflict(n, NotClean) in moved.conflicts <==>
                         !clean && CurrentBranch(r) == Some(n) && LagsOn(r, n, Stated(m.heads, n))
      {
        RefusalsAt(s, clean, m.heads, n);
      }
      forall c | c in moved.conflicts && c.reason == NotClean ensures !IsClean(r) && Lags(r, m.heads) {
        assert c == Conflict(c.branch, NotClean);
      }
      if !IsClean(r) && Lags(r, m.heads) {
        assert Conflict(CurrentBranch(r).value, NotClean) in moved.conflicts;
      }
    }
  }

  /** A head just imported is imported again exactly when its branch was refused over a dirty tree. */
  lemma SkippedExactlyWhen(l: Local, device: Device, m: Snapshot, owned: set<Path>)
    requires !Skipped(l, device, m)
    ensures Skipped(Accepted(l, device, m, owned), device, m) <==> !RefusedAsDirty(l, device, m, owned)
  {}

  // ---------------------------------------------------------------- where the second import starts

  lemma RepeatStart(l: Local, device: Device, m: Snapshot, owned: set<Path>)
    requires WellFormed(m)
    ensures var once, w := Imported(l, device, m, owned), AfterLive(l, device, m, owned);
            PreparedFrom(once, device, m, owned) == Work(w.repo, w.baselines, w.trash, w.saved, [], [])
  {
    var once, w := Imported(l, device, m, owned), AfterLive(l, device, m, owned);
    OwnedAreRecorded(BaselinesFor(l, device), m.live, owned);
    forall f | f in m.live && f.path in owned ensures Get(w.baselines, f.path) == Some(DigestOf(f.next)) {
      OwnedPathsUntouched(l, device, m, owned, f.path);
    }
    RecordedOwnedChangeNothing(w.baselines, m.live, owned);
    assert BaselinesFor(once, device) == w.baselines;
  }

  /** Its refs were not remembered, so all that was taken from the device is retracted first. */
  predicate RestoresAll(l: Local, device: Device, m: Snapshot) {
    Get(l.importedRefs, device) != Some(RefsDigestOf(m))
  }

  /** The bundle finds the tree dirty, or nothing new to check out. */
  predicate Stays(l: Local, device: Device, m: Snapshot, owned: set<Path>) {
    var r := AfterPrepare(l, device, m, owned).repo;
    !IsClean(r) || NextTree(r, m.heads) == HeadTree(r)
  }

  lemma StaysAt(l: Local, device: Device, m: Snapshot, owned: set<Path>, p: Path)
    requires WellFormed(m) && Stays(l, device, m, owned)
    ensures AfterCheckout(l, device, m, owned, p) == AfterRetraction(l, device, m, owned, p)
  {
    var w := AfterPrepare(l, device, m, owned);
    RetractionAt(l, device, m, owned, p);
    SameNextTree(l.repo, w.repo, m.heads);
    if IsClean(w.repo) { CleanStaysPut(w, p); }
  }

  lemma CleanStaysPut(w: Work, p: Path)
    requires IsClean(w.repo)
    ensures MovedCell(View(w, p), Get(HeadTree(w.repo), p)) == View(w, p)
  {}

  // ---------------------------------------------------------------- paths of the overlay

  /** The file is as the overlay has it, differs from HEAD and is not staged: it is retracted and applied again. */
  predicate Repeats(l: Local, device: Device, m: Snapshot, f: LiveFile) {
    var c := Here(l, device, f.path);
    RestoresAll(l, device, m) && c.current == f.next && c.current != c.head && !c.Staged()
  }

  /** And then refused, the overlay having been taken against another content than HEAD's. */
  predicate Undone(l: Local, device: Device, m: Snapshot, f: LiveFile) {
    Repeats(l, device, m, f) && f.base != DigestOf(Here(l, device, f.path).head)
  }

  /** An entry of the overlay that this device handles. */
  predicate Handled(m: Snapshot, owned: set<Path>, f: LiveFile) {
    f in m.live && f.path !in owned && !IsGenerated(f.path)
  }

  lemma OnceAt(l: Local, device: Device, m: Snapshot, owned: set<Path>, f: LiveFile)
    requires WellFormed(m) && Handled(m, owned, f)
    ensures var c := Here(Imported(l, device, m, owned), device, f.path);
            && View(AfterLive(l, device, m, owned), f.path) == c
            && c.baseline == Some(DigestOf(f.next)) && (c.current == f.next || !Safe(c, f))
  {
    var w := AfterLive(l, device, m, owned);
    NotOwnedFiles(m.live, owned);
    AppliedSettles(LiveFrom(l, device, m, owned), device, NotOwned(m.live, owned));
    assert Settled(w, device, f);
    ShownHere(l, device, m, owned, f.path);
  }

  lemma AgainRetracted(l: Local, device: Device, m: Snapshot, owned: set<Path>, f: LiveFile)
    requires WellFormed(m) && Handled(m, owned, f)
    ensures var once := Imported(l, device, m, owned);
            var c := Here(once, device, f.path);
            AfterRetraction(once, device, m, owned, f.path) ==
              if RestoresAll(once, device, m) && c.current == f.next && !c.Staged()
              then c.(current := c.head, baseline := None) else c
  {
    var once := Imported(l, device, m, owned);
    NotOwnedFiles(m.live, owned);
    OnceAt(l, device, m, owned, f);
    RepeatStart(l, device, m, owned);
    var start, targets := PreparedFrom(once, device, m, owned), PreparedTargets(once, device, m, owned);
    assert View(start, f.path) == Here(once, device, f.path);
    assert f in NotOwned(m.live, owned);
    assert f.path in targets <==> RestoresAll(once, device, m);
  }

  lemma ListedAt(m: Snapshot, owned: set<Path>, f: LiveFile)
    requires WellFormed(m) && Handled(m, owned, f)
    ensures FileAt(NotOwned(m.live, owned), f.path) == Some(f)
  {
    NotOwnedFiles(m.live, owned);
    FileAtIffIn(NotOwned(m.live, owned), f.path);
  }

  lemma NotPrivate(l: Local, device: Device, m: Snapshot, owned: set<Path>, p: Path)
    requires WellFormed(m) && forall g :: g in m.files ==> g.path != p
    ensures PrivateAt(Active(m.files, l.untracked), p) == None
  {
    ActiveFiles(m.files, l.untracked);
    PrivateAtIffIn(Active(m.files, l.untracked), p);
  }

  /** Retraction and overlay on a file that was taken or refused before. */
  lemma CellAgain(c: Cell, f: LiveFile, all: bool)
    requires !IsGenerated(f.path) && c.baseline == Some(DigestOf(f.next)) && (c.current == f.next || !Safe(c, f))
    ensures var back := all && c.current == f.next && !c.Staged();
            AppliedCell(if back then c.(current := c.head, baseline := None) else c, f) ==
              if back && c.current != c.head && f.base != DigestOf(c.head) then c.(current := c.head) else c
  {}

  /** What the overlay makes of the file the second time. */
  lemma AgainApplied(l: Local, device: Device, m: Snapshot, owned: set<Path>, f: LiveFile)
    requires WellFormed(m) && KindsApart(l, device, m) && !l.repo.bare && Handled(m, owned, f)
    requires Stays(Imported(l, device, m, owned), device, m, owned)
    ensures var once := Imported(l, device, m, owned);
            var c := Here(once, device, f.path);
            AfterImport(once, device, m, owned, f.path) ==
              if Undone(once, device, m, f) then c.(current := c.head) else c
  {
    var once := Imported(l, device, m, owned);
    OnceAt(l, device, m, owned, f);
    AgainRetracted(l, device, m, owned, f);
    StaysAt(once, device, m, owned, f.path);
    ListedAt(m, owned, f);
    NotPrivate(once, device, m, owned, f.path);
    CellAgain(Here(once, device, f.path), f, RestoresAll(once, device, m));
  }

  // ---------------------------------------------------------------- all other paths

  lemma PrivateSettles(l: Local, device: Device, m: Snapshot, owned: set<Path>, g: PrivateFile)
    requires WellFormed(m) && KindsApart(l, device, m) && g in Active(m.files, l.untracked)
    ensures var once := Imported(l, device, m, owned);
            var current, baseline := Get(once.repo.tree, g.path), Get(once.fileBaselines, g.path);
            && baseline == Some(DigestOf(g.next))
            && forall c: Cell :: c.current == current && c.baseline == baseline ==>
                 c.current == g.next || !PrivateSafe(c, g)
  {
    var active, w := Active(m.files, l.untracked), AfterPrivate(l, device, m, owned);
    ActiveFiles(m.files, l.untracked);
    PrivateAppliedSettles(PrivateFrom(l, device, m, owned), device, active);
    assert PrivateSettled(w, device, g);
    LiveFrame(l, device, m, owned, g.path);
    assert View(w, g.path).current == Get(w.repo.tree, g.path) && View(w, g.path).baseline == Get(w.baselines, g.path);
  }

  /** The private list leaves a file that it was applied to before. */
  lemma PrivateAgain(l: Local, device: Device, m: Snapshot, owned: set<Path>, p: Path, c: Cell)
    requires WellFormed(m) && KindsApart(l, device, m)
    requires var once := Imported(l, device, m, owned);
             c.current == Get(once.repo.tree, p) && c.baseline == Get(once.fileBaselines, p)
    ensures match PrivateAt(Active(m.files, l.untracked), p)
            case Some(g) => AppliedPrivateCell(c, g).current == c.current
            case None => true
  {
    PrivateAtIffIn(Active(m.files, l.untracked), p);
    match PrivateAt(Active(m.files, l.untracked), p)
    case Some(g) => PrivateSettles(l, device, m, owned, g);
    case None =>
  }

  /** A cell that was not to be retracted keeps its file when it is, after a checkout. */
  lemma StillHarmless(c: Cell, clean: bool, next: Option<Bytes>)
    requires c.baseline == None || !Retractable(c)
    requires clean ==> c.index == c.head && (c.head.Some? ==> c.current == c.head)
    ensures var c' := if clean then MovedCell(c, next) else c;
            Retractable(c') ==> c'.current == c'.head
  {}

  lemma RetractedOrHeld(l: Local, device: Device, m: Snapshot, owned: set<Path>, p: Path)
    ensures var c := AfterRetraction(l, device, m, owned, p);
            p in PreparedTargets(l, device, m, owned) ==> c.baseline == None || !Retractable(c)
  {}

  predicate NotHandled(m: Snapshot, owned: set<Path>, p: Path) {
    forall f :: f in m.live && f.path == p ==> !Handled(m, owned, f)
  }

  /** A path not handled that the second retraction looks at was remembered before the first, which looked at it too. */
  lemma TargetAgain(l: Local, device: Device, m: Snapshot, owned: set<Path>, p: Path)
    requires WellFormed(m) && NotHandled(m, owned, p)
    requires p in PreparedTargets(Imported(l, device, m, owned), device, m, owned)
    ensures p !in owned && p in BaselinesFor(Imported(l, device, m, owned), device)
    ensures p in BaselinesFor(l, device) ==> p in PreparedTargets(l, device, m, owned)
  {
    RepeatStart(l, device, m, owned);
    var once := Imported(l, device, m, owned);
    assert PreparedFrom(once, device, m, owned).baselines == BaselinesFor(once, device);
    assert RestoresAll(once, device, m) ==> RestoresAll(l, device, m);
    UnownedBaseline(BaselinesFor(l, device), m.live, owned, p);
  }

  lemma NotHandledStays(l: Local, device: Device, m: Snapshot, owned: set<Path>, p: Path)
    requires WellFormed(m) && NotHandled(m, owned, p)
    ensures AfterImport(l, device, m, owned, p) ==
              AfterCheckout(l, device, m, owned, p).(current := AfterPrivateList(l, device, m, owned, p))
  {
    NotOwnedFiles(m.live, owned);
    FileAtIffIn(NotOwned(m.live, owned), p);
  }

  lemma CleanAt(w: Work, p: Path)
    requires IsClean(w.repo)
    ensures var c := View(w, p); c.index == c.head && (c.head.Some? ==> c.current == c.head)
  {}

  lemma HarmlessAgain(l: Local, device: Device, m: Snapshot, owned: set<Path>, p: Path)
    requires WellFormed(m) && KindsApart(l, device, m) && !l.repo.bare && NotHandled(m, owned, p)
    requires p in PreparedTargets(Imported(l, device, m, owned), device, m, owned)
    ensures var c := Here(Imported(l, device, m, owned), device, p); Retractable(c) ==> c.current == c.head
  {
    var w := AfterPrepare(l, device, m, owned);
    TargetAgain(l, device, m, owned, p);
    ImportAtPath(l, device, m, owned, p);
    NotHandledStays(l, device, m, owned, p);
    RetractionAt(l, device, m, owned, p);
    UnownedBaseline(BaselinesFor(l, device), m.live, owned, p);
    RetractedOrHeld(l, device, m, owned, p);
    NotPrivate(l, device, m, owned, p);
    if IsClean(w.repo) { CleanAt(w, p); }
    StillHarmless(AfterRetraction(l, device, m, owned, p), IsClean(w.repo), Get(NextTree(l.repo, m.heads), p));
  }

  lemma OtherAgain(l: Local, device: Device, m: Snapshot, owned: set<Path>, p: Path)
    requires WellFormed(m) && KindsApart(l, device, m) && !l.repo.bare && NotHandled(m, owned, p)
    requires Stays(Imported(l, device, m, owned), device, m, owned)
    ensures var once := Imported(l, device, m, owned);
            AfterImport(once, device, m, owned, p).current == Here(once, device, p).current
  {
    var once := Imported(l, device, m, owned);
    RepeatStart(l, device, m, owned);
    assert View(PreparedFrom(once, device, m, owned), p) == Here(once, device, p);
    if p in PreparedTargets(once, device, m, owned) { HarmlessAgain(l, device, m, owned, p); }
    StaysAt(once, device, m, owned, p);
    PrivateAgain(l, device, m, owned, p,
                 AfterCheckout(once, device, m, owned, p).(baseline := Get(once.fileBaselines, p)));
    NotHandledStays(once, device, m, owned, p);
  }

  // ---------------------------------------------------------------- what the retry leaves

  predicate UndoneAt(l: Local, device: Device, m: Snapshot, owned: set<Path>, p: Path) {
    match FileAt(NotOwned(m.live, owned), p)
    case Some(f) => !IsGenerated(p) && Undone(l, device, m, f)
    case None => false
  }

  /** What the retry puts into the trash: files HEAD has not, and committed ones that the overlay deletes once more. */
  predicate TrashedAgain(l: Local, device: Device, m: Snapshot, f: LiveFile, data: Bytes) {
    var c := Here(l, device, f.path);
    Repeats(l, device, m, f) &&
    if c.head.None? then f.next == Some(data)
    else f.next.None? && c.head == Some(data) && f.base == DigestOf(c.head)
  }

  predicate TrashedAgainAt(l: Local, device: Device, m: Snapshot, owned: set<Path>, entry: Trashed) {
    match FileAt(NotOwned(m.live, owned), entry.path)
    case Some(f) => !IsGenerated(f.path) && TrashedAgain(l, device, m, f, entry.data)
    case None => false
  }

  /**
   * A second import that checks nothing out gives back to HEAD exactly the overlay's files that HEAD's content was not
   * the base of, when the refs were not remembered, and leaves every other file.
   */
  lemma RetryTreeExactly(l: Local, device: Device, m: Snapshot, owned: set<Path>, p: Path)
    requires WellFormed(m) && KindsApart(l, device, m) && !l.repo.bare
    requires Stays(Imported(l, device, m, owned), device, m, owned)
    ensures var once := Imported(l, device, m, owned);
            Get(Imported(once, device, m, owned).repo.tree, p) ==
              if UndoneAt(once, device, m, owned, p) then Get(HeadTree(once.repo), p) else Get(once.repo.tree, p)
  {
    var once := Imported(l, device, m, owned);
    StaysNotBare(l, device, m, owned);
    ImportAtPath(once, device, m, owned, p);
    OnlyHandled(m, owned, p);
    match FileAt(NotOwned(m.live, owned), p)
    case Some(f) =>
      if IsGenerated(p) { OtherAgain(l, device, m, owned, p); } else { AgainApplied(l, device, m, owned, f); }
    case None => OtherAgain(l, device, m, owned, p);
  }

  lemma OnlyHandled(m: Snapshot, owned: set<Path>, p: Path)
    requires WellFormed(m)
    ensures match FileAt(NotOwned(m.live, owned), p)
            case Some(f) => f.path == p && f in m.live
            && (if IsGenerated(p) then NotHandled(m, owned, p) else Handled(m, owned, f))
            case None => NotHandled(m, owned, p)
  {
    NotOwnedFiles(m.live, owned);
    FileAtIffIn(NotOwned(m.live, owned), p);
    forall f | f in m.live && f.path == p && Handled(m, owned, f)
      ensures FileAt(NotOwned(m.live, owned), p) == Some(f) {
      ListedAt(m, owned, f);
    }
  }

  lemma RetractedAgain(l: Local, device: Device, m: Snapshot, owned: set<Path>, entry: Trashed)
    requires WellFormed(m) && KindsApart(l, device, m) && !l.repo.bare
    ensures var once := Imported(l, device, m, owned);
            && once.trash <= AfterPrepare(once, device, m, owned).trash
            && (entry in AfterPrepare(once, device, m, owned).trash[|once.trash|..] <==>
                  TrashedAgainAt(once, device, m, owned, entry) && Here(once, device, entry.path).head.None?)
  {
    var once := Imported(l, device, m, owned);
    var start, targets := PreparedFrom(once, device, m, owned), PreparedTargets(once, device, m, owned);
    var p := entry.path;
    RepeatStart(l, device, m, owned);
    RetractionEntries(start, targets, entry);
    assert View(start, p) == Here(once, device, p);
    OnlyHandled(m, owned, p);
    match FileAt(NotOwned(m.live, owned), p) {
      case Some(f) =>
        if IsGenerated(p) {
          if p in targets { HarmlessAgain(l, device, m, owned, p); }
        } else {
          OnceAt(l, device, m, owned, f);
          AgainTarget(l, device, m, owned, f);
        }
      case None => if p in targets { HarmlessAgain(l, device, m, owned, p); }
    }
  }

  lemma AgainTarget(l: Local, device: Device, m: Snapshot, owned: set<Path>, f: LiveFile)
    requires WellFormed(m) && Handled(m, owned, f)
    ensures var once := Imported(l, device, m, owned);
            f.path in PreparedTargets(once, device, m, owned) <==> RestoresAll(once, device, m)
  {
    NotOwnedFiles(m.live, owned);
    OnceAt(l, device, m, owned, f);
    RepeatStart(l, device, m, owned);
    assert f in NotOwned(m.live, owned);
  }

  /** Which cells an overlay entry deletes a file from the second time. */
  lemma CellDeleted(c: Cell, f: LiveFile, all: bool, data: Bytes)
    requires !IsGenerated(f.path) && c.baseline == Some(DigestOf(f.next)) && (c.current == f.next || !Safe(c, f))
    ensures var back := all && c.current == f.next && !c.Staged();
            var c' := if back then c.(current := c.head, baseline := None) else c;
            Safe(c', f) && f.next.None? && c'.current == Some(data) <==>
              back && f.next.None? && c.head == Some(data) && f.base == DigestOf(c.head)
  {}

  lemma DeletedAgain(l: Local, device: Device, m: Snapshot, owned: set<Path>, entry: Trashed)
    requires WellFormed(m) && KindsApart(l, device, m) && !l.repo.bare
    requires Stays(Imported(l, device, m, owned), device, m, owned)
    ensures var once := Imported(l, device, m, owned);
            var prepared := AfterPrepare(once, device, m, owned);
            && prepared.trash <= AfterLive(once, device, m, owned).trash
            && (entry in AfterLive(once, device, m, owned).trash[|prepared.trash|..] <==>
                  TrashedAgainAt(once, device, m, owned, entry) && Here(once, device, entry.path).head.Some?)
  {
    var once, p := Imported(l, device, m, owned), entry.path;
    NotOwnedFiles(m.live, owned);
    OverlayEntries(LiveFrom(once, device, m, owned), device, NotOwned(m.live, owned), entry);
    OnlyHandled(m, owned, p);
    StaysNotBare(l, device, m, owned);
    PrivateAtPath(once, device, m, owned, p);
    match FileAt(NotOwned(m.live, owned), p) {
      case Some(f) =>
        if !IsGenerated(p) {
          OnceAt(l, device, m, owned, f);
          AgainRetracted(l, device, m, owned, f);
          StaysAt(once, device, m, owned, p);
          NotPrivate(once, device, m, owned, p);
          CellDeleted(Here(once, device, p), f, RestoresAll(once, device, m), entry.data);
        }
      case None =>
    }
  }

  /** And it puts exactly these into the trash. */
  lemma RetryTrashExactly(l: Local, device: Device, m: Snapshot, owned: set<Path>, entry: Trashed)
    requires WellFormed(m) && KindsApart(l, device, m) && !l.repo.bare
    requires Stays(Imported(l, device, m, owned), device, m, owned)
    ensures var once := Imported(l, device, m, owned);
            var twice := Imported(once, device, m, owned);
            && once.trash <= twice.trash
            && (entry in twice.trash[|once.trash|..] <==> TrashedAgainAt(once, device, m, owned, entry))
  {
    var once := Imported(l, device, m, owned);
    RetractedAgain(l, device, m, owned, entry);
    DeletedAgain(l, device, m, owned, entry);
    EntryOneMore(once.trash, AfterPrepare(once, device, m, owned).trash, AfterLive(once, device, m, owned).trash,
                 entry);
  }

  // ---------------------------------------------------------------- retries

  predicate DirtyAgain(l: Local, device: Device, m: Snapshot, owned: set<Path>) {
    !IsClean(AfterPrepare(Imported(l, device, m, owned), device, m, owned).repo)
  }

  lemma RefusedBranchStays(r: Repo, device: Device, m: Snapshot)
    requires WellFormed(m) && !r.bare && !IsClean(r) && Lags(r, m.heads)
    ensures var g := BundleImported(r, device, m.heads, m.tags).repo; !g.bare && g.head == r.head && Lags(g, m.heads)
  {
    var s := Import(r.(remoteHeads := Fetch(r.remoteHeads, device, m.heads)), [], []);
    var moved, b := ImportBranches(s, false, m.heads), CurrentBranch(r).value;
    BranchAfterImport(s, false, m.heads, b);
    BranchesFrame(s, false, m.heads);
    TagsFrame(moved, m.tags);
    assert Get(moved.repo.branches, b) == Get(r.branches, b);
  }

  lemma LagsAlike(r: Repo, r': Repo, heads: seq<Ref>)
    requires r'.bare == r.bare && r'.head == r.head && r'.branches == r.branches
    ensures Lags(r', heads) <==> Lags(r, heads)
  {}

  /** While the tree stays dirty the branch is refused again, so the head is never recorded and tried once more. */
  lemma StillRefused(l: Local, device: Device, m: Snapshot, owned: set<Path>)
    requires WellFormed(m) && !l.repo.bare && RefusedAsDirty(l, device, m, owned) && DirtyAgain(l, device, m, owned)
    ensures RefusedAsDirty(Imported(l, device, m, owned), device, m, owned)
  {
    var once, r := Imported(l, device, m, owned), AfterPrepare(l, device, m, owned).repo;
    RefusedExactlyWhen(l, device, m, owned);
    PreparedFacts(l, device, m, owned, "");
    RefusedBranchStays(r, device, m);
    PrivateFrame(l, device, m, owned, "");
    LiveFrame(l, device, m, owned, "");
    LagsAlike(AfterBundle(l, device, m, owned).repo, once.repo, m.heads);
    PreparedFacts(once, device, m, owned, "");
    LagsAlike(once.repo, AfterPrepare(once, device, m, owned).repo, m.heads);
    RefusedExactlyWhen(once, device, m, owned);
  }

  /**
   * The retry of a head whose branch was refused, the tree still dirty: which files it changes, what it puts into the
   * trash, and that it is no more recorded than the first try.
   */
  lemma RetryExactly(l: Local, device: Device, m: Snapshot, owned: set<Path>, p: Path, data: Bytes)
    requires WellFormed(m) && KindsApart(l, device, m) && !l.repo.bare && !Skipped(l, device, m)
    requires RefusedAsDirty(l, device, m, owned) && DirtyAgain(l, device, m, owned)
    ensures var once := Accepted(l, device, m, owned);
            var twice := Accepted(once, device, m, owned);
            && (Get(twice.repo.tree, p) ==
                  if UndoneAt(once, device, m, owned, p) then Get(HeadTree(once.repo), p) else Get(once.repo.tree, p))
            && once.trash <= twice.trash
            && (Trashed(p, data) in twice.trash[|once.trash|..] <==>
                  TrashedAgainAt(once, device, m, owned, Trashed(p, data)))
            && !Skipped(twice, device, m) && RefusedAsDirty(once, device, m, owned)
  {
    SkippedExactlyWhen(l, device, m, owned);
    StillRefused(l, device, m, owned);
    SkippedExactlyWhen(Imported(l, device, m, owned), device, m, owned);
    RetryTreeExactly(l, device, m, owned, p);
    RetryTrashExactly(l, device, m, owned, Trashed(p, data));
  }

  lemma HereAgain(l: Local, device: Device, m: Snapshot, owned: set<Path>, f: LiveFile)
    requires WellFormed(m) && KindsApart(l, device, m) && !l.repo.bare && Handled(m, owned, f)
    requires Stays(Imported(l, device, m, owned), device, m, owned)
    ensures var once := Imported(l, device, m, owned);
            var c := Here(once, device, f.path);
            Here(Imported(once, device, m, owned), device, f.path) ==
              if Undone(once, device, m, f) then c.(current := c.head) else c
  {
    var once := Imported(l, device, m, owned);
    StaysNotBare(l, device, m, owned);
    AgainApplied(l, device, m, owned, f);
    ImportAtPath(once, device, m, owned, f.path);
  }

  /**
   * After the first retry the tree is settled, while every further one puts the same files into the trash: those the
   * first did that it did not give back to HEAD.
   */
  lemma RetriesSettle(l: Local, device: Device, m: Snapshot, owned: set<Path>, f: LiveFile, data: Bytes)
    requires WellFormed(m) && KindsApart(l, device, m) && !l.repo.bare && Handled(m, owned, f)
    requires RefusedAsDirty(l, device, m, owned) && DirtyAgain(l, device, m, owned)
    ensures var once := Imported(l, device, m, owned);
            var twice := Imported(once, device, m, owned);
            && !Undone(twice, device, m, f)
            && (TrashedAgain(twice, device, m, f, data) <==>
                  TrashedAgain(once, device, m, f, data) && !Undone(once, device, m, f))
  {
    HereAgain(l, device, m, owned, f);
    StillRefused(l, device, m, owned);
  }

  // ---------------------------------------------------------------- the inputs

  /** Two files committed; the second is being edited, the first as given. */
  function Edited(first: Bytes): Local {
    Local(Repo(map["main" := OldCommit()], map[], map[], OnBranch("main"), false,
               map["f" := first, "g" := [9]], map["f" := [1], "g" := [1]], {}),
          [], map[], map[], {}, map[], map[], map[], map[])
  }

  function OldCommit(): Commit { Commit(map["f" := [1], "g" := [1]], [], 0) }
  function NewCommit(): Commit { Commit(map["f" := [3], "g" := [1]], [OldCommit()], 1) }

  function Moving(live: LiveFile): Snapshot {
    Snapshot(1, [Ref("main", NewCommit())], [], [], [live])
  }

  lemma EditedLags(first: Bytes, live: LiveFile)
    ensures WellFormed(Moving(live)) && Lags(Edited(first).repo, Moving(live).heads)
    ensures !IsClean(Edited(first).repo)
  {
    var r, heads := Edited(first).repo, Moving(live).heads;
    assert Names(heads) == ["main"];
    assert Stated(heads, "main") == Some(NewCommit());
    assert IsAncestor(OldCommit(), NewCommit()) by { assert NewCommit().parents[0] == OldCommit(); }
    assert r.tree["g"] == [9] && r.index["g"] == [1];
  }

  lemma EditedRefused(first: Bytes, live: LiveFile)
    ensures var l, m := Edited(first), Moving(live);
            && RefusedAsDirty(l, "peer", m, {}) && !Skipped(l, "peer", m) && KindsApart(l, "peer", m)
            && AfterPrepare(l, "peer", m, {}).repo == l.repo && PreparedTargets(l, "peer", m, {}) == []
  {
    var l, m := Edited(first), Moving(live);
    EditedLags(first, live);
    assert WithOwned(map[], m.live[..0], {}) == map[];
    assert PreparedFrom(l, "peer", m, {}).baselines == map[];
    NothingToRetract(LivePaths(NotOwned(m.live, {})));
    RefusedExactlyWhen(l, "peer", m, {});
  }

  lemma EditedOnce(first: Bytes, live: LiveFile, p: Path)
    requires |p| <= 3 && '/' !in p && live.path != "g"
    ensures var l, m := Edited(first), Moving(live);
            var c := Cell(Get(l.repo.tree, p), Get(l.repo.index, p), Get(OldCommit().tree, p), None);
            Here(Imported(l, "peer", m, {}), "peer", p) == if p == live.path then AppliedCell(c, live) else c
  {
    var l, m := Edited(first), Moving(live);
    EditedLags(first, live);
    EditedRefused(first, live);
    ImportAtPath(l, "peer", m, {}, p);
    assert PrivateAt(Active([], {}), p) == None;
    assert NotOwned([live], {}) == [live] by { assert NotOwned([live][..0], {}) == []; }
    assert FileAt([live], p) == if p == live.path then Some(live) else None;
  }

  lemma EditedStaysDirty(first: Bytes, live: LiveFile)
    requires live.path != "g"
    ensures DirtyAgain(Edited(first), "peer", Moving(live), {})
  {
    var l, m := Edited(first), Moving(live);
    var once := Imported(l, "peer", m, {});
    EditedLags(first, live);
    EditedOnce(first, live, "g");
    RepeatStart(l, "peer", m, {});
    assert View(PreparedFrom(once, "peer", m, {}), "g") == Here(once, "peer", "g");
    RetractionAt(once, "peer", m, {}, "g");
    assert Here(once, "peer", "g").current == Some([9]) && Here(once, "peer", "g").index == Some([1]);
    if IsClean(AfterPrepare(once, "peer", m, {}).repo) { CleanAt(AfterPrepare(once, "peer", m, {}), "g"); }
  }

  lemma EditedAgain(l: Local, m: Snapshot, first: Bytes, live: LiveFile, data: Bytes)
    requires l == Edited(first) && m == Moving(live) && live.path != "g" && |live.path| <= 3 && '/' !in live.path
    ensures var once := Accepted(l, "peer", m, {});
            var twice := Accepted(once, "peer", m, {});
            && once == Imported(l, "peer", m, {}) && RestoresAll(once, "peer", m)
            && (Get(twice.repo.tree, live.path) ==
                  if Undone(once, "peer", m, live) then Get(HeadTree(once.repo), live.path)
                  else Get(once.repo.tree, live.path))
            && once.trash <= twice.trash
            && (Trashed(live.path, data) in twice.trash[|once.trash|..] <==>
                  TrashedAgain(once, "peer", m, live, data))
  {
    EditedLags(first, live);
    EditedRefused(first, live);
    EditedStaysDirty(first, live);
    ShortNameIsShared(live.path);
    RetryExactly(l, "peer", m, {}, live.path, data);
    ListedAt(m, {}, live);
  }

  /** What the overlay and its retry make of the one entry, by the cell it finds. */
  lemma EditedTwice(l: Local, m: Snapshot, first: Bytes, live: LiveFile, c: Cell, data: Bytes)
    requires l == Edited(first) && m == Moving(live) && live.path != "g" && |live.path| <= 3 && '/' !in live.path
    requires c == Cell(Get(l.repo.tree, live.path), Get(l.repo.index, live.path), Get(OldCommit().tree, live.path),
                       None)
    requires Safe(c, live) && live.next != c.head && !c.Staged()
    ensures var once := Accepted(l, "peer", m, {});
            var twice := Accepted(once, "peer", m, {});
            && Get(once.repo.tree, live.path) == live.next
            && Get(twice.repo.tree, live.path) == (if live.base == DigestOf(c.head) then live.next else c.head)
            && once.trash <= twice.trash
            && (c.head.None? ==> (Trashed(live.path, data) in twice.trash[|once.trash|..] <==> live.next == Some(data)))
            && (live.next.Some? && c.head.Some? ==> Trashed(live.path, data) !in twice.trash[|once.trash|..])
  {
    EditedAgain(l, m, first, live, data);
    EditedOnce(first, live, live.path);
    ShortNameIsShared(live.path);
  }

  /**
   * The overlay's f was taken against the commit that could not be checked out: the retry puts it back, to no trash.
   */
  lemma RetryUndoes(l: Local, m: Snapshot, live: LiveFile)
    requires live == LiveFile("f", Some([2]), Some(Sha([3]))) && l == Edited([2]) && m == Moving(live)
    ensures var once := Accepted(l, "peer", m, {});
            var twice := Accepted(once, "peer", m, {});
            && Get(once.repo.tree, "f") == Some([2]) && Get(twice.repo.tree, "f") == Some([1])
            && once.trash <= twice.trash && Trashed("f", [2]) !in twice.trash[|once.trash|..]
  {
    EditedTwice(l, m, [2], live, Cell(Some([2]), Some([1]), Some([1]), None), [2]);
  }

  /** The overlay's n is in no commit: each retry puts it into the trash and writes it again. */
  lemma RetryFillsTrash(l: Local, m: Snapshot, live: LiveFile)
    requires live == LiveFile("n", Some([5]), None) && l == Edited([1]) && m == Moving(live)
    ensures var once := Accepted(l, "peer", m, {});
            var twice := Accepted(once, "peer", m, {});
            && Get(once.repo.tree, "n") == Get(twice.repo.tree, "n") == Some([5])
            && once.trash <= twice.trash && Trashed("n", [5]) in twice.trash[|once.trash|..]
  {
    EditedTwice(l, m, [1], live, Cell(None, None, None, None), [5]);
  }
}
