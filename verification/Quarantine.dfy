/**
 * What becomes of the bytes of a file that an import removes: retraction and overlay deletions go to the
 * quarantine (src/live-workspace.js:155-178), a peer's deletion of a private file does not (src/workspace.js:233-236).
 */
module Quarantine {
  import opened Basics
  import opened Paths
  import opened Git
  import opened Checkout
  import opened Workspace
  import opened Sync
  import opened Cells
  import opened LocalEdits
  import opened Idempotence
  import opened Outcome

  // ---------------------------------------------------------------- what an import quarantines

  /** The files that retraction takes away, and those the overlay does, with the bytes they had. */
  predicate Retracted(l: Local, device: Device, m: Snapshot, owned: set<Path>, p: Path, data: Bytes) {
    Get(l.repo.tree, p) == Some(data) && p !in AfterPrepare(l, device, m, owned).repo.tree
  }

  predicate DeletedLive(l: Local, device: Device, m: Snapshot, owned: set<Path>, p: Path, data: Bytes) {
    Get(AfterPrivate(l, device, m, owned).repo.tree, p) == Some(data) && p !in Imported(l, device, m, owned).repo.tree
  }

  predicate RemovedSoftly(l: Local, device: Device, m: Snapshot, owned: set<Path>, p: Path, data: Bytes) {
    Retracted(l, device, m, owned, p, data) || DeletedLive(l, device, m, owned, p, data)
  }

  /** All of them are in the trash after the import, and nothing leaves the trash. */
  lemma ImportQuarantines(l: Local, device: Device, m: Snapshot, owned: set<Path>)
    requires WellFormed(m)
    ensures l.trash <= Imported(l, device, m, owned).trash
    ensures forall p, data :: RemovedSoftly(l, device, m, owned, p, data) ==>
              Trashed(p, data) in Imported(l, device, m, owned).trash[|l.trash|..]
  {
    var w, t, u := PreparedFrom(l, device, m, owned), AfterPrepare(l, device, m, owned), LiveFrom(l, device, m, owned);
    NotOwnedFiles(m.live, owned);
    RetractionsAreQuarantined(w, PreparedTargets(l, device, m, owned));
    LiveDeletionsAreQuarantined(u, device, NotOwned(m.live, owned));
    KeptInBoth(w, t, u, AfterLive(l, device, m, owned));
  }

  lemma KeptInBoth(w: Work, t: Work, u: Work, v: Work)
    requires DeletionsKept(w, t) && DeletionsKept(u, v) && u.trash == t.trash
    ensures w.trash <= v.trash
    ensures forall p :: p in w.repo.tree && p !in t.repo.tree ==> Trashed(p, w.repo.tree[p]) in v.trash[|w.trash|..]
    ensures forall p :: p in u.repo.tree && p !in v.repo.tree ==> Trashed(p, u.repo.tree[p]) in v.trash[|w.trash|..]
  {
    assert v.trash[|w.trash|..] == t.trash[|w.trash|..] + v.trash[|t.trash|..];
  }

  /**
   * A file that an import takes away was quarantined with the bytes it had when it went, or was committed and left
   * with its commit, or was a private file a peer deleted.
   */
  lemma EveryRemovalIsAccounted(l: Local, device: Device, m: Snapshot, owned: set<Path>, p: Path)
    requires WellFormed(m) && p in l.repo.tree && p !in Imported(l, device, m, owned).repo.tree
    ensures var prepared, bundled := AfterPrepare(l, device, m, owned).repo, AfterBundle(l, device, m, owned).repo;
            || (exists data :: RemovedSoftly(l, device, m, owned, p, data))
            || (p in prepared.tree && IsClean(prepared) && Get(HeadTree(prepared), p) == Some(prepared.tree[p]))
            || (p in bundled.tree && PrivateAt(Active(m.files, l.untracked), p) == Some(PrivateFile(p, None)))
  {
    var prepared, bundled := AfterPrepare(l, device, m, owned).repo, AfterBundle(l, device, m, owned).repo;
    var private := AfterPrivate(l, device, m, owned).repo;
    if p in private.tree {
      assert RemovedSoftly(l, device, m, owned, p, private.tree[p]);
    } else if p in bundled.tree {
      DeletedPrivately(l, device, m, owned, p);
    } else if p in prepared.tree {
      CheckedOutAway(prepared, device, m, p);
    } else {
      assert RemovedSoftly(l, device, m, owned, p, l.repo.tree[p]);
    }
  }

  lemma CheckedOutAway(r: Repo, device: Device, m: Snapshot, p: Path)
    requires WellFormed(m) && p in r.tree && p !in BundleImported(r, device, m.heads, m.tags).repo.tree
    ensures IsClean(r) && Get(HeadTree(r), p) == Some(r.tree[p])
  {
    BundleTakesCommitted(r, device, m, p);
    if OverwritesIgnored(r, m.heads, p) {
      TreeAfterBundle(r, device, m.heads, m.tags);
      HeadTreeAfterBundle(r, device, m.heads, m.tags);
    }
  }

  lemma DeletedPrivately(l: Local, device: Device, m: Snapshot, owned: set<Path>, p: Path)
    requires WellFormed(m) && p in AfterBundle(l, device, m, owned).repo.tree
    ensures var r := AfterBundle(l, device, m, owned).repo;
            p !in AfterPrivate(l, device, m, owned).repo.tree <==>
              PrivateAt(Active(m.files, l.untracked), p) == Some(PrivateFile(p, None))
              && Get(l.fileBaselines, p) == Some(Some(Sha(r.tree[p])))
  {
    var active := Active(m.files, l.untracked);
    ActiveFiles(m.files, l.untracked);
    PrivateDeletionExactly(PrivateFrom(l, device, m, owned), device, active, p);
  }

  // ---------------------------------------------------------------- runs

  function Follow(l: Local, run: seq<Event>): Local
    decreases |run|
  {
    if run == [] then l else Follow(Step(l, run[0]), run[1..])
  }

  /** What each import of the run removed softly is in this trash. */
  ghost predicate AllIn(l: Local, run: seq<Event>, trash: seq<Trashed>)
    decreases |run|
  {
    run == [] ||
    (var e := run[0];
     && (e.Receive? && !Skipped(l, e.device, e.snapshot) ==>
           forall p, data :: RemovedSoftly(l, e.device, e.snapshot, e.owned, p, data) ==> Trashed(p, data) in trash)
     && AllIn(Step(l, e), run[1..], trash))
  }

  /** Over any edits here and imports from any devices the trash only grows, and ends holding every such file. */
  lemma {:induction false} QuarantineOnlyGrows(l: Local, run: seq<Event>)
    requires forall e :: e in run && e.Receive? ==> WellFormed(e.snapshot)
    ensures l.trash <= Follow(l, run).trash
    ensures AllIn(l, run, Follow(l, run).trash)
    decreases |run|
  {
    if run != [] {
      var e := run[0];
      var next := Step(l, e);
      QuarantineOnlyGrows(next, run[1..]);
      if e.Receive? { ImportQuarantines(l, e.device, e.snapshot, e.owned); }
      assert forall t :: t in next.trash ==> t in Follow(next, run[1..]).trash;
    }
  }

  // ---------------------------------------------------------------- private files are hard-deleted

  /**
   * Applying private files removes a file exactly when its entry is a deletion and its content is what was last taken.
   */
  lemma PrivateDeletionExactly(w: Work, device: Device, files: seq<PrivateFile>, p: Path)
    requires DistinctPrivate(files) && p in w.repo.tree
    ensures p !in PrivateApplied(w, device, files).repo.tree <==>
              PrivateAt(files, p) == Some(PrivateFile(p, None))
              && Get(w.baselines, p) == Some(Some(Sha(w.repo.tree[p])))
    ensures PrivateApplied(w, device, files).trash == w.trash
  {
    PrivateAppliedView(w, device, files, p);
    PrivateAtIffIn(files, p);
    PrivateTrashFree(w, device, files);
    assert View(w, p).current == Some(w.repo.tree[p]);
    assert View(PrivateApplied(w, device, files), p).current == Get(PrivateApplied(w, device, files).repo.tree, p);
  }

  lemma {:induction false} ActiveAt(files: seq<PrivateFile>, untracked: set<Path>, p: Path)
    ensures PrivateAt(Active(files, untracked), p) == if p in untracked || IsGenerated(p) then None
            else PrivateAt(files, p)
  {
    if files != [] {
      var init, last := files[..|files| - 1], files[|files| - 1];
      ActiveAt(init, untracked, p);
      assert (Active(init, untracked) + [last])[..|Active(init, untracked)|] == Active(init, untracked);
    }
  }

  /** A path that neither the overlay nor any commit concerned knows about. */
  predicate OnlyPrivate(l: Local, device: Device, m: Snapshot, p: Path) {
    && p !in LivePaths(m.live) && p !in BaselinesFor(l, device) && p !in HeadTree(l.repo)
    && (CheckedOut(l.repo, m.heads).Some? ==> p !in CheckedOut(l.repo, m.heads).value.tree)
  }

  lemma PrepareLeaves(l: Local, device: Device, m: Snapshot, owned: set<Path>, p: Path)
    requires WellFormed(m) && p !in LivePaths(m.live) && p !in BaselinesFor(l, device)
    ensures var w := AfterPrepare(l, device, m, owned);
            && SameRefs(l.repo, w.repo) && Get(w.repo.tree, p) == Get(l.repo.tree, p)
            && p !in PreparedTargets(l, device, m, owned)
  {
    var w := PreparedFrom(l, device, m, owned);
    OwnedKeys(BaselinesFor(l, device), m.live, owned, p);
    PreparedView(w, PreparedTargets(l, device, m, owned), p);
    assert View(AfterPrepare(l, device, m, owned), p).current == View(w, p).current;
  }

  lemma BundleLeaves(l: Local, device: Device, m: Snapshot, owned: set<Path>, p: Path)
    requires WellFormed(m) && OnlyPrivate(l, device, m, p)
    ensures Get(AfterBundle(l, device, m, owned).repo.tree, p) == Get(l.repo.tree, p)
  {
    var w := AfterPrepare(l, device, m, owned);
    PrepareLeaves(l, device, m, owned, p);
    if w.repo.bare {
      BareTree(w.repo, device, m.heads, m.tags);
    } else {
      SameNextTree(l.repo, w.repo, m.heads);
      BundleAt(w, device, m, p);
      ShownAs(w, AfterBundle(l, device, m, owned).repo, p);
    }
  }

  lemma ShownAs(w: Work, g: Repo, p: Path)
    ensures View(w.(repo := g), p).current == Get(g.tree, p) && View(w, p).current == Get(w.repo.tree, p)
    ensures View(w, p).head == Get(HeadTree(w.repo), p)
  {}

  /**
   * A peer's deletion of a private file destroys the bytes here, the quarantine getting nothing, exactly when the
   * path is not untracked here and the file still is what was last taken from a peer.
   */
  lemma PrivateFileIsDestroyedExactlyWhen(l: Local, device: Device, m: Snapshot, owned: set<Path>, p: Path)
    requires WellFormed(m) && p in l.repo.tree && OnlyPrivate(l, device, m, p)
    ensures p !in Imported(l, device, m, owned).repo.tree <==>
              && PrivateAt(m.files, p) == Some(PrivateFile(p, None)) && p !in l.untracked && !IsGenerated(p)
              && Get(l.fileBaselines, p) == Some(Some(Sha(l.repo.tree[p])))
    ensures forall data :: Trashed(p, data) in Imported(l, device, m, owned).trash ==> Trashed(p, data) in l.trash
  {
    BundleLeaves(l, device, m, owned, p);
    assert AfterBundle(l, device, m, owned).repo.tree[p] == l.repo.tree[p];
    DeletedPrivately(l, device, m, owned, p);
    ActiveAt(m.files, l.untracked, p);
    LiveFrame(l, device, m, owned, p);
    PrepareLeaves(l, device, m, owned, p);
    NotOwnedFiles(m.live, owned);
    RetractionTrash(PreparedFrom(l, device, m, owned), PreparedTargets(l, device, m, owned), p);
    OverlayTrash(LiveFrom(l, device, m, owned), device, NotOwned(m.live, owned), p);
  }

  lemma {:induction false} RetractionTrash(w: Work, targets: seq<Path>, p: Path)
    requires p !in targets
    ensures forall data :: Trashed(p, data) in Prepared(w, targets).trash ==> Trashed(p, data) in w.trash
  {
    if targets != [] {
      assert targets == targets[..|targets| - 1] + [targets[|targets| - 1]];
      RetractionTrash(w, targets[..|targets| - 1], p);
    }
  }

  lemma {:induction false} OverlayTrash(w: Work, device: Device, files: seq<LiveFile>, p: Path)
    requires forall f :: f in files ==> f.path != p
    ensures forall data :: Trashed(p, data) in Applied(w, device, files).trash ==> Trashed(p, data) in w.trash
  {
    if files != [] {
      assert files == files[..|files| - 1] + [files[|files| - 1]];
      OverlayTrash(w, device, files[..|files| - 1], p);
    }
  }
}
