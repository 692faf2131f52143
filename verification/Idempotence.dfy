/**
 * Importing a snapshot twice is importing it once, conflicted files included, and a path owned by a
 * live session is never touched by retraction or by the overlay.
 */
module Idempotence {
  import opened Basics
  import opened Paths
  import opened Git
  import opened Workspace
  import opened Sync
  import opened Cells
  import opened LocalEdits

  // ---------------------------------------------------------------- a bundle whose refs are already here

  /** Every stated branch and tag is here already, and fetched before. */
  ghost predicate RefsSettled(r: Repo, device: Device, m: Snapshot) {
    && (forall ref :: ref in m.heads ==>
          ref.name in r.branches && (r.branches[ref.name] == ref.oid || IsAncestor(ref.oid, r.branches[ref.name])))
    && (forall ref :: ref in m.tags ==> ref.name in r.tags)
    && r.remoteHeads == Fetch(r.remoteHeads, device, m.heads)
  }

  lemma {:induction false} SettledBranches(s: Import, clean: bool, refs: seq<Ref>)
    requires forall ref :: ref in refs ==>
      ref.name in s.repo.branches
      && (s.repo.branches[ref.name] == ref.oid || IsAncestor(ref.oid, s.repo.branches[ref.name]))
    ensures ImportBranches(s, clean, refs) == s
  {
    if refs != [] {
      assert refs == refs[..|refs| - 1] + [refs[|refs| - 1]];
      SettledBranches(s, clean, refs[..|refs| - 1]);
    }
  }

  lemma {:induction false} SettledTags(s: Import, refs: seq<Ref>)
    requires forall ref :: ref in refs ==> ref.name in s.repo.tags
    ensures ImportTags(s, refs) == s
  {
    if refs != [] {
      assert refs == refs[..|refs| - 1] + [refs[|refs| - 1]];
      SettledTags(s, refs[..|refs| - 1]);
    }
  }

  lemma SettledBundle(r: Repo, device: Device, m: Snapshot)
    requires RefsSettled(r, device, m)
    ensures BundleImported(r, device, m.heads, m.tags) == Import(r, [], [])
  {
    var s := Import(r, [], []);
    SettledBranches(s, r.bare || IsClean(r), m.heads);
    SettledTags(s, m.tags);
    if m.heads != [] { assert m.heads[0] in m.heads; }
  }

  // ---------------------------------------------------------------- folds that have nothing left to do

  lemma {:induction false} NothingRetractable(w: Work, targets: seq<Path>)
    requires forall p :: p in targets ==> !Retractable(View(w, p))
    ensures Prepared(w, targets) == w.(conflicts := w.conflicts + targets)
  {
    if targets == [] {
      assert w.conflicts + targets == w.conflicts;
    } else {
      var init := targets[..|targets| - 1];
      assert targets == init + [targets[|targets| - 1]];
      NothingRetractable(w, init);
      assert View(Prepared(w, init), targets[|targets| - 1]) == View(w, targets[|targets| - 1]);
      assert w.conflicts + targets == w.conflicts + init + [targets[|targets| - 1]];
    }
  }

  /** An overlay entry already taken: recorded, and either installed or refused with its copy saved. */
  ghost predicate Settled(w: Work, device: Device, f: LiveFile) {
    IsGenerated(f.path) ||
    (var c := View(w, f.path);
     && c.baseline == Some(DigestOf(f.next))
     && (DigestOf(c.current) == DigestOf(f.next)
         || (!Safe(c, f) && Get(w.saved, (device, f.path)) == Some(f.next))))
  }

  lemma {:induction false} NothingToApply(w: Work, device: Device, files: seq<LiveFile>)
    requires forall f :: f in files ==> Settled(w, device, f)
    ensures Applied(w, device, files) == w.(conflicts := Applied(w, device, files).conflicts)
  {
    if files != [] {
      var init, last := files[..|files| - 1], files[|files| - 1];
      assert files == init + [last];
      NothingToApply(w, device, init);
      assert last in files;
      var t := Applied(w, device, init);
      assert View(t, last.path) == View(w, last.path);
      if !IsGenerated(last.path) {
        assert t.baselines[last.path := DigestOf(last.next)] == t.baselines;
        assert Get(w.saved, (device, last.path)) == Some(last.next) ==>
               t.saved[(device, last.path) := last.next] == t.saved;
      }
    }
  }

  lemma SettlesOne(w: Work, device: Device, f: LiveFile)
    ensures Settled(ApplyOne(w, device, f), device, f)
  {
    ApplyOneView(w, device, f, f.path);
  }

  lemma StaysSettled(w: Work, device: Device, f: LiveFile, other: LiveFile)
    requires Settled(w, device, f) && f.path != other.path
    ensures Settled(ApplyOne(w, device, other), device, f)
  {
    ApplyOneView(w, device, other, f.path);
  }

  lemma {:induction false} AppliedSettles(w: Work, device: Device, files: seq<LiveFile>)
    requires DistinctPaths(files)
    ensures forall f :: f in files ==> Settled(Applied(w, device, files), device, f)
  {
    if files != [] {
      var init, last := files[..|files| - 1], files[|files| - 1];
      AppliedSettles(w, device, init);
      SettlesOne(Applied(w, device, init), device, last);
      forall i | 0 <= i < |init| ensures Settled(Applied(w, device, files), device, files[i]) {
        assert init[i] in init;
        StaysSettled(Applied(w, device, init), device, files[i], last);
      }
    }
  }

  ghost predicate PrivateSettled(w: Work, device: Device, f: PrivateFile) {
    var c := View(w, f.path);
    && c.baseline == Some(DigestOf(f.next))
    && (DigestOf(c.current) == DigestOf(f.next)
        || (!PrivateSafe(c, f) && Get(w.saved, (device, f.path)) == Some(f.next)))
  }

  lemma {:induction false} NothingToApplyPrivate(w: Work, device: Device, files: seq<PrivateFile>)
    requires forall f :: f in files ==> PrivateSettled(w, device, f)
    ensures PrivateApplied(w, device, files) == w.(conflicts := PrivateApplied(w, device, files).conflicts)
  {
    if files != [] {
      var init, last := files[..|files| - 1], files[|files| - 1];
      assert files == init + [last];
      NothingToApplyPrivate(w, device, init);
      assert last in files;
      var t := PrivateApplied(w, device, init);
      assert View(t, last.path) == View(w, last.path);
      assert t.baselines[last.path := DigestOf(last.next)] == t.baselines;
      assert Get(w.saved, (device, last.path)) == Some(last.next) ==>
             t.saved[(device, last.path) := last.next] == t.saved;
    }
  }

  lemma {:induction false} PrivateAppliedSettles(w: Work, device: Device, files: seq<PrivateFile>)
    requires DistinctPrivate(files)
    ensures forall f :: f in files ==> PrivateSettled(PrivateApplied(w, device, files), device, f)
  {
    if files != [] {
      var init, last := files[..|files| - 1], files[|files| - 1];
      assert files == init + [last];
      PrivateAppliedSettles(w, device, init);
      var t, u := PrivateApplied(w, device, init), PrivateApplied(w, device, files);
      forall f | f in files ensures PrivateSettled(u, device, f) {
        ApplyPrivateOneView(t, device, last, f.path);
        assert f != last ==> f in init && f.path != last.path;
      }
    }
  }

  lemma {:induction false} OwnedAreRecorded(baselines: Baselines, live: seq<LiveFile>, owned: set<Path>)
    requires DistinctPaths(live)
    ensures forall f :: f in live && f.path in owned ==>
              Get(WithOwned(baselines, live, owned), f.path) == Some(DigestOf(f.next))
  {
    if live != [] {
      assert live == live[..|live| - 1] + [live[|live| - 1]];
      OwnedAreRecorded(baselines, live[..|live| - 1], owned);
    }
  }

  lemma {:induction false} RecordedOwnedChangeNothing(baselines: Baselines, live: seq<LiveFile>, owned: set<Path>)
    requires forall f :: f in live && f.path in owned ==> Get(baselines, f.path) == Some(DigestOf(f.next))
    ensures WithOwned(baselines, live, owned) == baselines
  {
    if live != [] {
      assert live == live[..|live| - 1] + [live[|live| - 1]];
      RecordedOwnedChangeNothing(baselines, live[..|live| - 1], owned);
      var last := live[|live| - 1];
      assert last in live;
      assert last.path in owned ==> baselines[last.path := DigestOf(last.next)] == baselines;
    }
  }

  // ---------------------------------------------------------------- ownership

  /** Retraction and the overlay leave an owned path's file and recorded baseline alone. */
  lemma OwnedPathsUntouched(l: Local, device: Device, m: Snapshot, owned: set<Path>, p: Path)
    requires WellFormed(m) && p in owned
    ensures Get(AfterPrepare(l, device, m, owned).repo.tree, p) == Get(l.repo.tree, p)
    ensures Get(AfterLive(l, device, m, owned).repo.tree, p) == Get(AfterPrivate(l, device, m, owned).repo.tree, p)
    ensures Get(AfterLive(l, device, m, owned).baselines, p) ==
              Get(WithOwned(BaselinesFor(l, device), m.live, owned), p)
  {
    var live := NotOwned(m.live, owned);
    NotOwnedFiles(m.live, owned);
    var w := PreparedFrom(l, device, m, owned);
    var targets := PreparedTargets(l, device, m, owned);
    PreparedView(w, targets, p);
    var prepared := AfterPrepare(l, device, m, owned);
    assert View(prepared, p) == View(w, p);
    var start := LiveFrom(l, device, m, owned);
    AppliedView(start, device, live, p);
    FileAtIffIn(live, p);
    assert View(AfterLive(l, device, m, owned), p) == View(start, p);
    assert View(start, p).baseline == View(prepared, p).baseline;
  }

  // ---------------------------------------------------------------- importing twice

  /** No path of the snapshot is both a private file and part of the live overlay. */
  ghost predicate KindsApart(l: Local, device: Device, m: Snapshot) {
    forall f :: f in m.files ==> f.path !in LivePaths(m.live) && f.path !in BaselinesFor(l, device)
  }

  lemma PreparedFacts(l: Local, device: Device, m: Snapshot, owned: set<Path>, p: Path)
    requires WellFormed(m)
    ensures var w := AfterPrepare(l, device, m, owned);
            && SameRefs(l.repo, w.repo)
            && (p in w.baselines ==> p in BaselinesFor(l, device) || p in LivePaths(m.live))
            && (p in w.baselines && p !in owned && p !in LivePaths(m.live) ==> !Retractable(View(w, p)))
  {
    var live := NotOwned(m.live, owned);
    NotOwnedFiles(m.live, owned);
    var w := PreparedFrom(l, device, m, owned);
    var targets := PreparedTargets(l, device, m, owned);
    PreparedView(w, targets, p);
    assert View(AfterPrepare(l, device, m, owned), p).baseline == Get(AfterPrepare(l, device, m, owned).baselines, p);
    OwnedKeys(BaselinesFor(l, device), m.live, owned, p);
  }

  lemma {:induction false} OwnedKeys(baselines: Baselines, live: seq<LiveFile>, owned: set<Path>, p: Path)
    ensures p in WithOwned(baselines, live, owned) ==> p in baselines || p in LivePaths(live)
  {
    if live != [] {
      assert live == live[..|live| - 1] + [live[|live| - 1]];
      OwnedKeys(baselines, live[..|live| - 1], owned, p);
    }
  }

  /** Private files leave every other path, and everything but the tree and the excludes, as they were. */
  lemma PrivateFrame(l: Local, device: Device, m: Snapshot, owned: set<Path>, p: Path)
    requires WellFormed(m)
    ensures var g := AfterBundle(l, device, m, owned).repo;
            var r := AfterPrivate(l, device, m, owned).repo;
            && r == g.(tree := r.tree, ignored := r.ignored)
            && ((forall f :: f in m.files ==> f.path != p) ==> Get(r.tree, p) == Get(g.tree, p))
            && (forall f :: f in Active(m.files, l.untracked) ==> f.path in r.ignored)
  {
    var active := Active(m.files, l.untracked);
    ActiveFiles(m.files, l.untracked);
    var w := PrivateFrom(l, device, m, owned);
    PrivateAppliedView(w, device, active, p);
    PrivateAtIffIn(active, p);
    assert View(w, p).current == Get(AfterBundle(l, device, m, owned).repo.tree, p);
    assert View(PrivateApplied(w, device, active), p).current == Get(AfterPrivate(l, device, m, owned).repo.tree, p);
  }

  lemma SettledRepoStaysSettled(r: Repo, r': Repo, device: Device, m: Snapshot)
    requires RefsSettled(r, device, m) && r'.branches == r.branches && r'.tags == r.tags
    requires r'.remoteHeads == r.remoteHeads
    ensures RefsSettled(r', device, m)
  {}

  lemma LiveLeaves(l: Local, device: Device, m: Snapshot, owned: set<Path>, p: Path)
    requires WellFormed(m) && p !in LivePaths(m.live)
    ensures View(AfterLive(l, device, m, owned), p) == View(LiveFrom(l, device, m, owned), p)
    ensures Get(AfterLive(l, device, m, owned).baselines, p) == Get(AfterPrepare(l, device, m, owned).baselines, p)
  {
    var live := NotOwned(m.live, owned);
    NotOwnedFiles(m.live, owned);
    AppliedView(LiveFrom(l, device, m, owned), device, live, p);
    FileAtIffIn(live, p);
    assert View(LiveFrom(l, device, m, owned), p).baseline == Get(LiveFrom(l, device, m, owned).baselines, p);
  }

  /** A settled bundle, and private files that do not list the path, leave what retraction left. */
  lemma SettledLeaves(l: Local, device: Device, m: Snapshot, owned: set<Path>, p: Path)
    requires WellFormed(m) && RefsSettled(l.repo, device, m) && forall f :: f in m.files ==> f.path != p
    ensures View(LiveFrom(l, device, m, owned), p) == View(AfterPrepare(l, device, m, owned), p)
  {
    SettledAfterwards(l, device, m, owned);
    PrivateFrame(l, device, m, owned, p);
    SameView(AfterPrepare(l, device, m, owned), LiveFrom(l, device, m, owned), p);
  }

  lemma SameView(w: Work, w': Work, p: Path)
    requires w'.repo == w.repo.(tree := w'.repo.tree, ignored := w'.repo.ignored) && w'.baselines == w.baselines
    requires Get(w'.repo.tree, p) == Get(w.repo.tree, p)
    ensures View(w', p) == View(w, p)
  {
    assert HeadTree(w'.repo) == HeadTree(w.repo);
  }

  /** After one import, each remaining baseline is refused, installed, or not retractable. */
  lemma RemainingBaselines(l: Local, device: Device, m: Snapshot, owned: set<Path>, p: Path)
    requires WellFormed(m) && KindsApart(l, device, m) && RefsSettled(l.repo, device, m)
    requires p !in owned && p !in LivePaths(m.live)
    ensures var w := AfterLive(l, device, m, owned);
            p in w.baselines ==> !Retractable(View(w, p))
  {
    PreparedFacts(l, device, m, owned, p);
    LiveLeaves(l, device, m, owned, p);
    if p in AfterLive(l, device, m, owned).baselines { SettledLeaves(l, device, m, owned, p); }
  }

  lemma LiveFrame(l: Local, device: Device, m: Snapshot, owned: set<Path>, p: Path)
    requires WellFormed(m)
    ensures SameRefs(AfterPrivate(l, device, m, owned).repo, AfterLive(l, device, m, owned).repo)
    ensures p !in LivePaths(m.live) ==>
      Get(AfterLive(l, device, m, owned).repo.tree, p) == Get(AfterPrivate(l, device, m, owned).repo.tree, p)
  {
    var live := NotOwned(m.live, owned);
    NotOwnedFiles(m.live, owned);
    var start := LiveFrom(l, device, m, owned);
    AppliedView(start, device, live, p);
    FileAtIffIn(live, p);
    assert View(start, p).current == Get(AfterPrivate(l, device, m, owned).repo.tree, p);
    assert View(AfterLive(l, device, m, owned), p).current == Get(AfterLive(l, device, m, owned).repo.tree, p);
  }

  lemma LiveOrOwned(live: seq<LiveFile>, owned: set<Path>, p: Path)
    requires p !in LivePaths(NotOwned(live, owned)) && p !in owned
    ensures p !in LivePaths(live)
  {
    NotOwnedFiles(live, owned);
    forall f | f in live ensures f.path != p { assert f.path !in owned ==> f in NotOwned(live, owned); }
  }

  /** The second retraction finds nothing to retract. */
  lemma SecondPrepare(l: Local, device: Device, m: Snapshot, owned: set<Path>)
    requires WellFormed(m) && KindsApart(l, device, m) && RefsSettled(l.repo, device, m)
    ensures var w := AfterLive(l, device, m, owned);
            var again := AfterPrepare(Imported(l, device, m, owned), device, m, owned);
            again.(changed := [], conflicts := []) == w.(changed := [], conflicts := [])
  {
    var w := AfterLive(l, device, m, owned);
    var l' := Imported(l, device, m, owned);
    var live := NotOwned(m.live, owned);
    NotOwnedFiles(m.live, owned);
    OwnedAreRecorded(BaselinesFor(l, device), m.live, owned);
    forall f | f in m.live && f.path in owned ensures Get(w.baselines, f.path) == Some(DigestOf(f.next)) {
      OwnedPathsUntouched(l, device, m, owned, f.path);
    }
    RecordedOwnedChangeNothing(w.baselines, m.live, owned);
    PreparedFacts(l, device, m, owned, "");
    SettledRepoStaysSettled(l.repo, AfterPrepare(l, device, m, owned).repo, device, m);
    SettledBundle(AfterPrepare(l, device, m, owned).repo, device, m);
    var targets := Targets(w.baselines, LivePaths(live), false, owned);
    var start := Work(w.repo, w.baselines, w.trash, w.saved, [], []);
    forall p | p in targets ensures !Retractable(View(start, p)) {
      assert View(start, p) == View(w, p);
      assert p !in LivePaths(m.live) by { LiveOrOwned(m.live, owned, p); }
      RemainingBaselines(l, device, m, owned, p);
    }
    NothingRetractable(start, targets);
    assert Get(l'.importedRefs, device) == Some(RefsDigestOf(m));
    assert BaselinesFor(l', device) == w.baselines;
  }

  /** The second pass over the private files finds them all taken or refused. */
  lemma SecondPrivate(l: Local, device: Device, m: Snapshot, owned: set<Path>)
    requires WellFormed(m) && KindsApart(l, device, m)
    ensures var first := AfterPrivate(l, device, m, owned);
            var r := AfterLive(l, device, m, owned).repo;
            var w := Work(r, first.baselines, [], first.saved, [], []);
            PrivateImported(w, device, m.files, l.untracked).(changed := [], conflicts := []) == w
  {
    var first := AfterPrivate(l, device, m, owned);
    var r := AfterLive(l, device, m, owned).repo;
    var active := Active(m.files, l.untracked);
    ActiveFiles(m.files, l.untracked);
    PrivateFrame(l, device, m, owned, "");
    LiveFrame(l, device, m, owned, "");
    assert WithExcludes(r, active) == r by { assert r.ignored + (set f | f in active :: f.path) == r.ignored; }
    var begin := PrivateFrom(l, device, m, owned);
    PrivateAppliedSettles(begin, device, active);
    var w := Work(r, first.baselines, [], first.saved, [], []);
    forall f | f in active ensures PrivateSettled(w, device, f) {
      LiveFrame(l, device, m, owned, f.path);
      assert f in m.files && f.path !in LivePaths(m.live);
      assert PrivateSettled(first, device, f);
      assert View(w, f.path).baseline == View(first, f.path).baseline
             && View(w, f.path).current == View(first, f.path).current;
    }
    NothingToApplyPrivate(w, device, active);
    PrivateTrashFree(w, device, active);
  }

  lemma {:induction false} PrivateTrashFree(w: Work, device: Device, files: seq<PrivateFile>)
    ensures PrivateApplied(w, device, files).trash == w.trash
  {
    if files != [] { PrivateTrashFree(w, device, files[..|files| - 1]); }
  }

  lemma SettledAfterwards(l: Local, device: Device, m: Snapshot, owned: set<Path>)
    requires WellFormed(m) && RefsSettled(l.repo, device, m)
    ensures AfterBundle(l, device, m, owned) == Import(AfterPrepare(l, device, m, owned).repo, [], [])
    ensures RefsSettled(Imported(l, device, m, owned).repo, device, m)
  {
    var prepared := AfterPrepare(l, device, m, owned).repo;
    PreparedFacts(l, device, m, owned, "");
    SettledRepoStaysSettled(l.repo, prepared, device, m);
    SettledBundle(prepared, device, m);
    PrivateFrame(l, device, m, owned, "");
    LiveFrame(l, device, m, owned, "");
    SettledRepoStaysSettled(l.repo, Imported(l, device, m, owned).repo, device, m);
  }

  /** The second pass over the overlay finds every entry taken or refused. */
  lemma SecondLive(l: Local, device: Device, m: Snapshot, owned: set<Path>)
    requires WellFormed(m)
    ensures var w := AfterLive(l, device, m, owned).(changed := [], conflicts := []);
            Applied(w, device, NotOwned(m.live, owned)).(conflicts := []) == w
  {
    var live := NotOwned(m.live, owned);
    NotOwnedFiles(m.live, owned);
    var start := LiveFrom(l, device, m, owned);
    AppliedSettles(start, device, live);
    var w := AfterLive(l, device, m, owned);
    var again := w.(changed := [], conflicts := []);
    forall f | f in live ensures Settled(again, device, f) { assert View(again, f.path) == View(w, f.path); }
    NothingToApply(again, device, live);
  }

  lemma SecondImportWork(l: Local, device: Device, m: Snapshot, owned: set<Path>)
    requires WellFormed(m) && KindsApart(l, device, m) && RefsSettled(l.repo, device, m)
    ensures var once := Imported(l, device, m, owned);
            && AfterBundle(once, device, m, owned) == Import(once.repo, [], [])
            && AfterPrivate(once, device, m, owned).(changed := [], conflicts := [])
                 == Work(once.repo, once.fileBaselines, [], once.savedPrivate, [], [])
            && AfterLive(once, device, m, owned).(changed := [], conflicts := [])
                 == AfterLive(l, device, m, owned).(changed := [], conflicts := [])
  {
    var once := Imported(l, device, m, owned);
    SecondPrepare(l, device, m, owned);
    SettledAfterwards(l, device, m, owned);
    SettledBundle(once.repo, device, m);
    assert AfterPrepare(once, device, m, owned).repo == once.repo;
    SecondPrivate(l, device, m, owned);
    SecondLive(l, device, m, owned);
  }

  lemma RecordedTwice(l: Local, device: Device, m: Snapshot, private: Work, live: Work, private': Work, live': Work)
    requires var once := Recorded(l, device, m, [], private, live);
             && private'.(changed := [], conflicts := []) ==
                  Work(once.repo, once.fileBaselines, [], once.savedPrivate, [], [])
             && live'.(changed := [], conflicts := []) == live.(changed := [], conflicts := [])
    ensures var once := Recorded(l, device, m, [], private, live);
            Recorded(once, device, m, [], private', live') == once
  {
    var once := Recorded(l, device, m, [], private, live);
    var twice := Recorded(once, device, m, [], private', live');
    assert live'.repo == live.repo && live'.trash == live.trash && live'.saved == live.saved
           && live'.baselines == live.baselines;
    assert private'.baselines == private.baselines && private'.saved == private.saved;
    assert twice.liveBaselines == once.liveBaselines;
    assert twice.imported == once.imported;
    assert twice.importedRefs == once.importedRefs;
  }

  /** Importing the same snapshot again, with its refs already here, changes nothing at all. */
  lemma ImportIsIdempotent(l: Local, device: Device, m: Snapshot, owned: set<Path>)
    requires WellFormed(m) && KindsApart(l, device, m) && RefsSettled(l.repo, device, m)
    ensures var once := Imported(l, device, m, owned);
            Imported(once, device, m, owned) == once
  {
    var once := Imported(l, device, m, owned);
    SettledAfterwards(l, device, m, owned);
    SecondImportWork(l, device, m, owned);
    RecordedTwice(l, device, m, AfterPrivate(l, device, m, owned), AfterLive(l, device, m, owned),
                  AfterPrivate(once, device, m, owned), AfterLive(once, device, m, owned));
  }
}
