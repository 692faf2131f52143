/**
 * A snapshot published anew under another id, its content the same, after an import that refused no branch
 * (src/protocol.js:563, 602-659): importing it leaves the repository, the trash and the saved copies alone and can only
 * forget baselines; importing it once more changes nothing. The same id is not imported again at all.
 */
module Reimport {
  import opened Basics
  import opened Git
  import opened History
  import opened Checkout
  import opened Workspace
  import opened Sync
  import opened Cells
  import opened LocalEdits
  import opened Idempotence

  // ---------------------------------------------------------------- an import without refusals settles its refs

  ghost predicate BranchSettled(branches: map<Name, Commit>, ref: Ref) {
    ref.name in branches && (branches[ref.name] == ref.oid || IsAncestor(ref.oid, branches[ref.name]))
  }

  lemma BranchSettles(s: Import, clean: bool, ref: Ref)
    requires ImportBranch(s, clean, ref).conflicts == []
    ensures s.conflicts == [] && BranchSettled(ImportBranch(s, clean, ref).repo.branches, ref)
    ensures forall other: Ref :: other.name != ref.name && BranchSettled(s.repo.branches, other) ==>
              BranchSettled(ImportBranch(s, clean, ref).repo.branches, other)
  {}

  lemma {:induction false} BranchesSettle(s: Import, clean: bool, refs: seq<Ref>)
    requires Distinct(Names(refs)) && ImportBranches(s, clean, refs).conflicts == []
    ensures forall ref :: ref in refs ==> BranchSettled(ImportBranches(s, clean, refs).repo.branches, ref)
  {
    if refs != [] {
      var init, last := refs[..|refs| - 1], refs[|refs| - 1];
      assert refs == init + [last];
      BranchSettles(ImportBranches(s, clean, init), clean, last);
      assert Distinct(Names(init)) by {
        forall i, j | 0 <= i < j < |init| ensures Names(init)[i] != Names(init)[j] {
          assert Names(refs)[i] != Names(refs)[j];
        }
      }
      BranchesSettle(s, clean, init);
      forall ref | ref in init ensures ref.name != last.name {
        var i :| 0 <= i < |init| && init[i] == ref;
        assert Names(refs)[i] != Names(refs)[|init|];
      }
    }
  }

  lemma {:induction false} TagsSettle(s: Import, refs: seq<Ref>)
    ensures forall ref :: ref in refs ==> ref.name in ImportTags(s, refs).repo.tags
  {
    if refs != [] {
      assert refs == refs[..|refs| - 1] + [refs[|refs| - 1]];
      TagsSettle(s, refs[..|refs| - 1]);
    }
  }

  lemma {:induction false} FetchedAt(remotes: map<(Device, Name), Commit>, device: Device, refs: seq<Ref>,
                                     key: (Device, Name))
    ensures Get(Fetch(remotes, device, refs), key) ==
              if key.0 == device && Stated(refs, key.1).Some? then Stated(refs, key.1) else Get(remotes, key)
  {
    if refs != [] { FetchedAt(remotes, device, refs[..|refs| - 1], key); }
  }

  lemma FetchedTwice(remotes: map<(Device, Name), Commit>, device: Device, refs: seq<Ref>)
    ensures Fetch(Fetch(remotes, device, refs), device, refs) == Fetch(remotes, device, refs)
  {
    var once := Fetch(remotes, device, refs);
    forall key ensures Get(Fetch(once, device, refs), key) == Get(once, key) {
      FetchedAt(remotes, device, refs, key);
      FetchedAt(once, device, refs, key);
    }
    SameLookups(Fetch(once, device, refs), once);
  }

  lemma BundleSettles(r: Repo, device: Device, m: Snapshot)
    requires WellFormed(m) && BundleImported(r, device, m.heads, m.tags).conflicts == []
    ensures RefsSettled(BundleImported(r, device, m.heads, m.tags).repo, device, m)
  {
    FetchedTwice(r.remoteHeads, device, m.heads);
    if m.heads != [] || m.tags != [] {
      var clean := r.bare || IsClean(r);
      var s := Import(r.(remoteHeads := Fetch(r.remoteHeads, device, m.heads)), [], []);
      var moved := ImportBranches(s, clean, m.heads);
      BranchesFrame(s, clean, m.heads);
      TagsFrame(moved, m.tags);
      BranchesSettle(s, clean, m.heads);
      TagsSettle(moved, m.tags);
      assert forall ref :: ref in m.heads ==> BranchSettled(moved.repo.branches, ref);
    }
  }

  /** The import reported no refused branch. */
  predicate Unrefused(l: Local, device: Device, m: Snapshot, owned: set<Path>) {
    AfterBundle(l, device, m, owned).conflicts == []
  }

  lemma OnceSettled(l: Local, device: Device, m: Snapshot, owned: set<Path>)
    requires WellFormed(m) && Unrefused(l, device, m, owned)
    ensures RefsSettled(Imported(l, device, m, owned).repo, device, m)
  {
    BundleSettles(AfterPrepare(l, device, m, owned).repo, device, m);
    PrivateFrame(l, device, m, owned, "");
    LiveFrame(l, device, m, owned, "");
    SettledRepoStaysSettled(AfterBundle(l, device, m, owned).repo, Imported(l, device, m, owned).repo, device, m);
  }

  // ---------------------------------------------------------------- what is left to retract

  /** Retraction of this path, if it happens, changes no file. */
  predicate Harmless(c: Cell) {
    Retractable(c) ==> DigestOf(c.current) == DigestOf(c.head)
  }

  /** A cell that could not be retracted before a checkout changes no file when retracted after it. */
  lemma HarmlessAfterBundle(l: Local, device: Device, m: Snapshot, owned: set<Path>, p: Path)
    requires WellFormed(m) && !l.repo.bare && !Retractable(View(AfterPrepare(l, device, m, owned), p))
    ensures Harmless(View(AfterPrepare(l, device, m, owned).(repo := AfterBundle(l, device, m, owned).repo), p))
  {
    var w := AfterPrepare(l, device, m, owned);
    PreparedFacts(l, device, m, owned, p);
    TreeAfterBundle(w.repo, device, m.heads, m.tags);
    var g := AfterBundle(l, device, m, owned).repo;
    if !IsClean(w.repo) { assert View(w.(repo := g), p) == View(w, p); }
  }

  lemma RemainingAreHarmless(l: Local, device: Device, m: Snapshot, owned: set<Path>, p: Path)
    requires WellFormed(m) && KindsApart(l, device, m) && !l.repo.bare
    requires p !in owned && p !in LivePaths(m.live) && p in AfterLive(l, device, m, owned).baselines
    ensures Harmless(View(AfterLive(l, device, m, owned), p)) && p in BaselinesFor(l, device)
  {
    var live, prepared := NotOwned(m.live, owned), AfterPrepare(l, device, m, owned);
    NotOwnedFiles(m.live, owned);
    PreparedFacts(l, device, m, owned, p);
    PrivateFrame(l, device, m, owned, p);
    var start := LiveFrom(l, device, m, owned);
    AppliedView(start, device, live, p);
    FileAtIffIn(live, p);
    assert View(AfterLive(l, device, m, owned), p) == View(start, p);
    assert Get(AfterLive(l, device, m, owned).baselines, p) == Get(start.baselines, p);
    HarmlessAfterBundle(l, device, m, owned, p);
    assert View(start, p) == View(prepared.(repo := AfterBundle(l, device, m, owned).repo), p);
  }

  lemma {:induction false} OnlyBaselinesDropped(w: Work, targets: seq<Path>)
    requires Distinct(targets) && forall p :: p in targets ==> Harmless(View(w, p))
    ensures var w' := Prepared(w, targets);
            && w'.repo == w.repo && w'.trash == w.trash && w'.saved == w.saved
            && (forall p :: p !in targets ==> Get(w'.baselines, p) == Get(w.baselines, p))
            && w'.baselines.Keys <= w.baselines.Keys
  {
    if targets != [] {
      var init, last := targets[..|targets| - 1], targets[|targets| - 1];
      assert targets == init + [last];
      LastOfDistinct(targets);
      OnlyBaselinesDropped(w, init);
      PreparedView(w, init, last);
    }
  }

  /** The second retraction changes no file: it forgets baselines of paths the snapshot does not state. */
  lemma SecondRetraction(l: Local, device: Device, m: Snapshot, owned: set<Path>)
    requires WellFormed(m) && KindsApart(l, device, m) && !l.repo.bare && Unrefused(l, device, m, owned)
    ensures var once := Imported(l, device, m, owned);
            var again := AfterPrepare(once, device, m, owned);
            && again.repo == once.repo && again.trash == once.trash && again.saved == once.saved
            && (forall f :: f in NotOwned(m.live, owned) ==>
                  Get(again.baselines, f.path) == Get(AfterLive(l, device, m, owned).baselines, f.path))
  {
    var once, w := Imported(l, device, m, owned), AfterLive(l, device, m, owned);
    NotOwnedFiles(m.live, owned);
    OwnedAreRecorded(BaselinesFor(l, device), m.live, owned);
    forall f | f in m.live && f.path in owned ensures Get(w.baselines, f.path) == Some(DigestOf(f.next)) {
      OwnedPathsUntouched(l, device, m, owned, f.path);
    }
    RecordedOwnedChangeNothing(w.baselines, m.live, owned);
    assert BaselinesFor(once, device) == w.baselines;
    assert Get(once.importedRefs, device) == Some(RefsDigestOf(m));
    var start, targets := PreparedFrom(once, device, m, owned), PreparedTargets(once, device, m, owned);
    forall p | p in targets ensures Harmless(View(start, p)) {
      LiveOrOwned(m.live, owned, p);
      RemainingAreHarmless(l, device, m, owned, p);
      assert View(start, p) == View(w, p);
    }
    OnlyBaselinesDropped(start, targets);
    forall f | f in NotOwned(m.live, owned) ensures f.path !in targets {}
  }

  // ---------------------------------------------------------------- the second import

  lemma SecondOverlay(l: Local, device: Device, m: Snapshot, owned: set<Path>, again: Work)
    requires WellFormed(m)
    requires var w := AfterLive(l, device, m, owned);
             && again.repo == w.repo && again.trash == w.trash && again.saved == w.saved
             && forall f :: f in NotOwned(m.live, owned) ==> Get(again.baselines, f.path) == Get(w.baselines, f.path)
    ensures var twice := Applied(again, device, NotOwned(m.live, owned));
            twice.repo == again.repo && twice.trash == again.trash && twice.saved == again.saved
            && twice.baselines == again.baselines
  {
    var live, w := NotOwned(m.live, owned), AfterLive(l, device, m, owned);
    NotOwnedFiles(m.live, owned);
    AppliedSettles(LiveFrom(l, device, m, owned), device, live);
    forall f | f in live ensures Settled(again, device, f) { assert View(again, f.path) == View(w, f.path); }
    NothingToApply(again, device, live);
  }

  lemma SecondPrivateLeaves(l: Local, device: Device, m: Snapshot, owned: set<Path>)
    requires WellFormed(m) && KindsApart(l, device, m) && !l.repo.bare && Unrefused(l, device, m, owned)
    ensures var once := Imported(l, device, m, owned);
            && AfterBundle(once, device, m, owned) == Import(once.repo, [], [])
            && AfterPrivate(once, device, m, owned).(changed := [], conflicts := []) ==
                 Work(once.repo, once.fileBaselines, [], once.savedPrivate, [], [])
  {
    SecondRetraction(l, device, m, owned);
    OnceSettled(l, device, m, owned);
    SettledBundle(Imported(l, device, m, owned).repo, device, m);
    SecondPrivate(l, device, m, owned);
  }

  lemma SecondLiveLeaves(l: Local, device: Device, m: Snapshot, owned: set<Path>)
    requires WellFormed(m) && KindsApart(l, device, m) && !l.repo.bare && Unrefused(l, device, m, owned)
    ensures var once := Imported(l, device, m, owned);
            var w := AfterLive(once, device, m, owned);
            w.repo == once.repo && w.trash == once.trash && w.saved == once.saved
  {
    SecondRetraction(l, device, m, owned);
    SecondPrivateLeaves(l, device, m, owned);
    SecondOverlay(l, device, m, owned, LiveFrom(Imported(l, device, m, owned), device, m, owned));
  }

  /** A record of nothing but what was recorded before. */
  lemma RecordedSame(l: Local, device: Device, m: Snapshot, private: Work, live: Work)
    requires Get(l.imported, device) == Some(m.id) && Get(l.importedRefs, device) == Some(RefsDigestOf(m))
    requires private.(changed := [], conflicts := []) == Work(l.repo, l.fileBaselines, [], l.savedPrivate, [], [])
    requires live.repo == l.repo && live.trash == l.trash && live.saved == l.saved
    ensures var l' := Recorded(l, device, m, [], private, live); l' == l.(liveBaselines := l'.liveBaselines)
  {
    assert l.imported[device := m.id] == l.imported;
    assert l.importedRefs[device := RefsDigestOf(m)] == l.importedRefs;
    assert private.baselines == l.fileBaselines && private.saved == l.savedPrivate;
  }

  lemma AgainLeavesFiles(l: Local, device: Device, m: Snapshot, owned: set<Path>)
    requires WellFormed(m) && KindsApart(l, device, m) && !l.repo.bare && Unrefused(l, device, m, owned)
    ensures var once := Imported(l, device, m, owned);
            Imported(once, device, m, owned) == once.(liveBaselines := Imported(once, device, m, owned).liveBaselines)
  {
    var once := Imported(l, device, m, owned);
    SecondPrivateLeaves(l, device, m, owned);
    SecondLiveLeaves(l, device, m, owned);
    RecordedSame(once, device, m, AfterPrivate(once, device, m, owned), AfterLive(once, device, m, owned));
  }

  lemma OnceApart(l: Local, device: Device, m: Snapshot, owned: set<Path>)
    requires WellFormed(m) && KindsApart(l, device, m)
    ensures KindsApart(Imported(l, device, m, owned), device, m)
  {
    NotOwnedFiles(m.live, owned);
    forall f | f in m.files ensures f.path !in AfterLive(l, device, m, owned).baselines {
      PreparedFacts(l, device, m, owned, f.path);
      AppliedView(LiveFrom(l, device, m, owned), device, NotOwned(m.live, owned), f.path);
      FileAtIffIn(NotOwned(m.live, owned), f.path);
      assert View(AfterLive(l, device, m, owned), f.path).baseline ==
             Get(AfterLive(l, device, m, owned).baselines, f.path);
      assert View(LiveFrom(l, device, m, owned), f.path).baseline ==
             Get(AfterPrepare(l, device, m, owned).baselines, f.path);
    }
  }

  /** An id is recorded and has no other effect. */
  lemma IdIsOnlyRecorded(l: Local, device: Device, m: Snapshot, owned: set<Path>, k: nat)
    ensures var other, l' := Imported(l, device, m.(id := k), owned), Imported(l, device, m, owned);
            && other == l'.(imported := other.imported)
            && (Unrefused(l, device, m, owned) ==> other.imported == l.imported[device := k])
    ensures Unrefused(l, device, m.(id := k), owned) <==> Unrefused(l, device, m, owned)
  {
    var other := m.(id := k);
    assert AfterPrepare(l, device, other, owned) == AfterPrepare(l, device, m, owned);
    assert AfterPrivate(l, device, other, owned) == AfterPrivate(l, device, m, owned);
    assert AfterLive(l, device, other, owned) == AfterLive(l, device, m, owned);
  }

  lemma AgainUnrefused(l: Local, device: Device, m: Snapshot, owned: set<Path>)
    requires WellFormed(m) && KindsApart(l, device, m) && !l.repo.bare && Unrefused(l, device, m, owned)
    ensures Unrefused(Imported(l, device, m, owned), device, m, owned)
  {
    SecondRetraction(l, device, m, owned);
    OnceSettled(l, device, m, owned);
    SettledBundle(Imported(l, device, m, owned).repo, device, m);
  }

  /** All that importing the content under another id can change is which baselines of the device are remembered. */
  lemma RepublishedLeavesFiles(l: Local, device: Device, m: Snapshot, owned: set<Path>, k: nat)
    requires WellFormed(m) && KindsApart(l, device, m) && !l.repo.bare && Unrefused(l, device, m, owned)
    requires !Skipped(l, device, m) && k != m.id
    ensures var once := Accepted(l, device, m, owned);
            var twice := Accepted(once, device, m.(id := k), owned);
            twice == once.(liveBaselines := twice.liveBaselines, imported := once.imported[device := k])
  {
    AgainLeavesFiles(l, device, m, owned);
    AgainUnrefused(l, device, m, owned);
    IdIsOnlyRecorded(Imported(l, device, m, owned), device, m, owned, k);
  }

  lemma AgainRepeats(l: Local, device: Device, m: Snapshot, owned: set<Path>, k: nat)
    requires WellFormed(m) && KindsApart(l, device, m) && RefsSettled(l.repo, device, m)
    ensures var twice := Imported(l, device, m, owned);
            Imported(twice, device, m.(id := k), owned) == twice.(imported := twice.imported[device := k])
  {
    ImportIsIdempotent(l, device, m, owned);
    RepeatedUnrefused(l, device, m, owned);
    IdIsOnlyRecorded(Imported(l, device, m, owned), device, m, owned, k);
  }

  /** And under a third not even those. */
  lemma ThirdChangesNothing(l: Local, device: Device, m: Snapshot, owned: set<Path>, k: nat, j: nat)
    requires WellFormed(m) && KindsApart(l, device, m) && !l.repo.bare && Unrefused(l, device, m, owned)
    requires !Skipped(l, device, m) && k != m.id && j != k
    ensures var twice := Accepted(Accepted(l, device, m, owned), device, m.(id := k), owned);
            Accepted(twice, device, m.(id := j), owned) == twice.(imported := twice.imported[device := j])
  {
    var once := Imported(l, device, m, owned);
    OnceSettled(l, device, m, owned);
    OnceApart(l, device, m, owned);
    AgainUnrefused(l, device, m, owned);
    IdIsOnlyRecorded(once, device, m, owned, k);
    AgainRepeats(once, device, m.(id := k), owned, j);
  }

  lemma RepeatedUnrefused(l: Local, device: Device, m: Snapshot, owned: set<Path>)
    requires WellFormed(m) && KindsApart(l, device, m) && RefsSettled(l.repo, device, m)
    ensures Unrefused(Imported(l, device, m, owned), device, m, owned)
  {
    SecondImportWork(l, device, m, owned);
  }

  // ---------------------------------------------------------------- which baselines only the second import forgets

  /** The commit that will be checked out has at this path what the baseline says, and a checkout puts it there. */
  predicate Catches(r: Repo, heads: seq<Ref>, p: Path, baseline: Option<Digest>) {
    var tree := if CheckedOut(r, heads).Some? then CheckedOut(r, heads).value.tree else HeadTree(r);
    DigestOf(Get(tree, p)) == baseline && (p in tree || p in HeadTree(r))
  }

  /** What is refused by the first retraction: a remembered path that is edited or staged. */
  predicate HeldBack(l: Local, device: Device, m: Snapshot, owned: set<Path>, p: Path) {
    p in BaselinesFor(l, device) && !Retractable(View(PreparedFrom(l, device, m, owned), p))
  }

  lemma HeldBackStays(l: Local, device: Device, m: Snapshot, owned: set<Path>, p: Path)
    requires WellFormed(m) && p !in owned && p !in LivePaths(m.live)
    ensures var w := AfterPrepare(l, device, m, owned);
            && (p in w.baselines <==> HeldBack(l, device, m, owned, p))
            && (p in w.baselines ==>
                  && View(w, p) == View(PreparedFrom(l, device, m, owned), p)
                  && Get(w.baselines, p) == Get(BaselinesFor(l, device), p))
  {
    var w, targets := PreparedFrom(l, device, m, owned), PreparedTargets(l, device, m, owned);
    NotOwnedFiles(m.live, owned);
    UnownedBaseline(BaselinesFor(l, device), m.live, owned, p);
    PreparedView(w, targets, p);
    assert p in targets <==> p in w.baselines;
    assert View(AfterPrepare(l, device, m, owned), p).baseline == Get(AfterPrepare(l, device, m, owned).baselines, p);
  }

  /** The first checkout puts a held-back path where its baseline says exactly when the commit there does. */
  lemma CaughtByCheckout(r: Repo, device: Device, m: Snapshot, baselines: Baselines, p: Path)
    requires WellFormed(m) && !r.bare && p in baselines
    requires var c := View(Work(r, baselines, [], map[], [], []), p); !Retractable(c)
    ensures var g := BundleImported(r, device, m.heads, m.tags).repo;
            Retractable(View(Work(g, baselines, [], map[], [], []), p)) <==>
              IsClean(r) && Catches(r, m.heads, p, baselines[p])
  {
    TreeAfterBundle(r, device, m.heads, m.tags);
    if IsClean(r) { HeadTreeAfterBundle(r, device, m.heads, m.tags); }
  }

  /** What the second retraction sees at a held-back path is what the bundle left there. */
  lemma SecondView(l: Local, device: Device, m: Snapshot, owned: set<Path>, p: Path)
    requires WellFormed(m) && KindsApart(l, device, m)
    requires p !in owned && p !in LivePaths(m.live) && HeldBack(l, device, m, owned, p)
    ensures var baselines := AfterPrepare(l, device, m, owned).baselines;
            View(PreparedFrom(Imported(l, device, m, owned), device, m, owned), p) ==
            View(Work(AfterBundle(l, device, m, owned).repo, baselines, [], map[], [], []), p)
  {
    LiveLeaves(l, device, m, owned, p);
    PrivateFrame(l, device, m, owned, p);
    UnownedBaseline(BaselinesFor(Imported(l, device, m, owned), device), m.live, owned, p);
    LiveFrame(l, device, m, owned, p);
  }

  lemma BaselineOutlives(l: Local, device: Device, m: Snapshot, owned: set<Path>, p: Path)
    requires WellFormed(m) && p !in owned && p !in LivePaths(m.live)
    ensures p in BaselinesFor(Imported(l, device, m, owned), device) <==> HeldBack(l, device, m, owned, p)
    ensures HeldBack(l, device, m, owned, p) ==>
              Get(AfterPrepare(l, device, m, owned).baselines, p) == Get(BaselinesFor(l, device), p)
  {
    HeldBackStays(l, device, m, owned, p);
    LiveLeaves(l, device, m, owned, p);
  }

  lemma RetractedSecond(l: Local, device: Device, m: Snapshot, owned: set<Path>, p: Path)
    requires WellFormed(m) && KindsApart(l, device, m) && !l.repo.bare
    requires p !in owned && p !in LivePaths(m.live) && HeldBack(l, device, m, owned, p)
    ensures Retractable(View(PreparedFrom(Imported(l, device, m, owned), device, m, owned), p)) <==>
              && IsClean(AfterPrepare(l, device, m, owned).repo)
              && Catches(l.repo, m.heads, p, BaselinesFor(l, device)[p])
  {
    var w := AfterPrepare(l, device, m, owned);
    HeldBackStays(l, device, m, owned, p);
    PreparedFacts(l, device, m, owned, p);
    SecondView(l, device, m, owned, p);
    assert View(Work(w.repo, w.baselines, [], map[], [], []), p) == View(w, p);
    CaughtByCheckout(w.repo, device, m, w.baselines, p);
    assert w.baselines[p] == BaselinesFor(l, device)[p];
    CaughtAlike(l.repo, w.repo, m.heads, p, w.baselines[p]);
  }

  lemma CaughtAlike(r: Repo, r': Repo, heads: seq<Ref>, p: Path, baseline: Option<Digest>)
    requires SameRefs(r, r')
    ensures Catches(r, heads, p, baseline) <==> Catches(r', heads, p, baseline)
  {
    assert HeadTree(r) == HeadTree(r') && CheckedOut(r, heads) == CheckedOut(r', heads);
  }

  lemma ForgottenAgain(l: Local, device: Device, m: Snapshot, owned: set<Path>, p: Path)
    requires WellFormed(m) && KindsApart(l, device, m) && !l.repo.bare
    requires p !in owned && p !in LivePaths(m.live)
    ensures var once := Imported(l, device, m, owned);
            p in BaselinesFor(once, device) && p !in BaselinesFor(Imported(once, device, m, owned), device) <==>
              && HeldBack(l, device, m, owned, p) && IsClean(AfterPrepare(l, device, m, owned).repo)
              && Catches(l.repo, m.heads, p, BaselinesFor(l, device)[p])
  {
    BaselineOutlives(l, device, m, owned, p);
    BaselineOutlives(Imported(l, device, m, owned), device, m, owned, p);
    if HeldBack(l, device, m, owned, p) { RetractedSecond(l, device, m, owned, p); }
  }

  /**
   * A baseline outlives the first import and goes with the second, of the content under any id that lets it in, exactly
   * when its path is no longer stated, was edited or staged here, and the commit that the first checks out has there
   * what it says.
   */
  lemma ForgottenExactlyWhen(l: Local, device: Device, m: Snapshot, owned: set<Path>, k: nat, p: Path)
    requires WellFormed(m) && KindsApart(l, device, m) && !l.repo.bare
    requires !Skipped(l, device, m) && !Skipped(Accepted(l, device, m, owned), device, m.(id := k))
    requires p !in owned && p !in LivePaths(m.live)
    ensures var once := Accepted(l, device, m, owned);
            var twice := Accepted(once, device, m.(id := k), owned);
            p in BaselinesFor(once, device) && p !in BaselinesFor(twice, device) <==>
              && HeldBack(l, device, m, owned, p) && IsClean(AfterPrepare(l, device, m, owned).repo)
              && Catches(l.repo, m.heads, p, BaselinesFor(l, device)[p])
  {
    ForgottenAgain(l, device, m, owned, p);
    IdIsOnlyRecorded(Imported(l, device, m, owned), device, m, owned, k);
  }

  // ---------------------------------------------------------------- a baseline that only the second import forgets

  function FirstCommit(): Commit { Commit(map["f" := [1]], [], 0) }
  function SecondCommit(): Commit { Commit(map["f" := [2]], [FirstCommit()], 1) }

  /** The peer had stated [2] in its overlay; here the file was put back to the commit since. */
  function Returned(): Local {
    Local(Repo(map["main" := FirstCommit()], map[], map[], OnBranch("main"), false,
               map["f" := [1]], map["f" := [1]], {}),
          [], map[], map[], {}, map["peer" := map["f" := Some(Sha([2]))]], map[], map[], map[])
  }

  /** Now the peer has committed it. */
  function Committed(): Snapshot {
    Snapshot(1, [Ref("main", SecondCommit())], [], [], [])
  }

  lemma ReturnedIsHeldBack()
    ensures WellFormed(Committed()) && HeldBack(Returned(), "peer", Committed(), {}, "f")
    ensures IsClean(AfterPrepare(Returned(), "peer", Committed(), {}).repo)
  {
    var l, m := Returned(), Committed();
    assert Names(m.heads) == ["main"];
    var w := PreparedFrom(l, "peer", m, {});
    assert View(w, "f") == Cell(Some([1]), Some([1]), Some([1]), Some(Some(Sha([2]))));
    forall p | p in PreparedTargets(l, "peer", m, {}) ensures !Retractable(View(w, p)) {
      assert p in w.baselines;
      assert p == "f";
    }
    NothingRetractable(w, PreparedTargets(l, "peer", m, {}));
  }

  lemma CommitCatches()
    ensures Catches(Returned().repo, Committed().heads, "f", Some(Sha([2])))
  {
    var r, heads := Returned().repo, Committed().heads;
    var first, second := FirstCommit(), SecondCommit();
    assert IsAncestor(first, second) by { assert second.parents[0] == first; }
    assert Names(heads) == ["main"];
    assert Stated(heads, "main") == Some(second);
    assert CheckedOut(r, heads) == Some(second);
  }

  lemma ReturnedIsImported(l: Local, m: Snapshot)
    requires l == Returned() && m == Committed()
    ensures WellFormed(m) && KindsApart(l, "peer", m) && !l.repo.bare && !Skipped(l, "peer", m)
    ensures !Skipped(Accepted(l, "peer", m, {}), "peer", m.(id := 2))
  {
    assert Names(m.heads) == ["main"];
    assert Get(Imported(l, "peer", m, {}).imported, "peer") != Some(2);
  }

  /** Published again under another id, it makes the device forget what the first import left. */
  lemma OnlyRepublicationForgets(l: Local, m: Snapshot)
    requires l == Returned() && m == Committed()
    ensures var once := Accepted(l, "peer", m, {});
            var twice := Accepted(once, "peer", m.(id := 2), {});
            "f" in BaselinesFor(once, "peer") && "f" !in BaselinesFor(twice, "peer")
  {
    ReturnedIsHeldBack();
    CommitCatches();
    ReturnedIsImported(l, m);
    ForgottenExactlyWhen(l, "peer", m, {}, 2, "f");
  }
}
