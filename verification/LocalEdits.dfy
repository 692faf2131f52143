/**
 * An import never discards bytes this device made up itself: over any interleaving of edits here and
 * imports from any devices, a file is replaced or removed only when its content came from a peer, is
 * the base a peer stated, or is committed. The one gap is Git's own: a checkout overwrites ignored files.
 */
module LocalEdits {
  import opened Basics
  import opened Git
  import opened History
  import opened Checkout
  import opened Workspace
  import opened Sync
  import opened Cells

  /** What a validated manifest guarantees about the paths and branches it lists. */
  ghost predicate WellFormed(m: Snapshot) {
    DistinctPaths(m.live) && DistinctPrivate(m.files) && Distinct(Names(m.heads))
  }

  type Deliveries = set<(Path, Option<Digest>)>

  /** What a snapshot delivers for each path, live or private. */
  function Delivered(m: Snapshot): Deliveries {
    (set f | f in m.live :: (f.path, DigestOf(f.next))) + (set f | f in m.files :: (f.path, DigestOf(f.next)))
  }

  ghost predicate CameFrom(baselines: Baselines, delivered: Deliveries) {
    forall p :: p in baselines ==> (p, baselines[p]) in delivered
  }

  /** Where every baseline came from: it is what some peer delivered for that path. */
  ghost predicate Provenance(l: Local, delivered: Deliveries) {
    && CameFrom(l.fileBaselines, delivered)
    && (forall d :: d in l.liveBaselines ==> CameFrom(l.liveBaselines[d], delivered))
  }

  // ---------------------------------------------------------------- baselines

  lemma {:induction false} OwnedBaselines(baselines: Baselines, live: seq<LiveFile>, owned: set<Path>,
                                          delivered: Deliveries)
    requires CameFrom(baselines, delivered)
    requires forall f :: f in live ==> (f.path, DigestOf(f.next)) in delivered
    ensures CameFrom(WithOwned(baselines, live, owned), delivered)
  {
    if live != [] {
      assert live == live[..|live| - 1] + [live[|live| - 1]];
      OwnedBaselines(baselines, live[..|live| - 1], owned, delivered);
    }
  }

  lemma {:induction false} NotOwnedFiles(live: seq<LiveFile>, owned: set<Path>)
    ensures forall f :: f in NotOwned(live, owned) <==> f in live && f.path !in owned
    ensures DistinctPaths(live) ==> DistinctPaths(NotOwned(live, owned))
  {
    if live != [] {
      assert live == live[..|live| - 1] + [live[|live| - 1]];
      NotOwnedFiles(live[..|live| - 1], owned);
    }
  }

  lemma {:induction false} UnownedBaseline(baselines: Baselines, live: seq<LiveFile>, owned: set<Path>, p: Path)
    requires p !in owned
    ensures Get(WithOwned(baselines, live, owned), p) == Get(baselines, p)
  {
    if live != [] { UnownedBaseline(baselines, live[..|live| - 1], owned, p); }
  }

  lemma {:induction false} PreparedBaselines(w: Work, targets: seq<Path>, delivered: Deliveries)
    requires CameFrom(w.baselines, delivered)
    ensures CameFrom(Prepared(w, targets).baselines, delivered)
  {
    if targets != [] { PreparedBaselines(w, targets[..|targets| - 1], delivered); }
  }

  lemma {:induction false} AppliedBaselines(w: Work, device: Device, files: seq<LiveFile>, delivered: Deliveries)
    requires CameFrom(w.baselines, delivered)
    requires forall f :: f in files ==> (f.path, DigestOf(f.next)) in delivered
    ensures CameFrom(Applied(w, device, files).baselines, delivered)
  {
    if files != [] {
      assert files == files[..|files| - 1] + [files[|files| - 1]];
      AppliedBaselines(w, device, files[..|files| - 1], delivered);
    }
  }

  lemma {:induction false} PrivateBaselines(w: Work, device: Device, files: seq<PrivateFile>, delivered: Deliveries)
    requires CameFrom(w.baselines, delivered)
    requires forall f :: f in files ==> (f.path, DigestOf(f.next)) in delivered
    ensures CameFrom(PrivateApplied(w, device, files).baselines, delivered)
  {
    if files != [] {
      assert files == files[..|files| - 1] + [files[|files| - 1]];
      PrivateBaselines(w, device, files[..|files| - 1], delivered);
    }
  }

  lemma ImportKeepsProvenance(l: Local, device: Device, m: Snapshot, owned: set<Path>, delivered: Deliveries)
    requires Provenance(l, delivered)
    ensures Provenance(Imported(l, device, m, owned), delivered + Delivered(m))
    ensures CameFrom(AfterPrepare(l, device, m, owned).baselines, delivered + Delivered(m))
  {
    var all := delivered + Delivered(m);
    var live := NotOwned(m.live, owned);
    NotOwnedFiles(m.live, owned);
    ActiveFiles(m.files, l.untracked);
    OwnedBaselines(BaselinesFor(l, device), m.live, owned, all);
    var w := PreparedFrom(l, device, m, owned);
    var targets := PreparedTargets(l, device, m, owned);
    PreparedBaselines(w, targets, all);
    AppliedBaselines(LiveFrom(l, device, m, owned), device, live, all);
    PrivateBaselines(PrivateFrom(l, device, m, owned), device, Active(m.files, l.untracked), all);
  }

  // ---------------------------------------------------------------- one import, step by step

  lemma PrepareTakesDelivered(l: Local, device: Device, m: Snapshot, owned: set<Path>, p: Path, delivered: Deliveries)
    requires Provenance(l, delivered)
    requires Get(AfterPrepare(l, device, m, owned).repo.tree, p) != Get(l.repo.tree, p)
    ensures p in l.repo.tree ==> (p, Some(Sha(l.repo.tree[p]))) in delivered + Delivered(m)
  {
    var w := PreparedFrom(l, device, m, owned);
    var targets := PreparedTargets(l, device, m, owned);
    PreparedView(w, targets, p);
    assert View(w, p).current == Get(l.repo.tree, p);
    assert View(Prepared(w, targets), p).current == Get(AfterPrepare(l, device, m, owned).repo.tree, p);
    OwnedBaselines(BaselinesFor(l, device), m.live, owned, delivered + Delivered(m));
  }

  /**
   * The repository is clean, the path is ignored and uncommitted, and the commit to be checked out has other bytes
   * there.
   */
  predicate OverwritesIgnored(r: Repo, heads: seq<Ref>, p: Path) {
    && !r.bare && IsClean(r) && p in r.tree && p in r.ignored && p !in HeadTree(r)
    && var next := CheckedOut(r, heads); next.Some? && p in next.value.tree && next.value.tree[p] != r.tree[p]
  }

  lemma BundleTakesCommitted(r: Repo, device: Device, m: Snapshot, p: Path)
    requires WellFormed(m)
    ensures var g := BundleImported(r, device, m.heads, m.tags).repo;
            Get(g.tree, p) != Get(r.tree, p) && p in r.tree ==>
              IsClean(r) && (Get(HeadTree(r), p) == Some(r.tree[p]) || OverwritesIgnored(r, m.heads, p))
  {
    if r.bare {
      BareTree(r, device, m.heads, m.tags);
    } else {
      TreeAfterBundle(r, device, m.heads, m.tags);
      if IsClean(r) { HeadTreeAfterBundle(r, device, m.heads, m.tags); }
    }
  }

  lemma {:induction false} BareBranches(s: Import, clean: bool, refs: seq<Ref>)
    requires s.repo.bare
    ensures var r := ImportBranches(s, clean, refs).repo; r.tree == s.repo.tree && r.bare
  {
    if refs != [] { BareBranches(s, clean, refs[..|refs| - 1]); }
  }

  lemma BareTree(r: Repo, device: Device, heads: seq<Ref>, tags: seq<Ref>)
    requires r.bare
    ensures BundleImported(r, device, heads, tags).repo.tree == r.tree
  {
    var s := Import(r.(remoteHeads := Fetch(r.remoteHeads, device, heads)), [], []);
    BareBranches(s, true, heads);
    TagsFrame(ImportBranches(s, true, heads), tags);
  }

  lemma PrivateTakesBaseline(w: Work, device: Device, files: seq<PrivateFile>, p: Path)
    requires DistinctPrivate(files) && Get(PrivateApplied(w, device, files).repo.tree, p) != Get(w.repo.tree, p)
    ensures p in w.repo.tree ==> Get(w.baselines, p) == Some(Some(Sha(w.repo.tree[p])))
  {
    PrivateAppliedView(w, device, files, p);
    assert View(PrivateApplied(w, device, files), p).current == Get(PrivateApplied(w, device, files).repo.tree, p);
    assert View(w, p).current == Get(w.repo.tree, p);
  }

  lemma PrivateTakesDelivered(l: Local, device: Device, m: Snapshot, owned: set<Path>, p: Path, delivered: Deliveries)
    requires WellFormed(m) && Provenance(l, delivered)
    requires var g := AfterBundle(l, device, m, owned).repo;
             Get(AfterPrivate(l, device, m, owned).repo.tree, p) != Get(g.tree, p)
    ensures var g := AfterBundle(l, device, m, owned).repo;
            p in g.tree ==> (p, Some(Sha(g.tree[p]))) in delivered
  {
    ActiveFiles(m.files, l.untracked);
    PrivateTakesBaseline(PrivateFrom(l, device, m, owned), device, Active(m.files, l.untracked), p);
  }

  /** The overlay replaces a file only when it was delivered before or is the base the entry states. */
  lemma OverlayTakes(w: Work, device: Device, files: seq<LiveFile>, p: Path)
    requires DistinctPaths(files) && Get(Applied(w, device, files).repo.tree, p) != Get(w.repo.tree, p)
    ensures p in w.repo.tree ==>
              || Get(w.baselines, p) == Some(Some(Sha(w.repo.tree[p])))
              || exists f :: f in files && f.path == p && f.base == Some(Sha(w.repo.tree[p]))
  {
    AppliedView(w, device, files, p);
    FileAtIffIn(files, p);
    assert View(w, p).current == Get(w.repo.tree, p);
    assert View(Applied(w, device, files), p).current == Get(Applied(w, device, files).repo.tree, p);
  }

  lemma LiveTakesBaseOrDelivered(l: Local, device: Device, m: Snapshot, owned: set<Path>, p: Path,
                                 delivered: Deliveries)
    requires WellFormed(m) && Provenance(l, delivered)
    requires var r := AfterPrivate(l, device, m, owned).repo;
             Get(AfterLive(l, device, m, owned).repo.tree, p) != Get(r.tree, p)
    ensures var r := AfterPrivate(l, device, m, owned).repo;
            p in r.tree ==>
              || (p, Some(Sha(r.tree[p]))) in delivered + Delivered(m)
              || exists f :: f in m.live && f.path == p && f.base == Some(Sha(r.tree[p]))
  {
    NotOwnedFiles(m.live, owned);
    ImportKeepsProvenance(l, device, m, owned, delivered);
    OverlayTakes(LiveFrom(l, device, m, owned), device, NotOwned(m.live, owned), p);
  }

  // ---------------------------------------------------------------- no edit is lost

  /** Why an import may replace or remove the bytes a path holds. */
  ghost predicate Expendable(l: Local, device: Device, m: Snapshot, owned: set<Path>, p: Path, delivered: Deliveries)
    requires p in l.repo.tree
  {
    var content := l.repo.tree[p];
    var prepared := AfterPrepare(l, device, m, owned).repo;
    || (p, Some(Sha(content))) in delivered
    || (exists f :: f in m.live && f.path == p && f.base == Some(Sha(content)))
    || (IsClean(prepared) && Get(HeadTree(l.repo), p) == Some(content))
    || OverwritesIgnored(prepared, m.heads, p)
  }

  lemma ImportLosesNoEdit(l: Local, device: Device, m: Snapshot, owned: set<Path>, p: Path, delivered: Deliveries)
    requires WellFormed(m) && Provenance(l, delivered)
    requires p in l.repo.tree
    requires Get(Imported(l, device, m, owned).repo.tree, p) != Some(l.repo.tree[p])
    ensures Expendable(l, device, m, owned, p, delivered + Delivered(m))
  {
    var prepared := AfterPrepare(l, device, m, owned).repo;
    if Get(prepared.tree, p) != Get(l.repo.tree, p) {
      PrepareTakesDelivered(l, device, m, owned, p, delivered);
    } else if Get(AfterBundle(l, device, m, owned).repo.tree, p) != Get(prepared.tree, p) {
      BundleTakesCommitted(prepared, device, m, p);
      PreparedKeepsHead(l, device, m, owned);
    } else if Get(AfterPrivate(l, device, m, owned).repo.tree, p) != Get(l.repo.tree, p) {
      PrivateTakesDelivered(l, device, m, owned, p, delivered);
    } else {
      LiveTakesBaseOrDelivered(l, device, m, owned, p, delivered);
    }
  }

  lemma PreparedKeepsHead(l: Local, device: Device, m: Snapshot, owned: set<Path>)
    ensures HeadTree(AfterPrepare(l, device, m, owned).repo) == HeadTree(l.repo)
  {
    var w := PreparedFrom(l, device, m, owned);
    PreparedView(w, PreparedTargets(l, device, m, owned), "");
  }

  // ---------------------------------------------------------------- runs

  /** Between imports a person may do anything to the repository: edit, stage, commit, switch, untrack. */
  datatype Event = Edit(repo: Repo, untracked: set<Path>)
    | Receive(device: Device, snapshot: Snapshot, owned: set<Path>)

  function Step(l: Local, e: Event): Local {
    match e
    case Edit(repo, untracked) => l.(repo := repo, untracked := untracked)
    case Receive(device, m, owned) => Accepted(l, device, m, owned)
  }

  function DeliveredIn(e: Event): Deliveries {
    match e
    case Edit(_, _) => {}
    case Receive(_, m, _) => Delivered(m)
  }

  /** Each import of a run replaces or removes only expendable bytes, judged by what was delivered so far. */
  ghost predicate NoEditLost(l: Local, run: seq<Event>, delivered: Deliveries)
    decreases |run|
  {
    run == [] ||
    (var l' := Step(l, run[0]);
     var delivered' := delivered + DeliveredIn(run[0]);
     && (run[0].Receive? ==> forall p :: p in l.repo.tree && Get(l'.repo.tree, p) != Some(l.repo.tree[p]) ==>
           Expendable(l, run[0].device, run[0].snapshot, run[0].owned, p, delivered'))
     && NoEditLost(l', run[1..], delivered'))
  }

  lemma {:induction false} NoLocalEditIsLost(l: Local, run: seq<Event>, delivered: Deliveries)
    requires Provenance(l, delivered)
    requires forall e :: e in run && e.Receive? ==> WellFormed(e.snapshot)
    ensures NoEditLost(l, run, delivered)
    decreases |run|
  {
    if run != [] {
      var e := run[0];
      var l' := Step(l, e);
      var delivered' := delivered + DeliveredIn(e);
      if e.Receive? && !Skipped(l, e.device, e.snapshot) {
        ImportKeepsProvenance(l, e.device, e.snapshot, e.owned, delivered);
        forall p | p in l.repo.tree && Get(l'.repo.tree, p) != Some(l.repo.tree[p])
          ensures Expendable(l, e.device, e.snapshot, e.owned, p, delivered')
        {
          ImportLosesNoEdit(l, e.device, e.snapshot, e.owned, p, delivered);
        }
      }
      NoLocalEditIsLost(l', run[1..], delivered');
    }
  }

  /** A device that has imported nothing starts with nothing delivered, so its whole life is covered. */
  lemma FreshDeviceLosesNoEdit(l: Local, run: seq<Event>)
    requires l.fileBaselines == map[] && l.liveBaselines == map[]
    requires forall e :: e in run && e.Receive? ==> WellFormed(e.snapshot)
    ensures NoEditLost(l, run, {})
  {
    NoLocalEditIsLost(l, run, {});
  }

  // ---------------------------------------------------------------- the gap: ignored files

  /**
   * Uncommitted bytes go in the bundle step exactly when the commit to be checked out has a file that Git was ignoring.
   */
  lemma UncommittedLossExactly(r: Repo, device: Device, m: Snapshot, p: Path)
    requires WellFormed(m)
    requires p in r.tree && Get(HeadTree(r), p) != Some(r.tree[p])
    ensures var g := BundleImported(r, device, m.heads, m.tags).repo;
            Get(g.tree, p) != Some(r.tree[p]) <==> OverwritesIgnored(r, m.heads, p)
  {
    BundleTakesCommitted(r, device, m, p);
    if OverwritesIgnored(r, m.heads, p) {
      TreeAfterBundle(r, device, m.heads, m.tags);
      HeadTreeAfterBundle(r, device, m.heads, m.tags);
    }
  }

  function GapRepo(): Repo {
    Repo(map["main" := Commit(map[], [], 0)], map[], map[], OnBranch("main"), false,
         map["notes" := [1]], map[], {"notes"})
  }

  function GapLocal(): Local {
    Local(GapRepo(), [], map[], map[], {}, map[], map[], map[], map[])
  }

  function GapSnapshot(): Snapshot {
    Snapshot(1, [Ref("main", Commit(map["notes" := [2]], [Commit(map[], [], 0)], 1))], [], [], [])
  }

  lemma GapBundle()
    ensures OverwritesIgnored(GapRepo(), GapSnapshot().heads, "notes")
    ensures var g := BundleImported(GapRepo(), "peer", GapSnapshot().heads, []).repo;
            Get(g.tree, "notes") == Some([2])
  {
    var r, heads := GapRepo(), GapSnapshot().heads;
    var old0, new0 := r.branches["main"], heads[0].oid;
    assert Names(heads) == ["main"];
    assert IsAncestor(old0, new0) by { assert new0.parents[0] == old0; }
    assert HeadTree(r) == map[];
    BranchCaughtUp(r, "peer", heads, [], map["main" := new0], "main");
    TreeAfterBundle(r, "peer", heads, []);
  }

  lemma NothingToRetract(incoming: set<Path>)
    ensures Targets(map[], incoming, true, {}) == []
  {
    var none: Baselines := map[];
    assert (set p | p in none && (true || p !in incoming) && p !in {}) == {};
  }

  /** A note that is ignored here and committed by a peer is replaced, though it came from nowhere else. */
  lemma IgnoredFileIsOverwritten()
    ensures Get(GapLocal().repo.tree, "notes") == Some([1])
    ensures WellFormed(GapSnapshot()) && Provenance(GapLocal(), {}) && Delivered(GapSnapshot()) == {}
    ensures Get(HeadTree(GapLocal().repo), "notes") == None
    ensures Get(Imported(GapLocal(), "peer", GapSnapshot(), {}).repo.tree, "notes") == Some([2])
  {
    var l, m := GapLocal(), GapSnapshot();
    GapBundle();
    assert Names(m.heads) == ["main"];
    NothingToRetract(LivePaths(m.live));
    assert AfterPrepare(l, "peer", m, {}).repo == l.repo;
    assert AfterPrivate(l, "peer", m, {}).repo.tree == AfterBundle(l, "peer", m, {}).repo.tree;
  }

  // ---------------------------------------------------------------- deletions

  /** Whatever retraction or a live deletion removes is in the trash afterwards, byte for byte. */
  ghost predicate DeletionsKept(w: Work, w': Work) {
    && w.trash <= w'.trash
    && (forall p :: p in w.repo.tree && p !in w'.repo.tree ==>
          Trashed(p, w.repo.tree[p]) in w'.trash[|w.trash|..])
  }

  lemma KeptOneMore(w: Work, t: Work, u: Work, p: Path)
    requires DeletionsKept(w, t) && TrashesOnly(t, u, p) && Get(t.repo.tree, p) == Get(w.repo.tree, p)
    ensures DeletionsKept(w, u)
  {
    assert u.trash[|w.trash|..] == t.trash[|w.trash|..] + u.trash[|t.trash|..];
  }

  lemma {:induction false} RetractionsAreQuarantined(w: Work, targets: seq<Path>)
    requires Distinct(targets)
    ensures DeletionsKept(w, Prepared(w, targets))
  {
    if targets != [] {
      var init, last := targets[..|targets| - 1], targets[|targets| - 1];
      var before := Prepared(w, init);
      LastOfDistinct(targets);
      RetractionsAreQuarantined(w, init);
      PreparedView(w, init, last);
      assert View(before, last).current == View(w, last).current;
      PrepareTrashesOnly(before, last);
      KeptOneMore(w, before, Prepared(w, targets), last);
    }
  }

  lemma {:induction false} LiveDeletionsAreQuarantined(w: Work, device: Device, files: seq<LiveFile>)
    requires DistinctPaths(files)
    ensures DeletionsKept(w, Applied(w, device, files))
  {
    if files != [] {
      var init, last := files[..|files| - 1], files[|files| - 1];
      var before := Applied(w, device, init);
      LiveDeletionsAreQuarantined(w, device, init);
      AppliedView(w, device, init, last.path);
      FileAtIffIn(init, last.path);
      assert View(before, last.path).current == View(w, last.path).current;
      ApplyTrashesOnly(before, device, last);
      KeptOneMore(w, before, Applied(w, device, files), last.path);
    }
  }
}
