/**
 * A device that only follows another one ends every import with the tree it follows. Its tree is
 * always HEAD overlaid with its recorded baselines.
 */
module Replication {
  import opened Basics
  import opened Paths
  import opened Git
  import opened History
  import opened Checkout
  import opened Workspace
  import opened Sync
  import opened Cells

  /** What a device published, and the state it published it from. */
  datatype Publication = Publication(repo: Repo, private: set<Path>, snapshot: Snapshot)

  ghost predicate Faithful(p: Publication) {
    && Lists(p.snapshot.heads, p.repo.branches)
    && IsOverlay(p.snapshot.live, p.repo, p.private)
    && DistinctPrivate(p.snapshot.files)
    && (forall f :: f in p.snapshot.files ==> f.path in p.private && f.path !in HeadTree(p.repo))
  }

  ghost predicate PassiveCell(c: Cell, ignored: bool) {
    && c.index == c.head
    && match c.baseline
       case Some(taken) => DigestOf(c.current) == taken
       case None => c.current == c.head || (ignored && c.head.None?)
  }

  function OverlayWork(l: Local, device: Device): Work {
    Work(l.repo, BaselinesFor(l, device), l.trash, l.saved, [], [])
  }

  /** A follower of `device` on branch `b`: its tree is HEAD overlaid with the baselines it recorded. */
  ghost predicate Passive(l: Local, device: Device, b: Name) {
    && !l.repo.bare && l.repo.head == OnBranch(b)
    && l.repo.index == HeadTree(l.repo)
    && (forall p :: PassiveCell(View(OverlayWork(l, device), p), p in l.repo.ignored))
    && (device in l.importedRefs && l.importedRefs[device].Some? ==>
          var stated := Stated(l.importedRefs[device].value.0, b);
          stated.Some? ==> b in l.repo.branches && IsAncestor(stated.value, l.repo.branches[b]))
  }

  /** The follower's branch has not gone past the source's, and nothing published live is ignored here. */
  ghost predicate Behind(l: Local, p: Publication, b: Name) {
    && OnBranchWithCommits(p.repo, b)
    && (b in l.repo.branches ==> b in p.repo.branches && IsAncestor(l.repo.branches[b], p.repo.branches[b]))
    && (forall f :: f in p.snapshot.live ==> f.path !in l.repo.ignored)
  }

  /** A clean clone that has imported nothing yet follows anyone; so does an empty repository. */
  lemma CleanCloneIsPassive(l: Local, device: Device, b: Name)
    requires !l.repo.bare && l.repo.head == OnBranch(b) && IsClean(l.repo)
    requires device !in l.liveBaselines && device !in l.importedRefs
    ensures Passive(l, device, b)
  {
    forall p ensures PassiveCell(View(OverlayWork(l, device), p), p in l.repo.ignored) {
      assert p in l.repo.tree ==> p in l.repo.index || p in l.repo.ignored;
    }
  }

  // ---------------------------------------------------------------- the steps of one import

  lemma {:induction false} NothingOwned(live: seq<LiveFile>, baselines: Baselines)
    ensures NotOwned(live, {}) == live && WithOwned(baselines, live, {}) == baselines
  {
    if live != [] {
      NothingOwned(live[..|live| - 1], baselines);
      assert live == live[..|live| - 1] + [live[|live| - 1]];
    }
  }

  lemma OverlayPaths(p: Publication)
    requires Faithful(p)
    ensures DistinctPaths(p.snapshot.live) && Distinct(Names(p.snapshot.heads))
  {}

  /** Retraction leaves a follower passive, on the same HEAD, with nothing but the incoming paths overlaid. */
  lemma PrepareStep(l: Local, device: Device, b: Name, m: Snapshot, p: Path)
    requires Passive(l, device, b)
    ensures var w := AfterPrepare(l, device, m, {});
            var refsChanged := Get(l.importedRefs, device) != Some(RefsDigestOf(m));
            && SameRefs(l.repo, w.repo) && HeadTree(w.repo) == HeadTree(l.repo)
            && PassiveCell(View(w, p), p in l.repo.ignored)
            && (p in w.baselines ==> !refsChanged && p in LivePaths(m.live))
  {
    NothingOwned(m.live, BaselinesFor(l, device));
    var w := OverlayWork(l, device);
    var refsChanged := Get(l.importedRefs, device) != Some(RefsDigestOf(m));
    var targets := Targets(w.baselines, LivePaths(m.live), refsChanged, {});
    PreparedView(w, targets, p);
    var _ := View(w, p);
    assert Get(Prepared(w, targets).baselines, p) == View(Prepared(w, targets), p).baseline;
  }

  lemma PreparedIsClean(l: Local, device: Device, b: Name, m: Snapshot)
    requires Passive(l, device, b)
    requires Get(l.importedRefs, device) != Some(RefsDigestOf(m))
    ensures IsClean(AfterPrepare(l, device, m, {}).repo)
  {
    var w := AfterPrepare(l, device, m, {});
    PrepareStep(l, device, b, m, "");
    forall p ensures p in w.repo.index ==> p in w.repo.tree && w.repo.tree[p] == w.repo.index[p]
             ensures p in w.repo.tree ==> p in w.repo.index || p in w.repo.ignored
    {
      PrepareStep(l, device, b, m, p);
      assert PassiveCell(View(w, p), p in l.repo.ignored);
    }
  }

  lemma UnchangedRefsAgree(l: Local, device: Device, b: Name, p: Publication)
    requires Passive(l, device, b) && Faithful(p) && Behind(l, p, b)
    requires Get(l.importedRefs, device) == Some(RefsDigestOf(p.snapshot))
    ensures Get(l.repo.branches, b) == Get(p.repo.branches, b)
  {
    StatedByListing(p.snapshot.heads, p.repo.branches, b);
    if b in p.repo.branches { AncestorAntisymmetric(l.repo.branches[b], p.repo.branches[b]); }
  }

  /** The bundle puts the follower on the source's commit: it was clean, or it was there already. */
  lemma BundleStep(l: Local, device: Device, b: Name, p: Publication)
    requires Passive(l, device, b) && Faithful(p) && Behind(l, p, b)
    ensures var w := AfterPrepare(l, device, p.snapshot, {}).repo;
            var g := AfterBundle(l, device, p.snapshot, {}).repo;
            && !g.bare && g.head == OnBranch(b) && g.ignored == l.repo.ignored
            && Get(g.branches, b) == Get(p.repo.branches, b)
            && (Moved(w, g) || (SameCheckout(w, g) && HeadTree(g) == g.index))
  {
    var m := p.snapshot;
    var w := AfterPrepare(l, device, m, {});
    PrepareStep(l, device, b, m, "");
    var refsChanged := Get(l.importedRefs, device) != Some(RefsDigestOf(m));
    if refsChanged { PreparedIsClean(l, device, b, m); } else { UnchangedRefsAgree(l, device, b, p); }
    BranchCaughtUp(w.repo, device, m.heads, m.tags, p.repo.branches, b);
    TreeAfterBundle(w.repo, device, m.heads, m.tags);
  }

  /** When the refs are unchanged the bundle leaves the tree alone, overlay included. */
  lemma UnchangedRefsKeepTree(l: Local, device: Device, b: Name, p: Publication)
    requires Passive(l, device, b) && Faithful(p) && Behind(l, p, b)
    requires Get(l.importedRefs, device) == Some(RefsDigestOf(p.snapshot))
    ensures SameCheckout(AfterPrepare(l, device, p.snapshot, {}).repo, AfterBundle(l, device, p.snapshot, {}).repo)
  {
    var w := AfterPrepare(l, device, p.snapshot, {}).repo;
    PrepareStep(l, device, b, p.snapshot, "");
    BundleStep(l, device, b, p);
    UnchangedRefsAgree(l, device, b, p);
    TreeAfterBundle(w, device, p.snapshot.heads, p.snapshot.tags);
    var g := AfterBundle(l, device, p.snapshot, {}).repo;
    assert HeadCommit(g) == HeadCommit(w);
    if IsClean(w) { MovedNowhere(w, g); }
  }

  lemma BundleCell(l: Local, device: Device, b: Name, p: Publication, q: Path)
    requires Passive(l, device, b) && Faithful(p) && Behind(l, p, b)
    ensures var w := AfterPrepare(l, device, p.snapshot, {});
            var g := AfterBundle(l, device, p.snapshot, {}).repo;
            var c := View(w.(repo := g), q);
            && PassiveCell(c, q in l.repo.ignored)
            && c.head == Get(HeadTree(p.repo), q)
            && (c.baseline.Some? ==> q in LivePaths(p.snapshot.live))
  {
    var w, g := AfterPrepare(l, device, p.snapshot, {}), AfterBundle(l, device, p.snapshot, {}).repo;
    PrepareStep(l, device, b, p.snapshot, q);
    BundleStep(l, device, b, p);
    assert HeadTree(g) == HeadTree(p.repo);
    if Get(l.importedRefs, device) == Some(RefsDigestOf(p.snapshot)) {
      UnchangedRefsKeepTree(l, device, b, p);
      SameCell(w, g, q);
    } else if SameCheckout(w.repo, g) {
      SameCell(w, g, q);
    } else {
      MovedIsPassive(w, g, q, q in l.repo.ignored);
    }
  }

  lemma SameCell(w: Work, g: Repo, q: Path)
    requires SameCheckout(w.repo, g)
    ensures View(w.(repo := g), q) == View(w, q)
  {}

  lemma MovedIsPassive(w: Work, g: Repo, q: Path, ignored: bool)
    requires Moved(w.repo, g) && PassiveCell(View(w, q), ignored) && View(w, q).baseline.None?
    ensures PassiveCell(View(w.(repo := g), q), ignored) && View(w.(repo := g), q).baseline.None?
    ensures View(w.(repo := g), q).head == Get(HeadTree(g), q)
  {}

  /** Private files are excluded before they are written, and only their own paths change. */
  lemma PrivateStep(l: Local, device: Device, p: Publication, q: Path)
    requires Faithful(p)
    ensures var g := AfterBundle(l, device, p.snapshot, {}).repo;
            var r := AfterPrivate(l, device, p.snapshot, {}).repo;
            && r == g.(tree := r.tree, ignored := r.ignored)
            && g.ignored <= r.ignored <= g.ignored + p.private
            && (Get(r.tree, q) == Get(g.tree, q) || (q in p.private && q in r.ignored && q !in HeadTree(p.repo)))
  {
    var g := AfterBundle(l, device, p.snapshot, {}).repo;
    var active := Active(p.snapshot.files, l.untracked);
    ActiveFiles(p.snapshot.files, l.untracked);
    var w := PrivateFrom(l, device, p.snapshot, {});
    PrivateAppliedView(w, device, active, q);
    PrivateAtIffIn(active, q);
    assert View(w, q).current == Get(g.tree, q);
    assert View(PrivateApplied(w, device, active), q).current ==
           Get(AfterPrivate(l, device, p.snapshot, {}).repo.tree, q);
  }

  lemma BeforeLiveCell(l: Local, device: Device, b: Name, p: Publication, q: Path)
    requires Passive(l, device, b) && Faithful(p) && Behind(l, p, b)
    ensures var r := AfterPrivate(l, device, p.snapshot, {}).repo;
            var c := View(AfterPrepare(l, device, p.snapshot, {}).(repo := r), q);
            && PassiveCell(c, q in r.ignored)
            && c.head == Get(HeadTree(p.repo), q)
            && (c.baseline.Some? ==> q in LivePaths(p.snapshot.live))
            && (q in LivePaths(p.snapshot.live) ==> q !in r.ignored)
  {
    BundleCell(l, device, b, p, q);
    BundleStep(l, device, b, p);
    PrivateStep(l, device, p, q);
    var g := AfterBundle(l, device, p.snapshot, {}).repo;
    var r := AfterPrivate(l, device, p.snapshot, {}).repo;
    assert HeadTree(r) == HeadTree(g);
  }

  /**
   * Where one path stands after an import: HEAD overlaid with the baseline, and the source's content where it is
   * shared.
   */
  lemma ImportCell(l: Local, device: Device, b: Name, p: Publication, q: Path)
    requires Passive(l, device, b) && Faithful(p) && Behind(l, p, b)
    ensures var w := AfterLive(l, device, p.snapshot, {});
            var c := View(w, q);
            && PassiveCell(c, q in w.repo.ignored)
            && (Shared(p.repo, p.private, q) && (q !in w.repo.ignored || q in HeadTree(p.repo)) ==>
                  c.current == Get(p.repo.tree, q))
  {
    var live, w := p.snapshot.live, LiveFrom(l, device, p.snapshot, {});
    NothingOwned(live, BaselinesFor(l, device));
    OverlayPaths(p);
    BeforeLiveCell(l, device, b, p, q);
    SameStart(AfterPrepare(l, device, p.snapshot, {}), w, q);
    AppliedView(w, device, live, q);
    FileAtIffIn(live, q);
    match FileAt(live, q)
    case Some(f) =>
      EntryIs(p, f);
      ListedCell(View(w, q), f);
    case None => NoEntry(p, q);
  }

  lemma EntryIs(p: Publication, f: LiveFile)
    requires Faithful(p) && f in p.snapshot.live
    ensures f == OverlayFile(p.repo, f.path) && !IsGenerated(f.path)
  {}

  lemma NoEntry(p: Publication, q: Path)
    requires Faithful(p) && forall f :: f in p.snapshot.live ==> f.path != q
    ensures Shared(p.repo, p.private, q) ==> Get(p.repo.tree, q) == Get(HeadTree(p.repo), q)
  {
    assert OverlayFile(p.repo, q) !in p.snapshot.live;
  }

  lemma SameStart(prepared: Work, w: Work, q: Path)
    requires w.baselines == prepared.baselines
    ensures View(w, q) == View(prepared.(repo := w.repo), q)
  {}

  /** An overlay entry taken against the HEAD that is here now is installed. */
  lemma ListedCell(c: Cell, f: LiveFile)
    requires PassiveCell(c, false) && f.base == DigestOf(c.head) && !IsGenerated(f.path)
    ensures var c' := AppliedCell(c, f); PassiveCell(c', false) && c'.current == f.next
  {}

  // ---------------------------------------------------------------- the theorem

  /** The follower has the source's content on every path the source shares. */
  ghost predicate Replicates(l: Local, p: Publication) {
    forall q :: Shared(p.repo, p.private, q) && (q !in l.repo.ignored || q in HeadTree(p.repo)) ==>
      Get(l.repo.tree, q) == Get(p.repo.tree, q)
  }

  lemma StatedOfRefs(m: Snapshot, b: Name)
    ensures RefsDigestOf(m).Some? ==> Stated(RefsDigestOf(m).value.0, b) == Stated(m.heads, b)
  {}

  lemma RefsAfterImport(l: Local, device: Device, m: Snapshot)
    ensures var refs := Imported(l, device, m, {}).importedRefs;
            refs == l.importedRefs || refs == l.importedRefs[device := RefsDigestOf(m)]
  {}

  lemma FollowedRefs(l: Local, device: Device, b: Name, p: Publication)
    requires Passive(l, device, b) && Faithful(p) && Behind(l, p, b)
    ensures var l' := Imported(l, device, p.snapshot, {});
            device in l'.importedRefs && l'.importedRefs[device].Some? ==>
              var stated := Stated(l'.importedRefs[device].value.0, b);
              stated.Some? ==> b in p.repo.branches && IsAncestor(stated.value, p.repo.branches[b])
  {
    StatedByListing(p.snapshot.heads, p.repo.branches, b);
    StatedOfRefs(p.snapshot, b);
    RefsAfterImport(l, device, p.snapshot);
    if device in l.importedRefs && l.importedRefs[device].Some? {
      var stated := Stated(l.importedRefs[device].value.0, b);
      if stated.Some? { AncestorTransitive(stated.value, l.repo.branches[b], p.repo.branches[b]); }
    }
  }

  lemma FollowedCheckout(l: Local, device: Device, b: Name, p: Publication)
    requires Passive(l, device, b) && Faithful(p) && Behind(l, p, b)
    ensures var r := Imported(l, device, p.snapshot, {}).repo;
            && !r.bare && r.head == OnBranch(b) && r.index == HeadTree(r)
            && Get(r.branches, b) == Get(p.repo.branches, b) && r.ignored <= l.repo.ignored + p.private
  {
    BundleStep(l, device, b, p);
    PrivateStep(l, device, p, "");
    NothingOwned(p.snapshot.live, BaselinesFor(l, device));
    OverlayPaths(p);
    AppliedView(LiveFrom(l, device, p.snapshot, {}), device, p.snapshot.live, "");
  }

  lemma FollowedCell(l: Local, device: Device, b: Name, p: Publication, q: Path)
    requires Passive(l, device, b) && Faithful(p) && Behind(l, p, b)
    ensures var l' := Imported(l, device, p.snapshot, {});
            && PassiveCell(View(OverlayWork(l', device), q), q in l'.repo.ignored)
            && (Shared(p.repo, p.private, q) && (q !in l'.repo.ignored || q in HeadTree(p.repo)) ==>
                  Get(l'.repo.tree, q) == Get(p.repo.tree, q))
  {
    ImportCell(l, device, b, p, q);
    assert View(OverlayWork(Imported(l, device, p.snapshot, {}), device), q) ==
           View(AfterLive(l, device, p.snapshot, {}), q);
  }

  lemma ImportFollows(l: Local, device: Device, b: Name, p: Publication)
    requires Passive(l, device, b) && Faithful(p) && Behind(l, p, b)
    ensures var l' := Imported(l, device, p.snapshot, {});
            && Passive(l', device, b) && Replicates(l', p)
            && Get(l'.repo.branches, b) == Get(p.repo.branches, b)
            && l'.repo.ignored <= l.repo.ignored + p.private
  {
    FollowedCheckout(l, device, b, p);
    FollowedRefs(l, device, b, p);
    var l' := Imported(l, device, p.snapshot, {});
    forall q ensures PassiveCell(View(OverlayWork(l', device), q), q in l'.repo.ignored) {
      FollowedCell(l, device, b, p, q);
    }
    forall q | Shared(p.repo, p.private, q) && (q !in l'.repo.ignored || q in HeadTree(p.repo))
      ensures Get(l'.repo.tree, q) == Get(p.repo.tree, q)
    {
      FollowedCell(l, device, b, p, q);
    }
  }

  predicate OnBranchWithCommits(r: Repo, b: Name) {
    !r.bare && r.head == OnBranch(b) && (b in r.branches || r.branches == map[])
  }

  /** A run of publications of one branch whose commits only move forward; some may be missing from it. */
  ghost predicate LinearRun(run: seq<Publication>, b: Name) {
    && (forall i :: 0 <= i < |run| ==> Faithful(run[i]) && OnBranchWithCommits(run[i].repo, b))
    && (forall i, j :: 0 <= i < j < |run| && b in run[i].repo.branches ==>
          b in run[j].repo.branches && IsAncestor(run[i].repo.branches[b], run[j].repo.branches[b]))
  }

  /** No path is published live while this device ignores it, as a private path of the run or otherwise. */
  ghost predicate LiveStaysLive(run: seq<Publication>, ignored: set<Path>) {
    && (forall i, f :: 0 <= i < |run| && f in run[i].snapshot.live ==> f.path !in ignored)
    && (forall i, j, f :: 0 <= i < |run| && 0 <= j < |run| && f in run[i].snapshot.live ==> f.path !in run[j].private)
  }

  function Follow(l: Local, device: Device, run: seq<Publication>): Local
    decreases |run|
  {
    if run == [] then l else Follow(Imported(l, device, run[0].snapshot, {}), device, run[1..])
  }

  lemma RestOfRun(run: seq<Publication>, b: Name, ignored: set<Path>, ignored': set<Path>)
    requires run != [] && LinearRun(run, b) && LiveStaysLive(run, ignored)
    requires ignored' <= ignored + run[0].private
    ensures LinearRun(run[1..], b) && LiveStaysLive(run[1..], ignored')
    ensures |run| > 1 && b in run[0].repo.branches ==>
      b in run[1..][0].repo.branches && IsAncestor(run[0].repo.branches[b], run[1..][0].repo.branches[b])
  {
    var rest := run[1..];
    assert forall i :: 0 <= i < |rest| ==> rest[i] == run[i + 1];
    assert LinearRun(rest, b);
  }

  /**
   * Replication refines the source: for any edits and any forward history on the source, a device with
   * no edits of its own has the source's tree after each import, whichever snapshots it skipped.
   */
  lemma {:induction false} ReplicationRefinesSource(l: Local, device: Device, b: Name, run: seq<Publication>)
    requires Passive(l, device, b) && LinearRun(run, b) && LiveStaysLive(run, l.repo.ignored)
    requires run != [] && b in l.repo.branches ==>
      b in run[0].repo.branches && IsAncestor(l.repo.branches[b], run[0].repo.branches[b])
    ensures Passive(Follow(l, device, run), device, b)
    ensures run != [] ==> Replicates(Follow(l, device, run), run[|run| - 1])
    decreases |run|
  {
    if run != [] {
      var l' := Imported(l, device, run[0].snapshot, {});
      var rest := run[1..];
      assert Faithful(run[0]);
      ImportFollows(l, device, b, run[0]);
      RestOfRun(run, b, l.repo.ignored, l'.repo.ignored);
      ReplicationRefinesSource(l', device, b, rest);
      assert rest != [] ==> rest[|rest| - 1] == run[|run| - 1];
    }
  }
}
