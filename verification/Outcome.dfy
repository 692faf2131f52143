/**
 * A whole import seen at one path (src/protocol.js:602-659): what retraction, the bundle, the private files and the
 * overlay make of it together, for any path, known to a commit or not.
 */
module Outcome {
  import opened Basics
  import opened Git
  import opened Checkout
  import opened Workspace
  import opened Sync
  import opened Cells
  import opened LocalEdits
  import opened Idempotence

  /** The path as this device has it, with what it remembers of that device's overlay. */
  function Here(l: Local, device: Device, p: Path): Cell {
    Cell(Get(l.repo.tree, p), Get(l.repo.index, p), Get(HeadTree(l.repo), p), Get(BaselinesFor(l, device), p))
  }

  /** What HEAD will name: the commit to be checked out, or the one that is. */
  function NextTree(r: Repo, heads: seq<Ref>): Tree {
    if CheckedOut(r, heads).Some? then CheckedOut(r, heads).value.tree else HeadTree(r)
  }

  /** A checkout gives a path the next commit's content, takes it away with the last one's, or leaves it. */
  function MovedCell(c: Cell, next: Option<Bytes>): Cell {
    Cell(if next.Some? then next else if c.head.Some? then None else c.current, next, next, c.baseline)
  }

  /** The path after retraction. */
  function AfterRetraction(l: Local, device: Device, m: Snapshot, owned: set<Path>, p: Path): Cell {
    var c := View(PreparedFrom(l, device, m, owned), p);
    if p in PreparedTargets(l, device, m, owned) then PreparedCell(c) else c
  }

  /** And after the bundle: a dirty repository stays as it is. */
  function AfterCheckout(l: Local, device: Device, m: Snapshot, owned: set<Path>, p: Path): Cell {
    var c := AfterRetraction(l, device, m, owned, p);
    if IsClean(AfterPrepare(l, device, m, owned).repo) then MovedCell(c, Get(NextTree(l.repo, m.heads), p)) else c
  }

  function AfterPrivateList(l: Local, device: Device, m: Snapshot, owned: set<Path>, p: Path): Option<Bytes> {
    var c := AfterCheckout(l, device, m, owned, p);
    match PrivateAt(Active(m.files, l.untracked), p)
    case Some(g) => AppliedPrivateCell(c.(baseline := Get(l.fileBaselines, p)), g).current
    case None => c.current
  }

  /** The path after the whole import. */
  function AfterImport(l: Local, device: Device, m: Snapshot, owned: set<Path>, p: Path): Cell {
    var c := AfterCheckout(l, device, m, owned, p).(current := AfterPrivateList(l, device, m, owned, p));
    match FileAt(NotOwned(m.live, owned), p)
    case Some(f) => AppliedCell(c, f)
    case None => c
  }

  // ---------------------------------------------------------------- step by step

  lemma RetractionAt(l: Local, device: Device, m: Snapshot, owned: set<Path>, p: Path)
    ensures SameRefs(l.repo, AfterPrepare(l, device, m, owned).repo)
    ensures View(AfterPrepare(l, device, m, owned), p) == AfterRetraction(l, device, m, owned, p)
  {
    PreparedView(PreparedFrom(l, device, m, owned), PreparedTargets(l, device, m, owned), p);
  }

  lemma SameNextTree(r: Repo, r': Repo, heads: seq<Ref>)
    requires SameRefs(r, r')
    ensures NextTree(r, heads) == NextTree(r', heads) && HeadTree(r) == HeadTree(r')
  {
    assert CheckedOut(r, heads) == CheckedOut(r', heads);
  }

  lemma MovedAt(w: Work, g: Repo, next: Tree, p: Path)
    requires HeadTree(g) == next && g.index == next && g.tree == (w.repo.tree - HeadTree(w.repo).Keys) + next
    ensures View(w.(repo := g), p) == MovedCell(View(w, p), Get(next, p))
  {}

  lemma BundleAt(w: Work, device: Device, m: Snapshot, p: Path)
    requires WellFormed(m) && !w.repo.bare
    ensures var g := BundleImported(w.repo, device, m.heads, m.tags).repo;
            View(w.(repo := g), p) ==
              if IsClean(w.repo) then MovedCell(View(w, p), Get(NextTree(w.repo, m.heads), p)) else View(w, p)
  {
    var g := BundleImported(w.repo, device, m.heads, m.tags).repo;
    TreeAfterBundle(w.repo, device, m.heads, m.tags);
    if IsClean(w.repo) {
      HeadTreeAfterBundle(w.repo, device, m.heads, m.tags);
      MovedAt(w, g, NextTree(w.repo, m.heads), p);
    }
  }

  lemma CheckoutAt(l: Local, device: Device, m: Snapshot, owned: set<Path>, p: Path)
    requires WellFormed(m) && !l.repo.bare
    ensures var w := AfterPrepare(l, device, m, owned);
            View(w.(repo := AfterBundle(l, device, m, owned).repo), p) == AfterCheckout(l, device, m, owned, p)
  {
    var w := AfterPrepare(l, device, m, owned);
    RetractionAt(l, device, m, owned, p);
    BundleAt(w, device, m, p);
    SameNextTree(l.repo, w.repo, m.heads);
  }

  lemma PrivateAtPath(l: Local, device: Device, m: Snapshot, owned: set<Path>, p: Path)
    requires WellFormed(m) && !l.repo.bare
    ensures View(LiveFrom(l, device, m, owned), p) ==
              AfterCheckout(l, device, m, owned, p).(current := AfterPrivateList(l, device, m, owned, p))
  {
    var files, start := Active(m.files, l.untracked), PrivateFrom(l, device, m, owned);
    var w := AfterPrepare(l, device, m, owned);
    CheckoutAt(l, device, m, owned, p);
    ActiveFiles(m.files, l.untracked);
    PrivateAppliedView(start, device, files, p);
    SameAt(start, w.(repo := AfterBundle(l, device, m, owned).repo), p);
    SameAt(AfterPrivate(l, device, m, owned), LiveFrom(l, device, m, owned), p);
  }

  /** Work records over one checkout show a path alike, but for what each remembers of it. */
  lemma SameAt(w: Work, w': Work, p: Path)
    requires w'.repo == w.repo.(ignored := w'.repo.ignored)
    ensures View(w', p) == View(w, p).(baseline := Get(w'.baselines, p))
  {
    assert HeadTree(w'.repo) == HeadTree(w.repo);
  }

  /** Only the bundle moves index and HEAD. */
  lemma AfterImportIsCheckedOut(l: Local, device: Device, m: Snapshot, owned: set<Path>, p: Path)
    ensures var c, c' := AfterCheckout(l, device, m, owned, p), AfterImport(l, device, m, owned, p);
            c'.index == c.index && c'.head == c.head
  {}

  /** Each path ends as its own content, HEAD, index, baselines and entries decide, and no other path's. */
  lemma ImportAtPath(l: Local, device: Device, m: Snapshot, owned: set<Path>, p: Path)
    requires WellFormed(m) && !l.repo.bare
    ensures View(AfterLive(l, device, m, owned), p) == AfterImport(l, device, m, owned, p)
    ensures Here(Imported(l, device, m, owned), device, p) == AfterImport(l, device, m, owned, p)
  {
    var live := NotOwned(m.live, owned);
    NotOwnedFiles(m.live, owned);
    PrivateAtPath(l, device, m, owned, p);
    AppliedView(LiveFrom(l, device, m, owned), device, live, p);
    ShownHere(l, device, m, owned, p);
  }

  lemma ShownHere(l: Local, device: Device, m: Snapshot, owned: set<Path>, p: Path)
    ensures Here(Imported(l, device, m, owned), device, p) == View(AfterLive(l, device, m, owned), p)
  {
    assert Imported(l, device, m, owned).repo == AfterLive(l, device, m, owned).repo;
    assert BaselinesFor(Imported(l, device, m, owned), device) == AfterLive(l, device, m, owned).baselines;
  }

  lemma StaysNotBare(l: Local, device: Device, m: Snapshot, owned: set<Path>)
    requires WellFormed(m) && !l.repo.bare
    ensures !Imported(l, device, m, owned).repo.bare
  {
    PreparedFacts(l, device, m, owned, "");
    TreeAfterBundle(AfterPrepare(l, device, m, owned).repo, device, m.heads, m.tags);
    PrivateFrame(l, device, m, owned, "");
    LiveFrame(l, device, m, owned, "");
  }
}
