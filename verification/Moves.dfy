/**
 * When a listed file is taken (src/live-workspace.js:258-320, src/workspace.js:206-243), at any path; and what becomes
 * of one that no commit knows and that its device moves between its private and its live list.
 */
module Moves {
  import opened Basics
  import opened Paths
  import opened Git
  import opened History
  import opened Workspace
  import opened Sync
  import opened Cells
  import opened LocalEdits
  import opened Idempotence
  import opened Quarantine
  import opened Outcome

  predicate Uncommitted(r: Repo, p: Path) {
    !r.bare && p !in HeadTree(r) && p !in r.index
  }

  predicate NotInHeads(m: Snapshot, p: Path) {
    forall ref :: ref in m.heads ==> p !in ref.oid.tree
  }

  /** The file here still is what was last taken from this device's overlay. */
  predicate IsLastTaken(l: Local, device: Device, p: Path) {
    Get(BaselinesFor(l, device), p) == Some(DigestOf(Get(l.repo.tree, p)))
  }

  lemma {:induction false} StatedIsListed(refs: seq<Ref>, n: Name)
    ensures Stated(refs, n).Some? ==> Ref(n, Stated(refs, n).value) in refs
  {
    if refs != [] {
      assert refs == refs[..|refs| - 1] + [refs[|refs| - 1]];
      StatedIsListed(refs[..|refs| - 1], n);
    }
  }

  // ---------------------------------------------------------------- any path, listed live

  /** The snapshot lists the file in its overlay, and this device handles it. */
  predicate Listed(m: Snapshot, owned: set<Path>, f: LiveFile) {
    f in m.live && f.path !in owned && !IsGenerated(f.path) && forall g :: g in m.files ==> g.path != f.path
  }

  /** The file is the new one, the base it was taken against and not staged, or what was last taken from the overlay. */
  predicate Accepts(c: Cell, f: LiveFile) {
    c.current == f.next || (!c.Staged() && DigestOf(c.current) == f.base) || c.baseline == Some(DigestOf(c.current))
  }

  lemma LiveAtPath(l: Local, device: Device, m: Snapshot, owned: set<Path>, f: LiveFile)
    requires WellFormed(m) && !l.repo.bare && Listed(m, owned, f)
    ensures AfterImport(l, device, m, owned, f.path) == AppliedCell(AfterCheckout(l, device, m, owned, f.path), f)
  {
    NotOwnedFiles(m.live, owned);
    FileAtIffIn(NotOwned(m.live, owned), f.path);
    ActiveFiles(m.files, l.untracked);
    PrivateAtIffIn(Active(m.files, l.untracked), f.path);
  }

  /**
   * Whatever commits, overlay and private list knew of it before: a listed file is taken exactly when what retraction
   * and the checkout leave of it is acceptable; else that stays, the peer's is saved beside it, and counts as
   * delivered.
   */
  lemma LiveTakenAtAnyPath(l: Local, device: Device, m: Snapshot, owned: set<Path>, f: LiveFile)
    requires WellFormed(m) && !l.repo.bare && Listed(m, owned, f)
    ensures var l', c := Imported(l, device, m, owned), AfterCheckout(l, device, m, owned, f.path);
            && Get(l'.repo.tree, f.path) == (if Accepts(c, f) then f.next else c.current)
            && (!Accepts(c, f) ==> Get(l'.saved, (device, f.path)) == Some(f.next))
            && Get(BaselinesFor(l', device), f.path) == Some(DigestOf(f.next))
  {
    LiveAtPath(l, device, m, owned, f);
    ImportAtPath(l, device, m, owned, f.path);
    AcceptedIsSafe(AfterCheckout(l, device, m, owned, f.path), f);
    NotOwnedFiles(m.live, owned);
    AppliedSettles(LiveFrom(l, device, m, owned), device, NotOwned(m.live, owned));
    assert Settled(AfterLive(l, device, m, owned), device, f);
  }

  /** The clause for a clean HEAD adds nothing: an unstaged file without changes is what HEAD has. */
  lemma AcceptedIsSafe(c: Cell, f: LiveFile)
    ensures Safe(c, f) <==> Accepts(c, f)
  {}

  // ---------------------------------------------------------------- any path, listed private

  predicate ListsPrivate(l: Local, m: Snapshot, g: PrivateFile) {
    g in m.files && g.path !in LivePaths(m.live) && g.path !in l.untracked && !IsGenerated(g.path)
  }

  /** The file is the new one, what was last taken from a private list, or, with none taken yet, missing. */
  predicate AcceptsPrivate(l: Local, g: PrivateFile, left: Option<Bytes>) {
    left == g.next || (if g.path in l.fileBaselines then l.fileBaselines[g.path] == DigestOf(left) else left.None?)
  }

  lemma PrivateAtListed(l: Local, device: Device, m: Snapshot, owned: set<Path>, g: PrivateFile)
    requires WellFormed(m) && ListsPrivate(l, m, g)
    ensures PrivateAt(Active(m.files, l.untracked), g.path) == Some(g)
    ensures FileAt(NotOwned(m.live, owned), g.path) == None
    ensures DistinctPrivate(Active(m.files, l.untracked))
  {
    ActiveFiles(m.files, l.untracked);
    PrivateAtIffIn(Active(m.files, l.untracked), g.path);
    NotOwnedFiles(m.live, owned);
    FileAtIffIn(NotOwned(m.live, owned), g.path);
  }

  lemma AcceptedPrivately(l: Local, c: Cell, g: PrivateFile)
    requires c.baseline == Get(l.fileBaselines, g.path)
    ensures AppliedPrivateCell(c, g).current == if AcceptsPrivate(l, g, c.current) then g.next else c.current
  {}

  /** Likewise a private file, whatever commits and overlay knew of it. */
  lemma PrivateTakenAtAnyPath(l: Local, device: Device, m: Snapshot, owned: set<Path>, g: PrivateFile)
    requires WellFormed(m) && !l.repo.bare && ListsPrivate(l, m, g)
    ensures var l', left := Imported(l, device, m, owned), AfterCheckout(l, device, m, owned, g.path).current;
            && Get(l'.repo.tree, g.path) == (if AcceptsPrivate(l, g, left) then g.next else left)
            && Get(l'.fileBaselines, g.path) == Some(DigestOf(g.next))
  {
    var c := AfterCheckout(l, device, m, owned, g.path);
    PrivateAtListed(l, device, m, owned, g);
    ImportAtPath(l, device, m, owned, g.path);
    AcceptedPrivately(l, c.(baseline := Get(l.fileBaselines, g.path)), g);
    PrivateRecords(PrivateFrom(l, device, m, owned), device, Active(m.files, l.untracked), g);
  }

  lemma PrivateRecords(w: Work, device: Device, files: seq<PrivateFile>, g: PrivateFile)
    requires DistinctPrivate(files) && PrivateAt(files, g.path) == Some(g)
    ensures Get(PrivateApplied(w, device, files).baselines, g.path) == Some(DigestOf(g.next))
  {
    PrivateAppliedView(w, device, files, g.path);
    assert View(PrivateApplied(w, device, files), g.path).baseline ==
           Get(PrivateApplied(w, device, files).baselines, g.path);
  }

  // ---------------------------------------------------------------- a path no commit knows

  lemma NotInNextTree(r: Repo, m: Snapshot, p: Path)
    requires p !in HeadTree(r) && NotInHeads(m, p)
    ensures p !in NextTree(r, m.heads)
  {
    if r.head.OnBranch? { StatedIsListed(m.heads, r.head.name); }
    if m.heads != [] { StatedIsListed(m.heads, Preferred(Names(m.heads))); }
  }

  lemma RetractionOfUncommitted(l: Local, device: Device, m: Snapshot, owned: set<Path>, p: Path)
    requires Uncommitted(l.repo, p) && p !in owned
    ensures AfterRetraction(l, device, m, owned, p) ==
              if p in PreparedTargets(l, device, m, owned) && IsLastTaken(l, device, p)
              then Cell(None, None, None, None)
              else Cell(Get(l.repo.tree, p), None, None, Get(BaselinesFor(l, device), p))
  {
    UnownedBaseline(BaselinesFor(l, device), m.live, owned, p);
  }

  /** The checkout passes it by, so only retraction counts. */
  lemma CheckoutPasses(l: Local, device: Device, m: Snapshot, owned: set<Path>, p: Path)
    requires Uncommitted(l.repo, p) && NotInHeads(m, p) && p !in owned
    ensures AfterCheckout(l, device, m, owned, p) == AfterRetraction(l, device, m, owned, p)
  {
    RetractionOfUncommitted(l, device, m, owned, p);
    NotInNextTree(l.repo, m, p);
  }

  lemma HereUncommitted(l: Local, device: Device, p: Path)
    ensures Uncommitted(l.repo, p) <==> !l.repo.bare && Here(l, device, p).index == Here(l, device, p).head == None
  {}

  lemma StaysUncommitted(l: Local, device: Device, m: Snapshot, owned: set<Path>, p: Path)
    requires WellFormed(m) && Uncommitted(l.repo, p) && NotInHeads(m, p) && p !in owned
    ensures Uncommitted(Imported(l, device, m, owned).repo, p)
  {
    CheckoutPasses(l, device, m, owned, p);
    RetractionOfUncommitted(l, device, m, owned, p);
    AfterImportIsCheckedOut(l, device, m, owned, p);
    ImportAtPath(l, device, m, owned, p);
    StaysNotBare(l, device, m, owned);
    HereUncommitted(Imported(l, device, m, owned), device, p);
  }

  /** The snapshot lists the file in its overlay, as one its own commit does not have. */
  predicate ListsLive(m: Snapshot, f: LiveFile) {
    f in m.live && f.base.None? && !IsGenerated(f.path) && forall g :: g in m.files ==> g.path != f.path
  }

  predicate LiveIsTaken(l: Local, device: Device, f: LiveFile) {
    f.path !in l.repo.tree || Get(l.repo.tree, f.path) == f.next || IsLastTaken(l, device, f.path)
  }

  /**
   * It is taken exactly when there is no file here, the same file, or the one last taken from this device's overlay.
   */
  lemma LiveTakenExactlyWhen(l: Local, device: Device, m: Snapshot, owned: set<Path>, f: LiveFile)
    requires WellFormed(m) && Uncommitted(l.repo, f.path) && NotInHeads(m, f.path)
    requires ListsLive(m, f) && f.path !in owned
    ensures var l' := Imported(l, device, m, owned);
            && Get(l'.repo.tree, f.path) == (if LiveIsTaken(l, device, f) then f.next else Get(l.repo.tree, f.path))
            && (!LiveIsTaken(l, device, f) ==> Get(l'.saved, (device, f.path)) == Some(f.next))
            && Get(BaselinesFor(l', device), f.path) == Some(DigestOf(f.next))
  {
    CheckoutPasses(l, device, m, owned, f.path);
    RetractionOfUncommitted(l, device, m, owned, f.path);
    LiveTakenAtAnyPath(l, device, m, owned, f);
  }

  /** What retraction leaves of a file that is no longer in the overlay. */
  function Unretracted(l: Local, device: Device, p: Path): Option<Bytes> {
    if IsLastTaken(l, device, p) then None else Get(l.repo.tree, p)
  }

  /**
   * Retraction comes first: the file goes, and the private list gives it back only if none was taken from one before.
   */
  lemma PrivateTakenExactlyWhen(l: Local, device: Device, m: Snapshot, owned: set<Path>, g: PrivateFile)
    requires WellFormed(m) && Uncommitted(l.repo, g.path) && NotInHeads(m, g.path)
    requires ListsPrivate(l, m, g) && g.path !in owned
    ensures var l', left := Imported(l, device, m, owned), Unretracted(l, device, g.path);
            && Get(l'.repo.tree, g.path) == (if AcceptsPrivate(l, g, left) then g.next else left)
            && Get(l'.fileBaselines, g.path) == Some(DigestOf(g.next))
  {
    NotOwnedFiles(m.live, owned);
    UnownedBaseline(BaselinesFor(l, device), m.live, owned, g.path);
    assert g.path in PreparedTargets(l, device, m, owned) <==> g.path in BaselinesFor(l, device);
    CheckoutPasses(l, device, m, owned, g.path);
    RetractionOfUncommitted(l, device, m, owned, g.path);
    PrivateTakenAtAnyPath(l, device, m, owned, g);
  }

  // ---------------------------------------------------------------- runs

  /** A device lists the file live, and not as it is here. */
  ghost predicate OtherLive(e: Event, p: Path, mine: Bytes) {
    && e.Receive? && WellFormed(e.snapshot) && NotInHeads(e.snapshot, p) && p !in e.owned
    && exists f: LiveFile :: f.path == p && ListsLive(e.snapshot, f) && f.next != Some(mine)
  }

  ghost predicate Own(l: Local, p: Path, mine: Bytes) {
    Uncommitted(l.repo, p) && Get(l.repo.tree, p) == Some(mine) && forall d :: !IsLastTaken(l, d, p)
  }

  lemma OwnStays(l: Local, device: Device, m: Snapshot, owned: set<Path>, f: LiveFile, mine: Bytes)
    requires WellFormed(m) && NotInHeads(m, f.path) && f.path !in owned && Own(l, f.path, mine)
    requires ListsLive(m, f) && f.next != Some(mine)
    ensures Own(Imported(l, device, m, owned), f.path, mine)
  {
    LiveTakenExactlyWhen(l, device, m, owned, f);
    StaysUncommitted(l, device, m, owned, f.path);
    assert !IsLastTaken(l, device, f.path);
    StillOwn(l, Imported(l, device, m, owned), device, f, mine);
  }

  lemma StillOwn(l: Local, l': Local, device: Device, f: LiveFile, mine: Bytes)
    requires Own(l, f.path, mine) && Uncommitted(l'.repo, f.path) && Get(l'.repo.tree, f.path) == Some(mine)
    requires Get(BaselinesFor(l', device), f.path) == Some(DigestOf(f.next)) && f.next != Some(mine)
    requires l'.liveBaselines == l.liveBaselines[device := BaselinesFor(l', device)]
    ensures Own(l', f.path, mine)
  {
    forall d ensures !IsLastTaken(l', d, f.path) {
      assert !IsLastTaken(l, d, f.path);
      if d != device { assert BaselinesFor(l', d) == BaselinesFor(l, d); }
    }
  }

  lemma OwnStep(l: Local, e: Event, p: Path, mine: Bytes)
    requires Own(l, p, mine) && OtherLive(e, p, mine)
    ensures Own(Step(l, e), p, mine)
  {
    var f: LiveFile :| f.path == p && ListsLive(e.snapshot, f) && f.next != Some(mine);
    if !Skipped(l, e.device, e.snapshot) { OwnStays(l, e.device, e.snapshot, e.owned, f, mine); }
  }

  /**
   * A file edited here while it moved to the overlay is kept from then on, until some device states that very content.
   */
  lemma {:induction false} EditedMoveIsRefused(l: Local, run: seq<Event>, p: Path, mine: Bytes)
    requires Own(l, p, mine) && forall e :: e in run ==> OtherLive(e, p, mine)
    ensures Get(Quarantine.Follow(l, run).repo.tree, p) == Some(mine)
    decreases |run|
  {
    if run != [] {
      OwnStep(l, run[0], p, mine);
      EditedMoveIsRefused(Step(l, run[0]), run[1..], p, mine);
    }
  }

  /** A device lists the file as private, with some content, and it is not untracked here. */
  ghost predicate SomePrivate(untracked: set<Path>, e: Event, p: Path) {
    && e.Receive? && WellFormed(e.snapshot) && NotInHeads(e.snapshot, p) && p !in e.owned
    && p !in untracked && p !in LivePaths(e.snapshot.live) && !IsGenerated(p)
    && exists g: PrivateFile :: g.path == p && g in e.snapshot.files && g.next.Some?
  }

  predicate Absent(l: Local, p: Path) {
    Uncommitted(l.repo, p) && p !in l.repo.tree && p in l.fileBaselines && l.fileBaselines[p].Some?
  }

  lemma AbsentStays(l: Local, device: Device, m: Snapshot, owned: set<Path>, g: PrivateFile)
    requires WellFormed(m) && NotInHeads(m, g.path) && g.path !in owned && Absent(l, g.path)
    requires ListsPrivate(l, m, g) && g.next.Some?
    ensures Absent(Imported(l, device, m, owned), g.path) && Imported(l, device, m, owned).untracked == l.untracked
  {
    PrivateTakenExactlyWhen(l, device, m, owned, g);
    StaysUncommitted(l, device, m, owned, g.path);
  }

  lemma AbsentStep(l: Local, e: Event, p: Path)
    requires Absent(l, p) && SomePrivate(l.untracked, e, p)
    ensures Absent(Step(l, e), p) && Step(l, e).untracked == l.untracked
  {
    var g: PrivateFile :| g.path == p && g in e.snapshot.files && g.next.Some?;
    if !Skipped(l, e.device, e.snapshot) { AbsentStays(l, e.device, e.snapshot, e.owned, g); }
  }

  /** A private file taken once and absent here is never given back, whatever content is listed. */
  lemma {:induction false} AbsentPrivateStaysAbsent(l: Local, run: seq<Event>, p: Path)
    requires Absent(l, p) && forall e :: e in run ==> SomePrivate(l.untracked, e, p)
    ensures p !in Quarantine.Follow(l, run).repo.tree
    decreases |run|
  {
    if run != [] {
      AbsentStep(l, run[0], p);
      AbsentPrivateStaysAbsent(Step(l, run[0]), run[1..], p);
    }
  }
}
