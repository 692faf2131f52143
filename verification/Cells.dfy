/** The overlay operations seen one path at a time: every fold over files acts on each path on its own. */
module Cells {
  import opened Basics
  import opened Paths
  import opened Git
  import opened Workspace

  /** Retraction gives the path back to HEAD, or leaves it exactly as it is. */
  function PreparedCell(c: Cell): Cell {
    if Retractable(c) then c.(current := c.head, baseline := None) else c
  }

  /** Applying an overlay entry installs it, or records it as seen and leaves the file alone. */
  function AppliedCell(c: Cell, f: LiveFile): Cell {
    if IsGenerated(f.path) then c
    else if Safe(c, f) then c.(current := f.next, baseline := Some(DigestOf(f.next)))
    else c.(baseline := Some(DigestOf(f.next)))
  }

  function AppliedPrivateCell(c: Cell, f: PrivateFile): Cell {
    if PrivateSafe(c, f) then c.(current := f.next, baseline := Some(DigestOf(f.next)))
    else c.(baseline := Some(DigestOf(f.next)))
  }

  /** The work of the overlay changes the working tree only: refs, HEAD and index stay. */
  ghost predicate SameRefs(r: Repo, r': Repo) {
    r' == r.(tree := r'.tree)
  }

  lemma PlacedView(w: Work, t: Path, content: Option<Bytes>, p: Path)
    ensures var w' := WithFile(w, t, content);
            && SameRefs(w.repo, w'.repo)
            && View(w', p) == if t == p then View(w, p).(current := content) else View(w, p)
  {
    assert HeadTree(WithFile(w, t, content).repo) == HeadTree(w.repo);
  }

  lemma QuarantinedView(w: Work, t: Path, p: Path)
    ensures var w' := Quarantined(w, t);
            && SameRefs(w.repo, w'.repo)
            && View(w', p) == if t == p then View(w, p).(current := None) else View(w, p)
  {
    PlacedView(w, t, None, p);
  }

  lemma PrepareOneView(w: Work, t: Path, p: Path)
    ensures var w' := PrepareOne(w, t);
            && SameRefs(w.repo, w'.repo)
            && View(w', p) == if t == p then PreparedCell(View(w, p)) else View(w, p)
  {
    QuarantinedView(w, t, p);
    PlacedView(w, t, View(w, t).index, p);
  }

  lemma {:induction false} PreparedView(w: Work, targets: seq<Path>, p: Path)
    requires Distinct(targets)
    ensures var w' := Prepared(w, targets);
            && SameRefs(w.repo, w'.repo)
            && View(w', p) == if p in targets then PreparedCell(View(w, p)) else View(w, p)
  {
    if targets != [] {
      LastOfDistinct(targets);
      PreparedView(w, targets[..|targets| - 1], p);
      PrepareOneView(Prepared(w, targets[..|targets| - 1]), targets[|targets| - 1], p);
    }
  }

  predicate DistinctPaths(files: seq<LiveFile>) {
    forall i, j :: 0 <= i < j < |files| ==> files[i].path != files[j].path
  }

  function FileAt(files: seq<LiveFile>, p: Path): Option<LiveFile> {
    if files == [] then None
    else if files[|files| - 1].path == p then Some(files[|files| - 1])
    else FileAt(files[..|files| - 1], p)
  }

  lemma {:induction false} FileAtIffIn(files: seq<LiveFile>, p: Path)
    ensures FileAt(files, p).Some? ==> FileAt(files, p).value in files && FileAt(files, p).value.path == p
    ensures FileAt(files, p).None? ==> forall f :: f in files ==> f.path != p
    ensures FileAt(files, p).Some? <==> p in LivePaths(files)
  {
    if files != [] {
      var init, last := files[..|files| - 1], files[|files| - 1];
      assert files == init + [last];
      FileAtIffIn(init, p);
    }
  }

  lemma ApplyOneView(w: Work, device: Device, f: LiveFile, p: Path)
    ensures var w' := ApplyOne(w, device, f);
            && SameRefs(w.repo, w'.repo)
            && View(w', p) == if f.path == p then AppliedCell(View(w, p), f) else View(w, p)
  {
    if !IsGenerated(f.path) {
      QuarantinedView(w, f.path, p);
      PlacedView(w, f.path, f.next, p);
    }
  }

  lemma {:induction false} AppliedView(w: Work, device: Device, files: seq<LiveFile>, p: Path)
    requires DistinctPaths(files)
    ensures var w' := Applied(w, device, files);
            && SameRefs(w.repo, w'.repo)
            && View(w', p) == match FileAt(files, p) case Some(f) => AppliedCell(View(w, p), f) case None => View(w, p)
  {
    if files != [] {
      var init, last := files[..|files| - 1], files[|files| - 1];
      AppliedView(w, device, init, p);
      ApplyOneView(Applied(w, device, init), device, last, p);
      if last.path == p { FileAtIffIn(init, p); }
    }
  }

  predicate DistinctPrivate(files: seq<PrivateFile>) {
    forall i, j :: 0 <= i < j < |files| ==> files[i].path != files[j].path
  }

  function PrivateAt(files: seq<PrivateFile>, p: Path): Option<PrivateFile> {
    if files == [] then None
    else if files[|files| - 1].path == p then Some(files[|files| - 1])
    else PrivateAt(files[..|files| - 1], p)
  }

  lemma {:induction false} PrivateAtIffIn(files: seq<PrivateFile>, p: Path)
    ensures PrivateAt(files, p).Some? ==> PrivateAt(files, p).value in files && PrivateAt(files, p).value.path == p
    ensures PrivateAt(files, p).None? ==> forall f :: f in files ==> f.path != p
  {
    if files != [] {
      var init, last := files[..|files| - 1], files[|files| - 1];
      assert files == init + [last];
      PrivateAtIffIn(init, p);
    }
  }

  lemma ApplyPrivateOneView(w: Work, device: Device, f: PrivateFile, p: Path)
    ensures var w' := ApplyPrivateOne(w, device, f);
            && SameRefs(w.repo, w'.repo)
            && View(w', p) == if f.path == p then AppliedPrivateCell(View(w, p), f) else View(w, p)
  {
    PlacedView(w, f.path, f.next, p);
  }

  lemma {:induction false} PrivateAppliedView(w: Work, device: Device, files: seq<PrivateFile>, p: Path)
    requires DistinctPrivate(files)
    ensures var w' := PrivateApplied(w, device, files);
            && SameRefs(w.repo, w'.repo)
            && View(w', p) == match PrivateAt(files, p)
                              case Some(f) => AppliedPrivateCell(View(w, p), f)
                              case None => View(w, p)
  {
    if files != [] {
      var init, last := files[..|files| - 1], files[|files| - 1];
      PrivateAppliedView(w, device, init, p);
      ApplyPrivateOneView(PrivateApplied(w, device, init), device, last, p);
      if last.path == p { PrivateAtIffIn(init, p); }
    }
  }

  /** The files that stay active are a sub-list: those neither untracked here nor generated. */
  lemma {:induction false} ActiveFiles(files: seq<PrivateFile>, untracked: set<Path>)
    ensures forall f :: f in Active(files, untracked) <==> f in files && f.path !in untracked && !IsGenerated(f.path)
    ensures DistinctPrivate(files) ==> DistinctPrivate(Active(files, untracked))
  {
    if files != [] {
      var init := files[..|files| - 1];
      assert files == init + [files[|files| - 1]];
      ActiveFiles(init, untracked);
    }
  }

  // ---------------------------------------------------------------- what one file puts into the trash

  /** No other path is touched, and the file of this one is trashed exactly when it goes. */
  ghost predicate TrashesOnly(w: Work, w': Work, p: Path) {
    && (forall q :: q != p ==> (q in w'.repo.tree <==> q in w.repo.tree))
    && w'.trash == if p in w.repo.tree && p !in w'.repo.tree then w.trash + [Trashed(p, w.repo.tree[p])] else w.trash
  }

  lemma QuarantineTrashesOnly(w: Work, p: Path)
    ensures TrashesOnly(w, Quarantined(w, p), p)
  {}

  lemma PlaceTrashesOnly(w: Work, p: Path, data: Bytes)
    ensures TrashesOnly(w, WithFile(w, p, Some(data)), p)
  {}

  lemma PrepareTrashesOnly(w: Work, p: Path)
    ensures TrashesOnly(w, PrepareOne(w, p), p)
  {
    var c := View(w, p);
    QuarantineTrashesOnly(w, p);
    if c.index.Some? { PlaceTrashesOnly(w, p, c.index.value); }
  }

  lemma ApplyTrashesOnly(w: Work, device: Device, f: LiveFile)
    ensures TrashesOnly(w, ApplyOne(w, device, f), f.path)
  {
    QuarantineTrashesOnly(w, f.path);
    if f.next.Some? { PlaceTrashesOnly(w, f.path, f.next.value); }
  }
}
