/**
 * The index of the trash lists its last 500 files (src/live-workspace.js:161-178): which of them are still listed, over
 * whole runs. A file whose entry is gone stays in the trash, but nothing finds it there.
 */
module TrashIndex {
  import opened Basics
  import opened Paths
  import opened Git
  import opened Workspace
  import opened Sync
  import opened Cells
  import opened LocalEdits
  import opened Quarantine

  /** The file quarantined as the i-th of all has an entry in the index. */
  predicate ListedAt(trash: seq<Trashed>, i: nat) {
    |trash| - |Recent(trash)| <= i < |trash|
  }

  /** The entries are those files, in order. */
  lemma IndexIsRecent(trash: seq<Trashed>, i: nat)
    requires i < |trash|
    ensures var gone := |trash| - |Recent(trash)|;
            ListedAt(trash, i) ==> i - gone < |Recent(trash)| && Recent(trash)[i - gone] == trash[i]
    ensures ListedAt(trash, i) <==> |trash| - i <= 500
  {}

  // ---------------------------------------------------------------- how many an import adds

  function Gone(w: Work, w': Work): set<Path> {
    set p | p in w.repo.tree && p !in w'.repo.tree
  }

  lemma GoneOneMore(w: Work, t: Work, u: Work, p: Path)
    requires (p in w.repo.tree <==> p in t.repo.tree) && TrashesOnly(t, u, p)
    ensures |Gone(w, u)| + |t.trash| == |Gone(w, t)| + |u.trash|
  {
    if p in w.repo.tree && p !in u.repo.tree {
      assert Gone(w, u) == Gone(w, t) + {p};
    } else {
      assert Gone(w, u) == Gone(w, t);
    }
  }

  lemma {:induction false} RetractionAdds(w: Work, targets: seq<Path>)
    requires Distinct(targets)
    ensures |Prepared(w, targets).trash| == |w.trash| + |Gone(w, Prepared(w, targets))|
  {
    if targets == [] {
      assert Gone(w, w) == {};
    } else {
      var init, last := targets[..|targets| - 1], targets[|targets| - 1];
      LastOfDistinct(targets);
      RetractionAdds(w, init);
      PreparedView(w, init, last);
      SameAt(w, Prepared(w, init), last);
      PrepareTrashesOnly(Prepared(w, init), last);
      GoneOneMore(w, Prepared(w, init), Prepared(w, targets), last);
    }
  }

  lemma SameAt(w: Work, t: Work, p: Path)
    requires View(t, p) == View(w, p)
    ensures p in w.repo.tree <==> p in t.repo.tree
  {
    assert View(t, p).current == Get(t.repo.tree, p) && View(w, p).current == Get(w.repo.tree, p);
  }

  lemma {:induction false} OverlayAdds(w: Work, device: Device, files: seq<LiveFile>)
    requires DistinctPaths(files)
    ensures |Applied(w, device, files).trash| == |w.trash| + |Gone(w, Applied(w, device, files))|
  {
    if files == [] {
      assert Gone(w, w) == {};
    } else {
      var init, last := files[..|files| - 1], files[|files| - 1];
      OverlayAdds(w, device, init);
      AppliedView(w, device, init, last.path);
      FileAtIffIn(init, last.path);
      SameAt(w, Applied(w, device, init), last.path);
      ApplyTrashesOnly(Applied(w, device, init), device, last);
      GoneOneMore(w, Applied(w, device, init), Applied(w, device, files), last.path);
    }
  }

  // ---------------------------------------------------------------- which files an import adds

  lemma EntryOneMore(a: seq<Trashed>, b: seq<Trashed>, c: seq<Trashed>, entry: Trashed)
    requires a <= b <= c
    ensures entry in c[|a|..] <==> entry in b[|a|..] || entry in c[|b|..]
  {
    assert c[|a|..] == b[|a|..] + c[|b|..];
  }

  lemma PrepareOneEntry(w: Work, t: Path, entry: Trashed)
    ensures var w', c := PrepareOne(w, t), View(w, t);
            && w.trash <= w'.trash
            && (entry in w'.trash[|w.trash|..] <==>
                  entry.path == t && Retractable(c) && c.head.None? && c.current == Some(entry.data))
  {
    var w', c := PrepareOne(w, t), View(w, t);
    if Retractable(c) && c.head.None? && c.current.Some? {
      assert w'.trash == w.trash + [Trashed(t, w.repo.tree[t])];
    } else {
      assert w'.trash == w.trash;
    }
  }

  /** Retraction adds the files that HEAD has not and that still are what was taken. */
  lemma {:induction false} RetractionEntries(w: Work, targets: seq<Path>, entry: Trashed)
    requires Distinct(targets)
    ensures var w', c := Prepared(w, targets), View(w, entry.path);
            && w.trash <= w'.trash
            && (entry in w'.trash[|w.trash|..] <==>
                  entry.path in targets && Retractable(c) && c.head.None? && c.current == Some(entry.data))
  {
    if targets != [] {
      var init, last := targets[..|targets| - 1], targets[|targets| - 1];
      LastOfDistinct(targets);
      RetractionEntries(w, init, entry);
      PreparedView(w, init, last);
      PrepareOneEntry(Prepared(w, init), last, entry);
      EntryOneMore(w.trash, Prepared(w, init).trash, Prepared(w, targets).trash, entry);
    }
  }

  lemma ApplyOneEntry(w: Work, device: Device, f: LiveFile, entry: Trashed)
    ensures var w', c := ApplyOne(w, device, f), View(w, f.path);
            && w.trash <= w'.trash
            && (entry in w'.trash[|w.trash|..] <==>
                  && entry.path == f.path && !IsGenerated(f.path) && Safe(c, f) && f.next.None?
                  && c.current == Some(entry.data))
  {
    var w', c := ApplyOne(w, device, f), View(w, f.path);
    if !IsGenerated(f.path) && Safe(c, f) && f.next.None? && c.current.Some? {
      assert w'.trash == w.trash + [Trashed(f.path, w.repo.tree[f.path])];
    } else {
      assert w'.trash == w.trash;
    }
  }

  /** The overlay adds the files it deletes. */
  lemma {:induction false} OverlayEntries(w: Work, device: Device, files: seq<LiveFile>, entry: Trashed)
    requires DistinctPaths(files)
    ensures var w', c := Applied(w, device, files), View(w, entry.path);
            && w.trash <= w'.trash
            && (entry in w'.trash[|w.trash|..] <==>
                  match FileAt(files, entry.path)
                  case Some(f) => !IsGenerated(f.path) && Safe(c, f) && f.next.None? && c.current == Some(entry.data)
                  case None => false)
  {
    if files != [] {
      var init, last := files[..|files| - 1], files[|files| - 1];
      OverlayEntries(w, device, init, entry);
      AppliedView(w, device, init, last.path);
      FileAtIffIn(init, last.path);
      ApplyOneEntry(Applied(w, device, init), device, last, entry);
      EntryOneMore(w.trash, Applied(w, device, init).trash, Applied(w, device, files).trash, entry);
    }
  }

  /** How many files an import moves to the trash: those retraction takes away, and those the overlay does. */
  function Removals(l: Local, device: Device, m: Snapshot, owned: set<Path>): nat {
    |Gone(PreparedFrom(l, device, m, owned), AfterPrepare(l, device, m, owned))|
    + |Gone(LiveFrom(l, device, m, owned), AfterLive(l, device, m, owned))|
  }

  lemma ImportAdds(l: Local, device: Device, m: Snapshot, owned: set<Path>)
    requires WellFormed(m)
    ensures |Imported(l, device, m, owned).trash| == |l.trash| + Removals(l, device, m, owned)
  {
    NotOwnedFiles(m.live, owned);
    RetractionAdds(PreparedFrom(l, device, m, owned), PreparedTargets(l, device, m, owned));
    OverlayAdds(LiveFrom(l, device, m, owned), device, NotOwned(m.live, owned));
  }

  // ---------------------------------------------------------------- runs

  function RemovalsOf(l: Local, run: seq<Event>): nat
    decreases |run|
  {
    if run == [] then 0
    else
      var e := run[0];
      (if e.Receive? && !Skipped(l, e.device, e.snapshot) then Removals(l, e.device, e.snapshot, e.owned) else 0)
      + RemovalsOf(Step(l, e), run[1..])
  }

  lemma {:induction false} RunAdds(l: Local, run: seq<Event>)
    requires forall e :: e in run && e.Receive? ==> WellFormed(e.snapshot)
    ensures |Quarantine.Follow(l, run).trash| == |l.trash| + RemovalsOf(l, run)
    decreases |run|
  {
    if run != [] {
      var e := run[0];
      if e.Receive? && !Skipped(l, e.device, e.snapshot) { ImportAdds(l, e.device, e.snapshot, e.owned); }
      RunAdds(Step(l, e), run[1..]);
    }
  }

  /**
   * A quarantined file is still listed after any edits here and imports from any devices exactly when they and the
   * quarantines before them put fewer than 500 files after it.
   */
  lemma StillListedExactlyWhen(l: Local, run: seq<Event>, i: nat)
    requires forall e :: e in run && e.Receive? ==> WellFormed(e.snapshot)
    requires i < |l.trash|
    ensures var trash := Quarantine.Follow(l, run).trash;
            && i < |trash| && trash[i] == l.trash[i]
            && (ListedAt(trash, i) <==> |l.trash| - 1 - i + RemovalsOf(l, run) < 500)
  {
    QuarantineOnlyGrows(l, run);
    RunAdds(l, run);
    IndexIsRecent(Quarantine.Follow(l, run).trash, i);
  }

  /** So an import that removes no more than 500 files lists each of them with the bytes it had. */
  lemma ImportListsAll(l: Local, device: Device, m: Snapshot, owned: set<Path>)
    requires WellFormed(m) && Removals(l, device, m, owned) <= 500
    ensures forall p, data :: RemovedSoftly(l, device, m, owned, p, data) ==>
              Trashed(p, data) in Recent(Imported(l, device, m, owned).trash)
  {
    var trash := Imported(l, device, m, owned).trash;
    ImportQuarantines(l, device, m, owned);
    ImportAdds(l, device, m, owned);
    forall p, data | RemovedSoftly(l, device, m, owned, p, data) ensures Trashed(p, data) in Recent(trash) {
      var i :| 0 <= i < |trash| - |l.trash| && trash[|l.trash|..][i] == Trashed(p, data);
      IndexIsRecent(trash, |l.trash| + i);
    }
  }
}
