/**
 * src/live-workspace.js and src/workspace.js: the live overlay (working tree minus HEAD) and the
 * private files of a repository, published by one device and applied by another under baselines.
 */
module Workspace {
  import opened Basics
  import opened Strings
  import opened Paths
  import opened Git

  /**
   * What an overlay or a private list says about one path: its next content, and the HEAD digest it was taken against.
   */
  datatype LiveFile = LiveFile(path: Path, next: Option<Bytes>, base: Option<Digest>)
  datatype PrivateFile = PrivateFile(path: Path, next: Option<Bytes>)
  datatype Trashed = Trashed(path: Path, data: Bytes)

  /** For each path, the digest this device last took from a peer (None: the peer deleted it). */
  type Baselines = map<Path, Option<Digest>>

  /** One path as `prepare` and `apply` see it. */
  datatype Cell = Cell(current: Option<Bytes>, index: Option<Bytes>, head: Option<Bytes>,
                       baseline: Option<Option<Digest>>)
  {
    predicate Staged() { index != head }
    predicate WorkingChanges() { index.Some? && current != index }
  }

  datatype Work = Work(
    repo: Repo,
    baselines: Baselines,
    trash: seq<Trashed>,
    saved: map<(Device, Path), Option<Bytes>>,
    changed: seq<Path>,
    conflicts: seq<Path>)

  function View(w: Work, p: Path): Cell {
    Cell(Get(w.repo.tree, p), Get(w.repo.index, p), Get(HeadTree(w.repo), p), Get(w.baselines, p))
  }

  function WithFile(w: Work, p: Path, content: Option<Bytes>): Work {
    w.(repo := w.repo.(tree := Put(w.repo.tree, p, content)), changed := w.changed + [p])
  }

  /** Move a file to the trash; nothing happens when there is no file. */
  function Quarantined(w: Work, p: Path): Work {
    if p in w.repo.tree
    then WithFile(w, p, None).(trash := w.trash + [Trashed(p, w.repo.tree[p])])
    else w.(changed := w.changed + [p])
  }

  const TRASH_INDEX_MAX: nat := 500

  /** The entries the trash index lists of all the files in the trash, in the order they came. */
  function Recent(trash: seq<Trashed>): seq<Trashed> {
    if |trash| <= TRASH_INDEX_MAX then trash else trash[|trash| - TRASH_INDEX_MAX..]
  }

  lemma RecentMore(trash: seq<Trashed>, entry: Trashed)
    ensures Recent(Recent(trash) + [entry]) == Recent(trash + [entry])
  {}

  // ---------------------------------------------------------------- prepare: retract what a peer no longer states

  predicate Retractable(c: Cell) {
    c.baseline == Some(DigestOf(c.current)) && !c.Staged()
  }

  function PrepareOne(w: Work, p: Path): Work {
    var c := View(w, p);
    if !Retractable(c) then w.(conflicts := w.conflicts + [p])
    else
      var w' := if DigestOf(c.current) == DigestOf(c.head) then w
                else if c.head.None? then Quarantined(w, p)
                else WithFile(w, p, c.index);
      w'.(baselines := w'.baselines - {p})
  }

  function Prepared(w: Work, targets: seq<Path>): Work {
    if targets == [] then w else PrepareOne(Prepared(w, targets[..|targets| - 1]), targets[|targets| - 1])
  }

  function LivePaths(files: seq<LiveFile>): set<Path> {
    set f | f in files :: f.path
  }

  function Targets(baselines: Baselines, incoming: set<Path>, restoreAll: bool, except: set<Path>): seq<Path> {
    Sorted(set p | p in baselines && (restoreAll || p !in incoming) && p !in except)
  }

  // ---------------------------------------------------------------- apply: take the incoming overlay

  predicate Safe(c: Cell, f: LiveFile) {
    var current := DigestOf(c.current);
    || current == DigestOf(f.next)
    || (!c.Staged() && current == f.base)
    || (f.base.Some? && !c.Staged() && c.head.Some? && DigestOf(c.head) == f.base && !c.WorkingChanges())
    || c.baseline == Some(current)
  }

  function ApplyOne(w: Work, device: Device, f: LiveFile): Work {
    if IsGenerated(f.path) then w
    else
      var c := View(w, f.path);
      var next := DigestOf(f.next);
      var w' := if !Safe(c, f)
                then w.(conflicts := w.conflicts + [f.path], saved := w.saved[(device, f.path) := f.next])
                else if DigestOf(c.current) == next then w
                else if f.next.None? then Quarantined(w, f.path)
                else WithFile(w, f.path, f.next);
      w'.(baselines := w'.baselines[f.path := next])
  }

  function Applied(w: Work, device: Device, files: seq<LiveFile>): Work {
    if files == [] then w else ApplyOne(Applied(w, device, files[..|files| - 1]), device, files[|files| - 1])
  }

  // ---------------------------------------------------------------- private files

  predicate PrivateSafe(c: Cell, f: PrivateFile) {
    var current := DigestOf(c.current);
    current == DigestOf(f.next) || (if c.baseline.Some? then c.baseline.value == current else current == None)
  }

  function ApplyPrivateOne(w: Work, device: Device, f: PrivateFile): Work {
    var c := View(w, f.path);
    var w' := if !PrivateSafe(c, f)
              then w.(conflicts := w.conflicts + [f.path], saved := w.saved[(device, f.path) := f.next])
              else if DigestOf(c.current) == DigestOf(f.next) then w
              else WithFile(w, f.path, f.next);
    w'.(baselines := w'.baselines[f.path := DigestOf(f.next)])
  }

  function PrivateApplied(w: Work, device: Device, files: seq<PrivateFile>): Work {
    if files == [] then w
    else ApplyPrivateOne(PrivateApplied(w, device, files[..|files| - 1]), device, files[|files| - 1])
  }

  function Active(files: seq<PrivateFile>, untracked: set<Path>): seq<PrivateFile> {
    if files == [] then []
    else
      var rest := Active(files[..|files| - 1], untracked);
      var f := files[|files| - 1];
      if f.path in untracked || IsGenerated(f.path) then rest else rest + [f]
  }

  /** The incoming paths join the exclude file before any of them is written. */
  function WithExcludes(r: Repo, files: seq<PrivateFile>): Repo {
    r.(ignored := r.ignored + set f | f in files :: f.path)
  }

  function PrivateImported(w: Work, device: Device, files: seq<PrivateFile>, untracked: set<Path>): Work {
    var active := Active(files, untracked);
    PrivateApplied(w.(repo := WithExcludes(w.repo, active)), device, active)
  }

  // ---------------------------------------------------------------- snapshot: what a device publishes as its overlay

  /** The paths `git diff --name-only HEAD` and `git ls-files --others --exclude-standard` print. */
  predicate GitLists(r: Repo, p: Path) {
    || (if HeadCommit(r).Some?
        then (p in r.index && Get(r.tree, p) != Get(HeadTree(r), p)) || (p in HeadTree(r) && p !in r.index)
        else p in r.index)
    || (p in r.tree && p !in r.index && p !in r.ignored)
  }

  function Listed(r: Repo): set<Path> {
    set p | p in r.tree.Keys + r.index.Keys + HeadTree(r).Keys && GitLists(r, p)
  }

  /** Whether a path belongs to the live overlay at all: not private, not generated, not an untracked ignored file. */
  predicate Shared(r: Repo, private: set<Path>, p: Path) {
    && p !in private && !IsGenerated(p)
    && (p !in r.ignored || p in r.index || p in HeadTree(r))
  }

  predicate Differs(r: Repo, p: Path) {
    Get(r.tree, p) != Get(HeadTree(r), p)
  }

  function OverlayFile(r: Repo, p: Path): LiveFile {
    LiveFile(p, Get(r.tree, p), DigestOf(Get(HeadTree(r), p)))
  }

  /** `files` states exactly the shared paths whose working copy differs from HEAD, each once. */
  ghost predicate IsOverlay(files: seq<LiveFile>, r: Repo, private: set<Path>) {
    && (forall f :: f in files <==> Shared(r, private, f.path) && Differs(r, f.path) && f == OverlayFile(r, f.path))
    && (forall i, j :: 0 <= i < j < |files| ==> files[i].path != files[j].path)
  }

  /** git's two listings see every shared difference, and nothing that is neither tracked nor unignored. */
  lemma ListingIsComplete(r: Repo, p: Path)
    ensures Differs(r, p) && (p !in r.ignored || p in r.index || p in HeadTree(r)) <==> Differs(r, p) && p in Listed(r)
  {}

  lemma PreparedNext(w: Work, targets: seq<Path>, i: nat)
    requires i < |targets|
    ensures Prepared(w, targets[..i + 1]) == PrepareOne(Prepared(w, targets[..i]), targets[i])
  {
    assert targets[..i + 1][..i] == targets[..i];
  }

  lemma AppliedNext(w: Work, device: Device, files: seq<LiveFile>, i: nat)
    requires i < |files|
    ensures Applied(w, device, files[..i + 1]) == ApplyOne(Applied(w, device, files[..i]), device, files[i])
  {
    assert files[..i + 1][..i] == files[..i];
  }

  /** The overlay as far as these paths go. */
  ghost predicate OverlayOf(files: seq<LiveFile>, r: Repo, private: set<Path>, paths: seq<Path>) {
    && (forall f :: f in files ==>
          f.path in paths && Shared(r, private, f.path) && Differs(r, f.path) && f == OverlayFile(r, f.path))
    && (forall p :: p in paths && Shared(r, private, p) && Differs(r, p) ==> OverlayFile(r, p) in files)
    && (forall i, j :: 0 <= i < j < |files| ==> files[i].path != files[j].path)
  }

  lemma ListedIsShared(r: Repo, private: set<Path>, p: Path)
    requires p in Listed(r)
    ensures Differs(r, p) ==> (Shared(r, private, p) <==> p !in private && !IsGenerated(p))
  {
    ListingIsComplete(r, p);
  }

  lemma OverlayMore(files: seq<LiveFile>, r: Repo, private: set<Path>, paths: seq<Path>, p: Path, more: seq<LiveFile>)
    requires OverlayOf(files, r, private, paths) && p !in paths
    requires more == if Shared(r, private, p) && Differs(r, p) then files + [OverlayFile(r, p)] else files
    ensures OverlayOf(more, r, private, paths + [p])
  {}

  lemma OverlayIsComplete(files: seq<LiveFile>, r: Repo, private: set<Path>, listed: seq<Path>)
    requires OverlayOf(files, r, private, listed) && forall p :: p in Listed(r) ==> p in listed
    ensures IsOverlay(files, r, private)
  {
    forall p | Shared(r, private, p) && Differs(r, p) ensures p in listed { ListingIsComplete(r, p); }
  }

  // ---------------------------------------------------------------- the objects

  class LiveWorkspace {
    const repository: GitRepository
    /** The files in the trash directory, and the entries of its index. */
    var trash: seq<Trashed>
    var index: seq<Trashed>
    var saved: map<(Device, Path), Option<Bytes>>

    ghost predicate Valid()
      reads this
    {
      index == Recent(trash)
    }

    constructor (repository: GitRepository)
      ensures Valid() && this.repository == repository && trash == [] && saved == map[]
    {
      this.repository := repository;
      trash, index, saved := [], [], map[];
    }

    function State(baselines: Baselines, changed: seq<Path>, conflicts: seq<Path>): Work
      reads this, repository
    {
      Work(repository.disk, baselines, trash, saved, changed, conflicts)
    }

    method Snapshot(privatePaths: set<Path>) returns (files: seq<LiveFile>)
      ensures IsOverlay(files, repository.disk, privatePaths)
    {
      var r := repository.disk;
      var listed := Sorted(Listed(r));
      files := [];
      var i := 0;
      while i < |listed|
        invariant 0 <= i <= |listed|
        invariant OverlayOf(files, r, privatePaths, listed[..i])
      {
        assert listed[..i + 1] == listed[..i] + [listed[i]];
        var more := ListFile(listed[i], privatePaths, files);
        OverlayMore(files, r, privatePaths, listed[..i], listed[i], more);
        files := more;
        i := i + 1;
      }
      assert listed[..|listed|] == listed;
      OverlayIsComplete(files, r, privatePaths, listed);
    }

    /** One path that git lists. */
    method ListFile(p: Path, privatePaths: set<Path>, files: seq<LiveFile>) returns (more: seq<LiveFile>)
      requires p in Listed(repository.disk)
      ensures var r := repository.disk;
              more == if Shared(r, privatePaths, p) && Differs(r, p) then files + [OverlayFile(r, p)] else files
    {
      var r := repository.disk;
      ListedIsShared(r, privatePaths, p);
      more := files;
      if p !in privatePaths && !IsGenerated(p) {
        var base := Get(HeadTree(r), p);
        if p in r.tree {
          if DigestOf(Some(r.tree[p])) != DigestOf(base) {
            more := files + [LiveFile(p, Some(r.tree[p]), DigestOf(base))];
          }
        } else if base.Some? {
          more := files + [LiveFile(p, None, DigestOf(base))];
        }
      }
    }

    method Quarantine(p: Path)
      requires Valid()
      modifies this`trash, this`index, repository
      ensures Valid()
      ensures forall b, c, k :: State(b, c + [p], k) == Quarantined(old(State(b, c, k)), p)
    {
      if p in repository.disk.tree {
        var entry := Trashed(p, repository.disk.tree[p]);
        RecentMore(trash, entry);
        trash, index := trash + [entry], Recent(index + [entry]);
        repository.disk := repository.disk.(tree := repository.disk.tree - {p});
      }
    }

    method Prepare(files: seq<LiveFile>, baselines: Baselines, restoreAll: bool, except: set<Path>)
      returns (baselines': Baselines, restored: seq<Path>, conflicts: seq<Path>)
      requires Valid()
      modifies this`trash, this`index, repository
      ensures Valid()
      ensures State(baselines', restored, conflicts)
           == Prepared(old(State(baselines, [], [])), Targets(baselines, LivePaths(files), restoreAll, except))
    {
      var targets := Targets(baselines, LivePaths(files), restoreAll, except);
      baselines', restored, conflicts := Retract(targets, baselines);
    }

    /** The loop over the targets. */
    method Retract(targets: seq<Path>, baselines: Baselines)
      returns (baselines': Baselines, restored: seq<Path>, conflicts: seq<Path>)
      requires Valid()
      modifies this`trash, this`index, repository
      ensures Valid()
      ensures State(baselines', restored, conflicts) == Prepared(old(State(baselines, [], [])), targets)
    {
      ghost var start := State(baselines, [], []);
      baselines', restored, conflicts := baselines, [], [];
      for i := 0 to |targets|
        invariant Valid()
        invariant State(baselines', restored, conflicts) == Prepared(start, targets[..i])
      {
        PreparedNext(start, targets, i);
        baselines', restored, conflicts := RetractFile(targets[i], baselines', restored, conflicts);
      }
      assert targets[..|targets|] == targets;
    }

    method RetractFile(file: Path, baselines: Baselines, restored: seq<Path>, conflicts: seq<Path>)
      returns (baselines': Baselines, restored': seq<Path>, conflicts': seq<Path>)
      requires Valid()
      modifies this`trash, this`index, repository
      ensures Valid()
      ensures State(baselines', restored', conflicts') == PrepareOne(old(State(baselines, restored, conflicts)), file)
    {
      baselines', restored', conflicts' := baselines, restored, conflicts;
      var disk := repository.disk;
      var current := DigestOf(Get(disk.tree, file));
      var staged := Get(disk.index, file) != Get(HeadTree(disk), file);
      if Get(baselines, file) != Some(current) || staged {
        conflicts' := conflicts + [file];
        return;
      }
      var base := Get(HeadTree(disk), file);
      if current != DigestOf(base) {
        if base.None? {
          Quarantine(file);
        } else {
          repository.disk := disk.(tree := Put(disk.tree, file, Get(disk.index, file)));
        }
        restored' := restored + [file];
      }
      baselines' := baselines - {file};
    }

    method Apply(files: seq<LiveFile>, baselines: Baselines, device: Device)
      returns (baselines': Baselines, updated: seq<Path>, conflicts: seq<Path>)
      requires Valid()
      modifies this`trash, this`index, this`saved, repository
      ensures Valid()
      ensures State(baselines', updated, conflicts) == Applied(old(State(baselines, [], [])), device, files)
    {
      ghost var start := State(baselines, [], []);
      baselines', updated, conflicts := baselines, [], [];
      for i := 0 to |files|
        invariant Valid()
        invariant State(baselines', updated, conflicts) == Applied(start, device, files[..i])
      {
        AppliedNext(start, device, files, i);
        baselines', updated, conflicts := ApplyFile(files[i], baselines', updated, conflicts, device);
      }
      assert files[..|files|] == files;
    }

    method ApplyFile(f: LiveFile, baselines: Baselines, updated: seq<Path>, conflicts: seq<Path>, device: Device)
      returns (baselines': Baselines, updated': seq<Path>, conflicts': seq<Path>)
      requires Valid()
      modifies this`trash, this`index, this`saved, repository
      ensures Valid()
      ensures State(baselines', updated', conflicts') == ApplyOne(old(State(baselines, updated, conflicts)), device, f)
    {
      baselines', updated', conflicts' := baselines, updated, conflicts;
      if IsGenerated(f.path) { return; }
      var disk := repository.disk;
      var head := Get(HeadTree(disk), f.path);
      var current, next := DigestOf(Get(disk.tree, f.path)), DigestOf(f.next);
      var staged := Get(disk.index, f.path) != head;
      var cleanHead := false;
      if f.base.Some? && !staged {
        cleanHead := head.Some? && DigestOf(head) == f.base
          && (f.path !in disk.index || Get(disk.tree, f.path) == Get(disk.index, f.path));
      }
      var delivered := Get(baselines, f.path) == Some(current);
      var safe := current == next || (!staged && current == f.base) || cleanHead || delivered;
      if !safe {
        saved := saved[(device, f.path) := f.next];
        conflicts' := conflicts + [f.path];
      } else if current != next {
        if f.next.None? {
          Quarantine(f.path);
        } else {
          repository.disk := disk.(tree := disk.tree[f.path := f.next.value]);
        }
        updated' := updated + [f.path];
      }
      baselines' := baselines[f.path := next];
    }
  }

  /** Private files: paths a person keeps out of Git, each refused for good once untracked here. */
  class WorkspaceFiles {
    const repository: GitRepository
    var untracked: set<Path>
    var saved: map<(Device, Path), Option<Bytes>>

    constructor (repository: GitRepository)
      ensures this.repository == repository && untracked == {} && saved == map[]
    {
      this.repository := repository;
      untracked, saved := {}, map[];
    }

    function State(baselines: Baselines, changed: seq<Path>, conflicts: seq<Path>): Work
      reads this, repository
    {
      Work(repository.disk, baselines, [], saved, changed, conflicts)
    }

    method ApplyActive(active: seq<PrivateFile>, baselines: Baselines, device: Device)
      returns (baselines': Baselines, updated: seq<Path>, conflicts: seq<Path>)
      modifies this`saved, repository
      ensures State(baselines', updated, conflicts) == PrivateApplied(old(State(baselines, [], [])), device, active)
    {
      ghost var start := State(baselines, [], []);
      baselines', updated, conflicts := baselines, [], [];
      var i := 0;
      while i < |active|
        invariant 0 <= i <= |active|
        invariant State(baselines', updated, conflicts) == PrivateApplied(start, device, active[..i])
      {
        assert active[..i + 1][..i] == active[..i];
        baselines', updated, conflicts := ApplyFile(active[i], baselines', updated, conflicts, device);
        i := i + 1;
      }
      assert active[..|active|] == active;
    }

    method ApplyFile(f: PrivateFile, baselines: Baselines, updated: seq<Path>, conflicts: seq<Path>, device: Device)
      returns (baselines': Baselines, updated': seq<Path>, conflicts': seq<Path>)
      modifies this`saved, repository
      ensures State(baselines', updated', conflicts')
           == ApplyPrivateOne(old(State(baselines, updated, conflicts)), device, f)
    {
      updated', conflicts' := updated, conflicts;
      var disk := repository.disk;
      var current, incoming := DigestOf(Get(disk.tree, f.path)), DigestOf(f.next);
      var safe := current == incoming
        || (if f.path in baselines then current == baselines[f.path] else current == None);
      if !safe {
        saved := saved[(device, f.path) := f.next];
        conflicts' := conflicts + [f.path];
      } else if current != incoming {
        repository.disk := disk.(tree := Put(disk.tree, f.path, f.next));
        updated' := updated + [f.path];
      }
      baselines' := baselines[f.path := incoming];
    }

    method Apply(files: seq<PrivateFile>, baselines: Baselines, device: Device)
      returns (baselines': Baselines, updated: seq<Path>, conflicts: seq<Path>)
      modifies this`saved, repository
      ensures State(baselines', updated, conflicts) ==
                PrivateImported(old(State(baselines, [], [])), device, files, untracked)
    {
      var active := Active(files, untracked);
      repository.disk := WithExcludes(repository.disk, active);
      baselines', updated, conflicts := ApplyActive(active, baselines, device);
    }
  }
}
