/**
 * src/protocol.js:589-659: importing one published snapshot. The steps are retraction (`prepare`),
 * the Git bundle, the private files, and the live overlay, in that order.
 */
module Sync {
  import opened Basics
  import opened Strings
  import opened Git
  import opened Workspace

  /** A published snapshot: what its manifest and its head record state. */
  datatype Snapshot = Snapshot(id: nat, heads: seq<Ref>, tags: seq<Ref>, files: seq<PrivateFile>, live: seq<LiveFile>)

  /** The refs digest of a head, idealised: absent when there are no refs, else named by the listing itself. */
  type RefsDigest = Option<(seq<Ref>, seq<Ref>)>

  function RefsDigestOf(m: Snapshot): RefsDigest {
    if m.heads == [] && m.tags == [] then None else Some((m.heads, m.tags))
  }

  /** Two snapshots have one refs digest exactly when they list the same heads and tags. */
  lemma RefsDigestIsFaithful(m: Snapshot, other: Snapshot)
    ensures RefsDigestOf(m) == RefsDigestOf(other) <==> m.heads == other.heads && m.tags == other.tags
  {}

  /** Everything an import reads and writes on this device. */
  datatype Local = Local(
    repo: Repo,
    trash: seq<Trashed>,
    saved: map<(Device, Path), Option<Bytes>>,
    savedPrivate: map<(Device, Path), Option<Bytes>>,
    untracked: set<Path>,
    liveBaselines: map<Device, Baselines>,
    fileBaselines: Baselines,
    imported: map<Device, nat>,
    importedRefs: map<Device, RefsDigest>)

  function BaselinesFor(l: Local, device: Device): Baselines {
    if device in l.liveBaselines then l.liveBaselines[device] else map[]
  }

  /** Paths a live session owns are recorded as delivered but neither retracted nor applied. */
  function WithOwned(baselines: Baselines, live: seq<LiveFile>, owned: set<Path>): Baselines {
    if live == [] then baselines
    else
      var rest := WithOwned(baselines, live[..|live| - 1], owned);
      var f := live[|live| - 1];
      if f.path in owned then rest[f.path := DigestOf(f.next)] else rest
  }

  function NotOwned(live: seq<LiveFile>, owned: set<Path>): seq<LiveFile> {
    if live == [] then []
    else
      var rest := NotOwned(live[..|live| - 1], owned);
      var f := live[|live| - 1];
      if f.path in owned then rest else rest + [f]
  }

  /** Where retraction starts, and the paths it looks at. */
  function PreparedFrom(l: Local, device: Device, m: Snapshot, owned: set<Path>): Work {
    Work(l.repo, WithOwned(BaselinesFor(l, device), m.live, owned), l.trash, l.saved, [], [])
  }

  function PreparedTargets(l: Local, device: Device, m: Snapshot, owned: set<Path>): seq<Path> {
    Targets(PreparedFrom(l, device, m, owned).baselines, LivePaths(NotOwned(m.live, owned)),
            Get(l.importedRefs, device) != Some(RefsDigestOf(m)), owned)
  }

  function AfterPrepare(l: Local, device: Device, m: Snapshot, owned: set<Path>): Work {
    Prepared(PreparedFrom(l, device, m, owned), PreparedTargets(l, device, m, owned))
  }

  function AfterBundle(l: Local, device: Device, m: Snapshot, owned: set<Path>): Import {
    BundleImported(AfterPrepare(l, device, m, owned).repo, device, m.heads, m.tags)
  }

  /** Where the private files start, the incoming paths excluded from Git already. */
  function PrivateFrom(l: Local, device: Device, m: Snapshot, owned: set<Path>): Work {
    var excluded := WithExcludes(AfterBundle(l, device, m, owned).repo, Active(m.files, l.untracked));
    Work(excluded, l.fileBaselines, [], l.savedPrivate, [], [])
  }

  function AfterPrivate(l: Local, device: Device, m: Snapshot, owned: set<Path>): Work {
    PrivateApplied(PrivateFrom(l, device, m, owned), device, Active(m.files, l.untracked))
  }

  /** Where the overlay starts: what retraction remembers, in the repository the other steps left. */
  function LiveFrom(l: Local, device: Device, m: Snapshot, owned: set<Path>): Work {
    AfterPrepare(l, device, m, owned).(repo := AfterPrivate(l, device, m, owned).repo, changed := [], conflicts := [])
  }

  function AfterLive(l: Local, device: Device, m: Snapshot, owned: set<Path>): Work {
    Applied(LiveFrom(l, device, m, owned), device, NotOwned(m.live, owned))
  }

  /**
   * What the device remembers of an import: a dirty tree means trying again, any conflict means restoring fully next
   * time.
   */
  function Recorded(l: Local, device: Device, m: Snapshot, conflicts: seq<Conflict>, private: Work, live: Work): Local {
    Local(live.repo, live.trash, live.saved, private.saved, l.untracked,
          l.liveBaselines[device := live.baselines],
          private.baselines,
          if exists c :: c in conflicts && c.reason == NotClean then l.imported else l.imported[device := m.id],
          if conflicts == [] then l.importedRefs[device := RefsDigestOf(m)] else l.importedRefs)
  }

  function Imported(l: Local, device: Device, m: Snapshot, owned: set<Path>): Local {
    Recorded(l, device, m, AfterBundle(l, device, m, owned).conflicts, AfterPrivate(l, device, m, owned),
             AfterLive(l, device, m, owned))
  }

  /** What an import reports: the refs and files it changed, and those it left alone. */
  datatype Report = Report(updated: seq<Name>, conflicts: seq<Conflict>, updatedFiles: seq<Path>,
                           fileConflicts: seq<Path>, updatedLiveFiles: seq<Path>, liveConflicts: seq<Path>)

  function Reported(l: Local, device: Device, m: Snapshot, owned: set<Path>): Report {
    var prepared, bundle := AfterPrepare(l, device, m, owned), AfterBundle(l, device, m, owned);
    var private, live := AfterPrivate(l, device, m, owned), AfterLive(l, device, m, owned);
    Report(bundle.updated, bundle.conflicts, private.changed, private.conflicts,
           Sorted(set p | p in prepared.changed + live.changed), prepared.conflicts + live.conflicts)
  }

  /** A head whose snapshot was imported before is not imported again. */
  predicate Skipped(l: Local, device: Device, m: Snapshot) {
    Get(l.imported, device) == Some(m.id)
  }

  function Accepted(l: Local, device: Device, m: Snapshot, owned: set<Path>): Local {
    if Skipped(l, device, m) then l else Imported(l, device, m, owned)
  }

  /** The synchronizer of one repository: it drives the repository, the private files and the live overlay. */
  class RepositorySynchronizer {
    const repository: GitRepository
    const workspace: WorkspaceFiles
    const liveWorkspace: LiveWorkspace
    var liveBaselines: map<Device, Baselines>
    var fileBaselines: Baselines
    var imported: map<Device, nat>
    var importedRefs: map<Device, RefsDigest>

    ghost predicate Valid()
      reads this, liveWorkspace
    {
      workspace.repository == repository && liveWorkspace.repository == repository && liveWorkspace.Valid()
    }

    function State(): Local
      reads this, repository, workspace, liveWorkspace
    {
      Local(repository.disk, liveWorkspace.trash, liveWorkspace.saved, workspace.saved, workspace.untracked,
            liveBaselines, fileBaselines, imported, importedRefs)
    }

    constructor (repository: GitRepository, workspace: WorkspaceFiles, liveWorkspace: LiveWorkspace)
      requires workspace.repository == repository && liveWorkspace.repository == repository && liveWorkspace.Valid()
      ensures Valid() && this.repository == repository && this.workspace == workspace
      ensures this.liveWorkspace == liveWorkspace
      ensures liveBaselines == map[] && fileBaselines == map[] && imported == map[] && importedRefs == map[]
    {
      this.repository, this.workspace, this.liveWorkspace := repository, workspace, liveWorkspace;
      liveBaselines, fileBaselines, imported, importedRefs := map[], map[], map[], map[];
    }

    method SetAsideOwned(live: seq<LiveFile>, baselines: Baselines, owned: set<Path>)
      returns (kept: seq<LiveFile>, baselines': Baselines)
      ensures kept == NotOwned(live, owned) && baselines' == WithOwned(baselines, live, owned)
    {
      kept, baselines' := [], baselines;
      var i := 0;
      while i < |live|
        invariant 0 <= i <= |live|
        invariant kept == NotOwned(live[..i], owned) && baselines' == WithOwned(baselines, live[..i], owned)
      {
        assert live[..i + 1][..i] == live[..i];
        if live[i].path in owned {
          baselines' := baselines'[live[i].path := DigestOf(live[i].next)];
        } else {
          kept := kept + [live[i]];
        }
        i := i + 1;
      }
      assert live[..|live|] == live;
    }

    /** The four steps, each carrying the work on from where the one before left it. */
    method RunSteps(device: Device, m: Snapshot, owned: set<Path>)
      returns (live: Baselines, files: Baselines, report: Report)
      requires Valid()
      modifies repository, workspace, liveWorkspace
      ensures liveWorkspace.Valid()
      ensures report == Reported(old(State()), device, m, owned)
      ensures workspace.State(files, report.updatedFiles, report.fileConflicts)
           == AfterPrivate(old(State()), device, m, owned).(repo := repository.disk)
      ensures exists u, k :: liveWorkspace.State(live, u, k) == AfterLive(old(State()), device, m, owned)
      ensures workspace.untracked == old(workspace.untracked)
    {
      ghost var l := State();
      var kept, baselines := SetAsideOwned(m.live, BaselinesFor(State(), device), owned);
      var refsChanged := Get(importedRefs, device) != Some(RefsDigestOf(m));
      var prepared, restored, refused := liveWorkspace.Prepare(kept, baselines, refsChanged, owned);
      assert liveWorkspace.State(prepared, restored, refused) == AfterPrepare(l, device, m, owned);
      var updated, conflicts := repository.ImportBundle(device, m.heads, m.tags);
      assert repository.disk == AfterBundle(l, device, m, owned).repo;
      var updatedFiles, fileConflicts;
      files, updatedFiles, fileConflicts := workspace.Apply(m.files, fileBaselines, device);
      assert workspace.State(files, updatedFiles, fileConflicts) == AfterPrivate(l, device, m, owned);
      ghost var start := liveWorkspace.State(prepared, [], []);
      assert start == LiveFrom(l, device, m, owned);
      ghost var filesWork := workspace.State(files, updatedFiles, fileConflicts);
      var applied, liveConflicts;
      live, applied, liveConflicts := liveWorkspace.Apply(kept, prepared, device);
      assert liveWorkspace.State(live, applied, liveConflicts) == AfterLive(l, device, m, owned);
      assert workspace.State(files, updatedFiles, fileConflicts) == filesWork.(repo := repository.disk);
      report := Report(updated, conflicts, updatedFiles, fileConflicts, Sorted(set p | p in restored + applied),
                       refused + liveConflicts);
    }

    method ImportSnapshot(device: Device, m: Snapshot, owned: set<Path>) returns (report: Report)
      requires Valid()
      modifies this, repository, workspace, liveWorkspace
      ensures Valid() && State() == Imported(old(State()), device, m, owned)
      ensures report == Reported(old(State()), device, m, owned)
    {
      var live, files;
      live, files, report := RunSteps(device, m, owned);
      if !exists c :: c in report.conflicts && c.reason == NotClean {
        imported := imported[device := m.id];
      }
      if report.conflicts == [] {
        importedRefs := importedRefs[device := RefsDigestOf(m)];
      }
      liveBaselines, fileBaselines := liveBaselines[device := live], files;
    }

    method AcceptHead(device: Device, m: Snapshot, owned: set<Path>) returns (report: Option<Report>)
      requires Valid()
      modifies this, repository, workspace, liveWorkspace
      ensures Valid() && State() == Accepted(old(State()), device, m, owned)
      ensures report == if Skipped(old(State()), device, m) then None
              else Some(Reported(old(State()), device, m, owned))
    {
      if device in imported && imported[device] == m.id { return None; }
      var done := ImportSnapshot(device, m, owned);
      report := Some(done);
    }
  }
}
