/**
 * src/protocol.js:278-380, 570-586, 920-940: what publishing, accepting heads and pruning do to the
 * chunk store over a whole run. Publishing may reuse an earlier bundle's chunks without writing them.
 */
module Collector {
  import opened Basics
  import opened Cache
  import opened Retention

  type Device = string

  datatype Head = Head(snapshotId: Id, refs: Option<nat>)

  /** `frozen` is the in-memory chunk store of the mesh, which publishing seeds. */
  datatype Node = Node(disk: Disk, heads: map<Device, Head>, frozen: set<Digest>)

  /** A publication before it is decided whether the previous bundle is reused; `sameContent` unless it is forced. */
  datatype Draft = Draft(
    id: Id, createdAt: int, refs: Option<nat>, sameContent: bool, chunkSize: nat,
    bundle: seq<Digest>, packIndex: bool,
    files: seq<seq<Digest>>, liveFiles: seq<seq<Digest>>, trashFiles: seq<seq<Digest>>)

  datatype Event =
    | Publish(draft: Draft)
    | AcceptPeer(device: Device, head: Head, manifest: Option<Manifest>, fetched: set<Digest>)
    | AcceptOwn(own: Head)
    | Prune(active: set<Id>, role: Role, archiveOnline: bool, now: int)
    | Hear(offered: set<Digest>)
    | Forget(dropped: set<Digest>)

  function Previous(n: Node, self: Device): Option<Manifest> {
    if self in n.heads && n.heads[self].snapshotId in n.disk.manifests
    then n.disk.manifests[n.heads[self].snapshotId] else None
  }

  predicate PreviousUnreadable(n: Node, self: Device) {
    self in n.heads && n.heads[self].snapshotId in n.disk.manifests && n.disk.manifests[n.heads[self].snapshotId].None?
  }

  /** Cut at this chunk size, and no chunk of it longer. */
  predicate FitsChunkSize(m: Manifest, chunkSize: nat) {
    m.chunkSize == chunkSize && forall c :: c in Marked(m) ==> |c.data| <= chunkSize
  }

  /** The refs are those of the previous snapshot and its bundle can be served as it is. */
  predicate Reuses(n: Node, self: Device, d: Draft) {
    var previous := Previous(n, self);
    && previous.Some? && n.heads[self].refs == d.refs
    && FitsChunkSize(previous.value, d.chunkSize) && previous.value.packIndex
  }

  function ManifestOf(n: Node, self: Device, d: Draft): Manifest {
    if Reuses(n, self, d)
    then
      var previous := Previous(n, self).value;
      Manifest(d.id, d.createdAt, d.chunkSize, previous.packIndex, previous.chunks, d.files, d.liveFiles, d.trashFiles)
    else Manifest(d.id, d.createdAt, d.chunkSize, d.packIndex, d.bundle, d.files, d.liveFiles, d.trashFiles)
  }

  function WrittenChunks(n: Node, self: Device, d: Draft): set<Digest> {
    (if Reuses(n, self, d) then {} else set c | c in d.bundle) + Flat(d.files) + Flat(d.liveFiles) + Flat(d.trashFiles)
  }

  datatype Outcome = Done(node: Node) | Failed(node: Node)

  /** Nothing has changed since the previous snapshot, and it can be served: it is published already. */
  predicate Unchanged(n: Node, self: Device, d: Draft) {
    var previous := Previous(n, self);
    d.sameContent && previous.Some? && FitsChunkSize(previous.value, d.chunkSize) && previous.value.packIndex
  }

  function Published(n: Node, self: Device, d: Draft): Outcome {
    if PreviousUnreadable(n, self) then Failed(n)
    else if Unchanged(n, self, d) then Done(n)
    else
      var m := ManifestOf(n, self, d);
      var cached := n.(disk := n.disk.(chunks := n.disk.chunks + WrittenChunks(n, self, d)));
      match Written(cached.disk, m)
      case None => Failed(cached)
      case Some(disk) =>
        if Marked(m) <= n.frozen + disk.chunks
        then Done(Node(disk, n.heads[self := Head(d.id, d.refs)], n.frozen + Marked(m)))
        else Failed(cached.(disk := disk))
  }

  function HeadIds(n: Node): set<Id> {
    set device | device in n.heads :: n.heads[device].snapshotId
  }

  function Step(n: Node, self: Device, e: Event): Node {
    match e
    case Publish(draft) => Published(n, self, draft).node
    case AcceptPeer(device, head, manifest, fetched) =>
      if device == self then n
      else
        var manifests := if manifest.Some? && manifest.value.id !in n.disk.manifests
                         then n.disk.manifests[manifest.value.id := manifest] else n.disk.manifests;
        Node(Disk(n.disk.chunks + fetched, manifests), n.heads[device := head], n.frozen + fetched)
    case AcceptOwn(own) =>
      if self in n.heads && n.heads[self].snapshotId != own.snapshotId then n else n.(heads := n.heads[self := own])
    case Prune(active, role, archiveOnline, now) =>
      (match RetentionPlan(role, archiveOnline)
       case Skip => n
       case Thin(retain, recentMs) => n.(disk := Pruned(n.disk, HeadIds(n) + active, retain, recentMs, now)))
    case Hear(offered) => n.(frozen := n.frozen + offered)
    case Forget(dropped) => n.(frozen := n.frozen - dropped)
  }

  // ---------------------------------------------------------------- honest snapshots

  /** What a snapshot id stands for: the chunk size and the chunk lists of its bundle, private and live files. */
  datatype Lists = Lists(chunkSize: nat, chunks: seq<Digest>, files: seq<seq<Digest>>, liveFiles: seq<seq<Digest>>)

  function ListsOf(m: Manifest): Lists {
    Lists(m.chunkSize, m.chunks, m.files, m.liveFiles)
  }

  /** An id is the digest of its content and chunk size, so every honest manifest with that id lists the same chunks. */
  ghost predicate HonestDisk(book: Id -> Lists, d: Disk) {
    forall id :: id in Readable(d.manifests) ==>
      d.manifests[id].value.id == id && ListsOf(d.manifests[id].value) == book(id)
  }

  ghost predicate HonestEvent(book: Id -> Lists, n: Node, self: Device, e: Event) {
    match e
    case Publish(draft) => ListsOf(ManifestOf(n, self, draft)) == book(draft.id)
    case AcceptPeer(_, head, manifest, _) =>
      manifest.Some? ==> manifest.value.id == head.snapshotId && ListsOf(manifest.value) == book(head.snapshotId)
    case _ => true
  }

  // ---------------------------------------------------------------- safety

  /** This device's current snapshot is whole on disk: its manifest, and every chunk it marks. */
  ghost predicate Backed(n: Node, self: Device) {
    self in n.heads ==> Previous(n, self).Some? && Marked(Previous(n, self).value) <= n.disk.chunks
  }

  lemma PruneKeepsBacked(d: Disk, keep: set<Id>, retain: nat, recentMs: int, now: int, id: Id)
    requires id in keep && id in Readable(d.manifests) && Marked(d.manifests[id].value) <= d.chunks
    ensures var d' := Pruned(d, keep, retain, recentMs, now);
            id in Readable(d'.manifests) && d'.manifests[id] == d.manifests[id]
            && Marked(d'.manifests[id].value) <= d'.chunks
  {
    if !Unsafe(d.manifests, keep) {
      var d' := Pruned(d, keep, retain, recentMs, now);
      assert id in Readable(d'.manifests);
      forall c | c in Marked(d.manifests[id].value) ensures c in Referenced(d'.manifests) {}
    }
  }

  /**
   * A publication that succeeds is backed exactly when the chunks it reused, or all of an unchanged one, were still on
   * disk.
   */
  lemma PublishIsBackedIffReusedChunksAre(book: Id -> Lists, n: Node, self: Device, d: Draft)
    requires HonestDisk(book, n.disk) && HonestEvent(book, n, self, Publish(d))
    requires Published(n, self, d).Done?
    ensures Backed(Published(n, self, d).node, self) <==>
            if Unchanged(n, self, d) then Backed(n, self)
            else (Reuses(n, self, d) ==>
                    (set c | c in Previous(n, self).value.chunks) <= n.disk.chunks + WrittenChunks(n, self, d))
    ensures HonestDisk(book, Published(n, self, d).node.disk)
  {
    if !Unchanged(n, self, d) {
      var m := ManifestOf(n, self, d);
      var n' := Published(n, self, d).node;
      assert d.id in Readable(n'.disk.manifests);
      assert ListsOf(n'.disk.manifests[d.id].value) == book(d.id) == ListsOf(m);
      assert Marked(n'.disk.manifests[d.id].value) == Marked(m);
      assert n'.disk.chunks == n.disk.chunks + WrittenChunks(n, self, d);
    }
  }

  lemma PublishKeepsBacked(book: Id -> Lists, n: Node, self: Device, d: Draft)
    requires HonestDisk(book, n.disk) && HonestEvent(book, n, self, Publish(d)) && Backed(n, self)
    ensures Backed(Published(n, self, d).node, self) && HonestDisk(book, Published(n, self, d).node.disk)
  {
    if Published(n, self, d).Done? { PublishIsBackedIffReusedChunksAre(book, n, self, d); }
  }

  /** A snapshot whose manifest and every chunk it marks are on disk. */
  predicate Whole(n: Node, id: Id) {
    id in Readable(n.disk.manifests) && Marked(n.disk.manifests[id].value) <= n.disk.chunks
  }

  /** A head of this device taken back from the mesh, when it has none of its own. */
  predicate Adopts(n: Node, self: Device, e: Event) {
    e.AcceptOwn? && self !in n.heads
  }

  /**
   * From a backed state a step leads to a backed state exactly when it adopts no head whose snapshot is not whole here.
   */
  lemma StepKeepsBackedExactlyWhen(book: Id -> Lists, n: Node, self: Device, e: Event)
    requires HonestDisk(book, n.disk) && HonestEvent(book, n, self, e) && Backed(n, self)
    ensures HonestDisk(book, Step(n, self, e).disk)
    ensures Backed(Step(n, self, e), self) <==> (Adopts(n, self, e) ==> Whole(n, e.own.snapshotId))
  {
    match e {
      case Publish(draft) => PublishKeepsBacked(book, n, self, draft);
      case AcceptPeer(device, head, manifest, fetched) =>
      case AcceptOwn(own) =>
      case Prune(active, role, archiveOnline, now) =>
        var plan := RetentionPlan(role, archiveOnline);
        if plan.Thin? && self in n.heads {
          PruneKeepsBacked(n.disk, HeadIds(n) + active, plan.retainSnapshots, plan.retainRecentMs, now,
                           n.heads[self].snapshotId);
        }
      case Hear(_) =>
      case Forget(_) =>
    }
  }

  // ---------------------------------------------------------------- runs

  function Run(n: Node, self: Device, events: seq<Event>): Node
    decreases |events|
  {
    if events == [] then n else Run(Step(n, self, events[0]), self, events[1..])
  }

  ghost predicate HonestRun(book: Id -> Lists, n: Node, self: Device, events: seq<Event>)
    decreases |events|
  {
    events == [] || (HonestEvent(book, n, self, events[0])
                     && HonestRun(book, Step(n, self, events[0]), self, events[1..]))
  }

  ghost predicate AlwaysBacked(n: Node, self: Device, events: seq<Event>)
    decreases |events|
  {
    Backed(n, self) && (events == [] || AlwaysBacked(Step(n, self, events[0]), self, events[1..]))
  }

  /** Whenever a head is adopted along the run, its snapshot is whole on disk by then. */
  predicate AdoptsWhole(n: Node, self: Device, events: seq<Event>)
    decreases |events|
  {
    events == [] ||
    (&& (Adopts(n, self, events[0]) ==> Whole(n, events[0].own.snapshotId))
     && AdoptsWhole(Step(n, self, events[0]), self, events[1..]))
  }

  /**
   * Collector safety: whatever is published, accepted and pruned, in any order, this device's current snapshot has its
   * manifest and every chunk of its bundle, private files and live files on disk all along, exactly when no head
   * is taken back from the mesh before its snapshot is whole here.
   */
  lemma {:induction false} CurrentSnapshotSurvivesExactlyWhen(book: Id -> Lists, n: Node, self: Device,
                                                              events: seq<Event>)
    requires HonestDisk(book, n.disk) && Backed(n, self) && HonestRun(book, n, self, events)
    ensures AlwaysBacked(n, self, events) <==> AdoptsWhole(n, self, events)
    decreases |events|
  {
    if events != [] {
      var next := Step(n, self, events[0]);
      StepKeepsBackedExactlyWhen(book, n, self, events[0]);
      if Backed(next, self) { CurrentSnapshotSurvivesExactlyWhen(book, next, self, events[1..]); }
    }
  }

  /** Once it has a head of its own, the device adopts none, so its current snapshot is always whole. */
  lemma {:induction false} CurrentSnapshotSurvives(book: Id -> Lists, n: Node, self: Device, events: seq<Event>)
    requires HonestDisk(book, n.disk) && Backed(n, self) && HonestRun(book, n, self, events) && self in n.heads
    ensures Backed(Run(n, self, events), self) && self in Run(n, self, events).heads
    decreases |events|
  {
    if events != [] {
      StepKeepsBackedExactlyWhen(book, n, self, events[0]);
      CurrentSnapshotSurvives(book, Step(n, self, events[0]), self, events[1..]);
    }
  }

  // ---------------------------------------------------------------- the one way in for an unbacked head

  const BUNDLE_CHUNK := Sha([7])
  const SHARED := Manifest(1, 0, 1, true, [BUNDLE_CHUNK], [], [], [])

  const EMPTY := Node(Disk({}, map[]), map[], {})

  /**
   * A fresh device caches a sibling's manifest but not its one chunk, which the mesh has; it takes back a head of its
   * own with that snapshot and publishes under the same refs.
   */
  function RestoredRun(): seq<Event> {
    [AcceptPeer("peer", Head(1, Some(0)), Some(SHARED), {}),
     Hear({BUNDLE_CHUNK}),
     AcceptOwn(Head(1, Some(0))),
     Publish(Draft(2, 1, Some(0), false, 1, [BUNDLE_CHUNK], true, [], [], []))]
  }

  lemma RunOn(n: Node, self: Device, events: seq<Event>, k: nat)
    requires k < |events|
    ensures Run(n, self, events[k..]) == Run(Step(n, self, events[k]), self, events[k + 1..])
  {
    assert events[k..][1..] == events[k + 1..] && events[k..][0] == events[k];
  }

  lemma Restored()
    ensures Run(EMPTY, "self", RestoredRun())
         == Step(Node(Disk({}, map[1 := Some(SHARED)]), map["peer" := Head(1, Some(0)), "self" := Head(1, Some(0))],
                      {BUNDLE_CHUNK}),
                 "self", RestoredRun()[3])
  {
    var events := RestoredRun();
    var n1 := Step(EMPTY, "self", events[0]);
    var n2 := Step(n1, "self", events[1]);
    var n3 := Step(n2, "self", events[2]);
    assert events[0..] == events;
    RunOn(EMPTY, "self", events, 0);
    RunOn(n1, "self", events, 1);
    RunOn(n2, "self", events, 2);
    RunOn(n3, "self", events, 3);
    assert n1.disk == Disk({}, map[1 := Some(SHARED)]) && n1.frozen == {};
    assert n3 == Node(n1.disk, map["peer" := Head(1, Some(0)), "self" := Head(1, Some(0))], {BUNDLE_CHUNK});
    assert events[4..] == [];
    assert Run(Step(n3, "self", events[3]), "self", []) == Step(n3, "self", events[3]);
  }

  /** The snapshot is published, its bundle never having been on this disk. */
  lemma AdoptedHeadPublishesUnbacked()
    ensures var n := Run(EMPTY, "self", RestoredRun());
            && "self" in n.heads && n.heads["self"].snapshotId == 2
            && !Backed(n, "self")
  {
    var n3 := Node(Disk({}, map[1 := Some(SHARED)]), map["peer" := Head(1, Some(0)), "self" := Head(1, Some(0))],
                   {BUNDLE_CHUNK});
    var d := RestoredRun()[3].draft;
    Restored();
    assert Reuses(n3, "self", d);
    assert BUNDLE_CHUNK in Marked(ManifestOf(n3, "self", d));
    assert Marked(ManifestOf(n3, "self", d)) == {BUNDLE_CHUNK};
    assert Step(n3, "self", RestoredRun()[3]).disk.chunks == {};
  }

  // ---------------------------------------------------------------- exactness

  /** A prune that is not skipped leaves only readable manifests, and exactly the chunks one of them marks. */
  lemma PruneIsExact(d: Disk, keep: set<Id>, retain: nat, recentMs: int, now: int)
    requires !Unsafe(d.manifests, keep)
    ensures var d' := Pruned(d, keep, retain, recentMs, now);
            && (forall id :: id in d'.manifests ==> id in Readable(d'.manifests) && d'.manifests[id] == d.manifests[id])
            && (forall c :: c in d'.chunks <==>
                c in d.chunks && exists id :: id in Readable(d'.manifests) && c in Marked(d'.manifests[id].value))
  {
    var d' := Pruned(d, keep, retain, recentMs, now);
    forall c ensures c in Referenced(d'.manifests) <==>
      exists id :: id in Readable(d'.manifests) && c in Marked(d'.manifests[id].value) {}
  }

  /** The newest snapshots the retention plan counts are all still there, under every role. */
  lemma NewestRemain(n: Node, self: Device, active: set<Id>, role: Role, archiveOnline: bool, now: int, sorted: seq<Id>,
                     i: nat)
    requires NewestFirst(n.disk.manifests, sorted) && forall id :: id in Readable(n.disk.manifests) ==> id in sorted
    requires i < |sorted|
    requires RetentionPlan(role, archiveOnline).Thin? ==> i < RetentionPlan(role, archiveOnline).retainSnapshots
    ensures var n' := Step(n, self, Prune(active, role, archiveOnline, now));
            sorted[i] in n'.disk.manifests && n'.disk.manifests[sorted[i]] == n.disk.manifests[sorted[i]]
  {
    RankIsPosition(n.disk.manifests, sorted, i);
  }
}
