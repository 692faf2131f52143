/**
 * What a prune leaves (src/cache.js:154-239, src/retention.js:38-58), said of the snapshots and chunks themselves: who
 * names them, how many are newer and how old they are; for one prune and over whole runs.
 */
module Keeping {
  import opened Basics
  import opened Cache
  import opened Retention
  import opened Collector

  /** There are `count` readable snapshots made after this one, or in the same millisecond with a greater id. */
  ghost predicate Outnumbered(manifests: map<Id, Option<Manifest>>, id: Id, count: nat)
    requires id in manifests && manifests[id].Some?
  {
    exists newer: seq<Id> :: |newer| == count && Distinct(newer) && AllLater(manifests, id, newer)
  }

  predicate AllLater(manifests: map<Id, Option<Manifest>>, id: Id, newer: seq<Id>)
    requires id in manifests && manifests[id].Some?
  {
    forall i :: 0 <= i < |newer| ==>
      && newer[i] in manifests && manifests[newer[i]].Some?
      && var at, own := manifests[newer[i]].value.createdAt, manifests[id].value.createdAt;
         at > own || (at == own && newer[i] > id)
  }

  lemma {:induction false} Listed(ids: set<Id>) returns (listing: seq<Id>)
    ensures Distinct(listing) && |listing| == |ids| && forall id :: id in listing <==> id in ids
  {
    if ids == {} {
      listing := [];
    } else {
      var id :| id in ids;
      var rest := Listed(ids - {id});
      listing := [id] + rest;
    }
  }

  lemma WithinSize(listing: seq<Id>, ids: set<Id>)
    requires Distinct(listing) && forall id :: id in listing ==> id in ids
    ensures |listing| <= |ids|
  {
    DistinctSize(listing);
    SubsetSize(Elements(listing), ids);
  }

  lemma {:induction false} SubsetSize(a: set<Id>, b: set<Id>)
    requires a <= b
    ensures |a| <= |b|
  {
    assert b == a + (b - a);
  }

  lemma OutnumberedExactlyWhen(manifests: map<Id, Option<Manifest>>, id: Id, count: nat)
    requires id in manifests && manifests[id].Some?
    ensures Outnumbered(manifests, id, count) <==> |NewerThan(manifests, id)| >= count
  {
    if |NewerThan(manifests, id)| >= count {
      var listing := Listed(NewerThan(manifests, id));
      var newer := listing[..count];
      forall i | 0 <= i < |newer| ensures newer[i] in NewerThan(manifests, id) {
        assert newer[i] == listing[i] && listing[i] in listing;
      }
      assert AllLater(manifests, id, newer);
    }
    if Outnumbered(manifests, id, count) {
      var newer: seq<Id> :| |newer| == count && Distinct(newer) && AllLater(manifests, id, newer);
      WithinSize(newer, NewerThan(manifests, id));
    }
  }

  /** Some snapshot that must be kept cannot be read, so it is not known which chunks it needs. */
  predicate Unclear(n: Node, active: set<Id>) {
    || (exists device :: device in n.heads && n.heads[device].snapshotId in n.disk.manifests
                         && n.disk.manifests[n.heads[device].snapshotId].None?)
    || (exists id :: id in active && id in n.disk.manifests && n.disk.manifests[id].None?)
  }

  /** An archive keeps all; otherwise heads, snapshots being served, the newest four or one, and the last 15 minutes. */
  ghost predicate Held(n: Node, active: set<Id>, role: Role, archiveOnline: bool, now: int, id: Id) {
    || role == Archive
    || id in active
    || (exists device :: device in n.heads && n.heads[device].snapshotId == id)
    || (id in n.disk.manifests && n.disk.manifests[id].Some?
        && (|| now - n.disk.manifests[id].value.createdAt < 900_000
            || !Outnumbered(n.disk.manifests, id, if role == Transient && archiveOnline then 1 else 4)))
  }

  /** A manifest remains, as it was, exactly when it is held or it is unclear what is. */
  lemma RemainsExactlyWhen(n: Node, self: Device, active: set<Id>, role: Role, archiveOnline: bool, now: int, id: Id)
    requires id in n.disk.manifests
    ensures var n' := Step(n, self, Prune(active, role, archiveOnline, now));
            && (id in n'.disk.manifests <==> Unclear(n, active) || Held(n, active, role, archiveOnline, now, id))
            && (id in n'.disk.manifests ==> n'.disk.manifests[id] == n.disk.manifests[id])
            && n'.heads == n.heads
  {
    UnclearExactlyWhen(n, active);
    if n.disk.manifests[id].Some? {
      OutnumberedExactlyWhen(n.disk.manifests, id, if role == Transient && archiveOnline then 1 else 4);
    }
    assert id in HeadIds(n) <==> exists device :: device in n.heads && n.heads[device].snapshotId == id;
  }

  lemma UnclearExactlyWhen(n: Node, active: set<Id>)
    ensures Unsafe(n.disk.manifests, HeadIds(n) + active) <==> Unclear(n, active)
  {
    if device :| device in n.heads && n.heads[device].snapshotId in n.disk.manifests
                 && n.disk.manifests[n.heads[device].snapshotId].None? {
      assert n.heads[device].snapshotId in HeadIds(n) + active;
    }
    if id :| id in active && id in n.disk.manifests && n.disk.manifests[id].None? {
      assert id in HeadIds(n) + active;
    }
  }

  // ---------------------------------------------------------------- chunks

  /** The bundle, a private file or a live file of the snapshot is made of this chunk. */
  predicate Needs(m: Manifest, c: Digest) {
    || c in m.chunks
    || (exists i :: 0 <= i < |m.files| && c in m.files[i])
    || (exists i :: 0 <= i < |m.liveFiles| && c in m.liveFiles[i])
  }

  lemma NeedsExactlyWhen(m: Manifest, c: Digest)
    ensures c in Marked(m) <==> Needs(m, c)
  {
    FlatExactlyWhen(m.files, c);
    FlatExactlyWhen(m.liveFiles, c);
  }

  lemma FlatExactlyWhen(lists: seq<seq<Digest>>, c: Digest)
    ensures c in Flat(lists) <==> exists i :: 0 <= i < |lists| && c in lists[i]
  {
    if i :| 0 <= i < |lists| && c in lists[i] {
      var j :| 0 <= j < |lists[i]| && lists[i][j] == c;
    }
  }

  /** A chunk remains exactly when nothing is pruned or a readable snapshot that remains needs it. */
  lemma ChunkRemainsExactlyWhen(n: Node, self: Device, active: set<Id>, role: Role, archiveOnline: bool, now: int,
                                c: Digest)
    ensures var n' := Step(n, self, Prune(active, role, archiveOnline, now));
            c in n'.disk.chunks <==>
              && c in n.disk.chunks
              && (|| role == Archive || Unclear(n, active)
                  || exists id :: id in n'.disk.manifests && n'.disk.manifests[id].Some?
                                  && Needs(n'.disk.manifests[id].value, c))
  {
    UnclearExactlyWhen(n, active);
    forall m: Manifest ensures c in Marked(m) <==> Needs(m, c) { NeedsExactlyWhen(m, c); }
    var n' := Step(n, self, Prune(active, role, archiveOnline, now));
    if role != Archive && !Unclear(n, active) {
      var plan := RetentionPlan(role, archiveOnline);
      PruneIsExact(n.disk, HeadIds(n) + active, plan.retainSnapshots, plan.retainRecentMs, now);
      assert forall id :: id in Readable(n'.disk.manifests) <==>
        id in n'.disk.manifests && n'.disk.manifests[id].Some?;
    }
  }

  // ---------------------------------------------------------------- runs

  /** At every prune along the run the snapshot is held, or the prune is skipped. */
  ghost predicate AlwaysHeld(n: Node, self: Device, events: seq<Event>, id: Id)
    decreases |events|
  {
    events == [] ||
    (&& (events[0].Prune? ==>
           || Unclear(n, events[0].active)
           || Held(n, events[0].active, events[0].role, events[0].archiveOnline, events[0].now, id))
     && AlwaysHeld(Step(n, self, events[0]), self, events[1..], id))
  }

  predicate AlwaysThere(n: Node, self: Device, events: seq<Event>, id: Id)
    decreases |events|
  {
    id in n.disk.manifests && (events == [] || AlwaysThere(Step(n, self, events[0]), self, events[1..], id))
  }

  /** Nothing but a prune removes anything, and a manifest once on disk at most gets a pack index it lacked. */
  lemma OnlyPrunesRemove(n: Node, self: Device, e: Event)
    requires !e.Prune?
    ensures n.disk.manifests.Keys <= Step(n, self, e).disk.manifests.Keys
    ensures n.disk.chunks <= Step(n, self, e).disk.chunks
    ensures forall id :: id in n.disk.manifests ==>
              var before, after := n.disk.manifests[id], Step(n, self, e).disk.manifests[id];
              after == before
              || (before.Some? && after.Some? && !before.value.packIndex && after.value.packIndex)
  {}

  /** A snapshot stays on disk through a run exactly when it is held at each prune of it. */
  lemma {:induction false} StaysExactlyWhen(n: Node, self: Device, events: seq<Event>, id: Id)
    requires id in n.disk.manifests
    ensures AlwaysThere(n, self, events, id) <==> AlwaysHeld(n, self, events, id)
    decreases |events|
  {
    if events != [] {
      var e := events[0];
      if e.Prune? {
        RemainsExactlyWhen(n, self, e.active, e.role, e.archiveOnline, e.now, id);
      } else {
        OnlyPrunesRemove(n, self, e);
      }
      var next := Step(n, self, e);
      if id in next.disk.manifests { StaysExactlyWhen(next, self, events[1..], id); }
    }
  }

  /** An archive loses nothing it ever had, neither snapshot nor chunk. */
  lemma {:induction false} ArchiveLosesNothing(n: Node, self: Device, events: seq<Event>)
    requires forall i :: 0 <= i < |events| && events[i].Prune? ==> events[i].role == Archive
    ensures var end := Run(n, self, events);
            n.disk.manifests.Keys <= end.disk.manifests.Keys && n.disk.chunks <= end.disk.chunks
    decreases |events|
  {
    if events != [] {
      if !events[0].Prune? { OnlyPrunesRemove(n, self, events[0]); }
      ArchiveLosesNothing(Step(n, self, events[0]), self, events[1..]);
    }
  }

  /**
   * While a device has a head and none is unreadable, every part of its snapshot can be rebuilt from disk: the bundle,
   * each private and each live file.
   */
  lemma SnapshotCanBeRebuilt(book: Id -> Lists, n: Node, self: Device, events: seq<Event>)
    requires HonestDisk(book, n.disk) && Backed(n, self) && Collector.HonestRun(book, n, self, events)
    requires self in n.heads
    ensures var end := Run(n, self, events);
            && self in end.heads && end.heads[self].snapshotId in end.disk.manifests
            && end.disk.manifests[end.heads[self].snapshotId].Some?
            && forall c :: Needs(end.disk.manifests[end.heads[self].snapshotId].value, c) ==> c in end.disk.chunks
  {
    CurrentSnapshotSurvives(book, n, self, events);
    var m := Previous(Run(n, self, events), self).value;
    forall c | Needs(m, c) ensures c in Run(n, self, events).disk.chunks { NeedsExactlyWhen(m, c); }
  }
}
