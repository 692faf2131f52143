/**
 * Which bundle a publication names (src/protocol.js:274-340): the bundle of the refs published, whether its chunks are
 * written anew or reused from the snapshot before; over whole runs, and exactly when a head taken back breaks it.
 */
module Bundles {
  import opened Basics
  import opened Cache
  import opened Collector
  import Keeping

  /** The bundle of some refs, as the chunks of some size it is cut into. */
  type BundleOf = (Option<nat>, nat) -> seq<Digest>

  /** What a draft says of itself: its id stands for its content, and unchanged content is that of the head before. */
  ghost predicate HonestDraft(book: Id -> Lists, bundles: BundleOf, n: Node, self: Device, d: Draft) {
    && d.bundle == bundles(d.refs, d.chunkSize)
    && book(d.id) == Lists(d.chunkSize, d.bundle, d.files, d.liveFiles)
    && (d.sameContent ==>
          && self in n.heads && n.heads[self].refs == d.refs
          && var was := book(n.heads[self].snapshotId);
             was.chunkSize == d.chunkSize ==> was.files == d.files && was.liveFiles == d.liveFiles)
  }

  ghost predicate HonestEvent(book: Id -> Lists, bundles: BundleOf, n: Node, self: Device, e: Event) {
    match e
    case Publish(draft) => HonestDraft(book, bundles, n, self, draft)
    case _ => Collector.HonestEvent(book, n, self, e)
  }

  ghost predicate HonestRun(book: Id -> Lists, bundles: BundleOf, n: Node, self: Device, events: seq<Event>)
    decreases |events|
  {
    events == [] || (HonestEvent(book, bundles, n, self, events[0])
                     && HonestRun(book, bundles, Step(n, self, events[0]), self, events[1..]))
  }

  /** A snapshot holds the bundle of these refs. */
  ghost predicate MadeFor(book: Id -> Lists, bundles: BundleOf, head: Head) {
    var made := book(head.snapshotId);
    made.chunks == bundles(head.refs, made.chunkSize)
  }

  /** This device's own head names a snapshot made for the head's refs. */
  ghost predicate Matches(book: Id -> Lists, bundles: BundleOf, n: Node, self: Device) {
    self in n.heads ==> MadeFor(book, bundles, n.heads[self])
  }

  /** Reused or new, the bundle is that of the refs published. */
  lemma ManifestHasBundle(book: Id -> Lists, bundles: BundleOf, n: Node, self: Device, d: Draft)
    requires HonestDisk(book, n.disk) && Matches(book, bundles, n, self) && HonestDraft(book, bundles, n, self, d)
    ensures ListsOf(ManifestOf(n, self, d)) 
         == Lists(d.chunkSize, bundles(d.refs, d.chunkSize), d.files, d.liveFiles) == book(d.id)
  {}

  /**
   * A publication that succeeds leaves this device with a head of the refs published, whose readable manifest names
   * exactly their bundle and the files of the draft, published anew or there already.
   */
  lemma DoneIsPublished(book: Id -> Lists, bundles: BundleOf, n: Node, self: Device, d: Draft)
    requires HonestDisk(book, n.disk) && Matches(book, bundles, n, self) && HonestDraft(book, bundles, n, self, d)
    requires Published(n, self, d).Done?
    ensures var n' := Published(n, self, d).node;
            && HonestDisk(book, n'.disk) && Matches(book, bundles, n', self)
            && self in n'.heads && n'.heads[self].refs == d.refs && Previous(n', self).Some?
            && ListsOf(Previous(n', self).value)
            == Lists(d.chunkSize, bundles(d.refs, d.chunkSize), d.files, d.liveFiles)
    ensures !Unchanged(n, self, d) ==> Published(n, self, d).node.heads[self] == Head(d.id, d.refs)
  {
    ManifestHasBundle(book, bundles, n, self, d);
    if !Unchanged(n, self, d) { WrittenIsListed(book, n, self, d); }
  }

  /** And it can be served: its chunks are no longer than the chunk size, and it has its pack index if there is one. */
  lemma DoneCanBeServed(book: Id -> Lists, bundles: BundleOf, n: Node, self: Device, d: Draft)
    requires HonestDisk(book, n.disk) && Matches(book, bundles, n, self) && HonestDraft(book, bundles, n, self, d)
    requires Published(n, self, d).Done? && DraftFits(d)
    ensures var n' := Published(n, self, d).node;
            && self in n'.heads && Previous(n', self).Some?
            && FitsChunkSize(Previous(n', self).value, d.chunkSize)
            && (d.packIndex ==> Previous(n', self).value.packIndex)
  {
    DoneIsPublished(book, bundles, n, self, d);
    var m := Previous(Published(n, self, d).node, self).value;
    forall c | c in Marked(m) ensures |c.data| <= d.chunkSize { Keeping.NeedsExactlyWhen(m, c); }
  }

  /** The draft's chunks are cut at the chunk size. */
  predicate DraftFits(d: Draft) {
    && AllShort(d.bundle, d.chunkSize)
    && (forall i :: 0 <= i < |d.files| ==> AllShort(d.files[i], d.chunkSize))
    && (forall i :: 0 <= i < |d.liveFiles| ==> AllShort(d.liveFiles[i], d.chunkSize))
  }

  predicate AllShort(chunks: seq<Digest>, size: nat) {
    forall i :: 0 <= i < |chunks| ==> |chunks[i].data| <= size
  }

  lemma WrittenIsListed(book: Id -> Lists, n: Node, self: Device, d: Draft)
    requires HonestDisk(book, n.disk) && ListsOf(ManifestOf(n, self, d)) == book(d.id)
    requires Published(n, self, d).Done? && !Unchanged(n, self, d)
    ensures var n' := Published(n, self, d).node;
            && HonestDisk(book, n'.disk) && n'.heads == n.heads[self := Head(d.id, d.refs)]
            && d.id in Readable(n'.disk.manifests) && ListsOf(n'.disk.manifests[d.id].value) == book(d.id)
  {}

  lemma FailedKeepsHonest(book: Id -> Lists, n: Node, self: Device, d: Draft)
    requires HonestDisk(book, n.disk) && ListsOf(ManifestOf(n, self, d)) == book(d.id)
    requires Published(n, self, d).Failed?
    ensures HonestDisk(book, Published(n, self, d).node.disk) && Published(n, self, d).node.heads == n.heads
  {}

  /** One step: only a head taken back can name a snapshot made for other refs. */
  lemma StepMatchesExactlyWhen(book: Id -> Lists, bundles: BundleOf, n: Node, self: Device, e: Event)
    requires HonestDisk(book, n.disk) && Matches(book, bundles, n, self) && HonestEvent(book, bundles, n, self, e)
    ensures HonestDisk(book, Step(n, self, e).disk)
    ensures Matches(book, bundles, Step(n, self, e), self) <==> (Taken(n, self, e) ==> MadeFor(book, bundles, e.own))
  {
    match e
    case Publish(d) =>
      ManifestHasBundle(book, bundles, n, self, d);
      if Published(n, self, d).Done? {
        DoneIsPublished(book, bundles, n, self, d);
      } else {
        FailedKeepsHonest(book, n, self, d);
      }
    case AcceptPeer(device, head, manifest, fetched) =>
    case AcceptOwn(own) =>
    case Prune(active, role, archiveOnline, now) =>
    case Hear(_) =>
    case Forget(_) =>
  }

  /** A head of this device that the mesh has is taken: there is none here, or one of the same snapshot. */
  predicate Taken(n: Node, self: Device, e: Event) {
    e.AcceptOwn? && (self in n.heads ==> n.heads[self].snapshotId == e.own.snapshotId)
  }

  ghost predicate AlwaysMatches(book: Id -> Lists, bundles: BundleOf, n: Node, self: Device, events: seq<Event>)
    decreases |events|
  {
    Matches(book, bundles, n, self)
    && (events == [] || AlwaysMatches(book, bundles, Step(n, self, events[0]), self, events[1..]))
  }

  ghost predicate TakesMatching(book: Id -> Lists, bundles: BundleOf, n: Node, self: Device, events: seq<Event>)
    decreases |events|
  {
    events == [] ||
    (&& (Taken(n, self, events[0]) ==> MadeFor(book, bundles, events[0].own))
     && TakesMatching(book, bundles, Step(n, self, events[0]), self, events[1..]))
  }

  /**
   * Whatever is published, accepted and pruned, this device's head names the bundle of its own refs all along exactly
   * when every head it takes back names a snapshot made for that head's refs.
   */
  lemma {:induction false} OwnBundleMatchesExactlyWhen(book: Id -> Lists, bundles: BundleOf, n: Node, self: Device,
                                                       events: seq<Event>)
    requires HonestDisk(book, n.disk) && Matches(book, bundles, n, self)
    requires HonestRun(book, bundles, n, self, events)
    ensures AlwaysMatches(book, bundles, n, self, events) <==> TakesMatching(book, bundles, n, self, events)
    decreases |events|
  {
    if events != [] {
      var next := Step(n, self, events[0]);
      StepMatchesExactlyWhen(book, bundles, n, self, events[0]);
      if Matches(book, bundles, next, self) {
        OwnBundleMatchesExactlyWhen(book, bundles, next, self, events[1..]);
      }
    }
  }

  /** And then whatever is on disk for its head is the bundle of the head's refs. */
  lemma {:induction false} HeadHasItsBundle(book: Id -> Lists, bundles: BundleOf, n: Node, self: Device,
                                            events: seq<Event>)
    requires HonestDisk(book, n.disk) && Matches(book, bundles, n, self)
    requires HonestRun(book, bundles, n, self, events) && TakesMatching(book, bundles, n, self, events)
    ensures var end := Run(n, self, events);
            && HonestDisk(book, end.disk) && Matches(book, bundles, end, self)
            && (self in end.heads && Previous(end, self).Some? ==>
                  var m := Previous(end, self).value; m.chunks == bundles(end.heads[self].refs, m.chunkSize))
    decreases |events|
  {
    if events != [] {
      StepMatchesExactlyWhen(book, bundles, n, self, events[0]);
      HeadHasItsBundle(book, bundles, Step(n, self, events[0]), self, events[1..]);
    }
  }

  /** Then the manifests it makes stand for what their ids say, as the collector's results take them to. */
  lemma {:induction false} DraftsMakeHonestRuns(book: Id -> Lists, bundles: BundleOf, n: Node, self: Device,
                                                events: seq<Event>)
    requires HonestDisk(book, n.disk) && Matches(book, bundles, n, self)
    requires HonestRun(book, bundles, n, self, events) && TakesMatching(book, bundles, n, self, events)
    ensures Collector.HonestRun(book, n, self, events)
    decreases |events|
  {
    if events != [] {
      if events[0].Publish? { ManifestHasBundle(book, bundles, n, self, events[0].draft); }
      StepMatchesExactlyWhen(book, bundles, n, self, events[0]);
      DraftsMakeHonestRuns(book, bundles, Step(n, self, events[0]), self, events[1..]);
    }
  }

  /** Once a head was taken back for a snapshot of other refs, the next reuse names the wrong bundle. */
  lemma ReuseIsRightExactlyWhen(book: Id -> Lists, bundles: BundleOf, n: Node, self: Device, d: Draft)
    requires HonestDisk(book, n.disk) && Reuses(n, self, d)
    ensures ManifestOf(n, self, d).chunks == bundles(d.refs, d.chunkSize) <==> MadeFor(book, bundles, n.heads[self])
  {}

  /** A head of other refs is taken back for a sibling's snapshot, and the next publication names that one's bundle. */
  lemma AdoptedHeadPublishesOtherBundle(events: seq<Event>)
    requires events == [AcceptPeer("peer", Head(1, Some(0)), Some(SHARED), {BUNDLE_CHUNK}), AcceptOwn(Head(1, Some(5))),
                        Publish(Draft(2, 1, Some(5), false, 1, [Sha([8])], true, [], [], []))]
    ensures var n := Run(EMPTY, "self", events);
            && "self" in n.heads && n.heads["self"] == Head(2, Some(5)) && Previous(n, "self").Some?
            && Previous(n, "self").value.chunks == [BUNDLE_CHUNK] != events[2].draft.bundle
  {
    var n1 := Step(EMPTY, "self", events[0]);
    var n2 := Step(n1, "self", events[1]);
    assert events[0..] == events && events[3..] == [];
    RunOn(EMPTY, "self", events, 0);
    RunOn(n1, "self", events, 1);
    RunOn(n2, "self", events, 2);
    ReusedIsPublished(n2, events[2].draft);
  }

  lemma ReusedIsPublished(n: Node, d: Draft)
    requires n == Node(Disk({BUNDLE_CHUNK}, map[1 := Some(SHARED)]),
                       map["peer" := Head(1, Some(0)), "self" := Head(1, Some(5))], {BUNDLE_CHUNK})
    requires d == Draft(2, 1, Some(5), false, 1, [Sha([8])], true, [], [], [])
    ensures var n' := Step(n, "self", Publish(d));
            && "self" in n'.heads && n'.heads["self"] == Head(2, Some(5)) && Previous(n', "self").Some?
            && Previous(n', "self").value.chunks == [BUNDLE_CHUNK]
  {
    assert Reuses(n, "self", d);
    assert Marked(ManifestOf(n, "self", d)) == {BUNDLE_CHUNK};
  }
}
